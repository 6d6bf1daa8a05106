# Thread-merging fetcher and digest builder, modelled in Dafny

This project models the core of a Twitter/X digest tool in two parts.

**The fetcher (`TwitterFetcher`).** For each account it asks the remote client for the latest posts. After a rate-limit failure ("429" or "Rate limit" in the message) it retries with a wait of 30, 60, 90, … seconds. Otherwise it gives up and records the error. On success it:

- skips reposts;
- drops posts older than the age cutoff;
- turns the rest into output records;
- merges each self-reply thread into one record.

Merging works in five steps:

1. It builds the `child -> parent` edges of the account's self-replies.
2. It walks each chain up to its root, using a visited set so the walk always stops.
3. It asks the remote client for each root's thread, within a fetch budget. When that fails or comes back empty, it rebuilds the thread from the posts already in the batch, sorted by creation time.
4. It rebuilds the record list. The first record met of each recorded thread becomes the merged record, every other record of that thread is dropped, and all other records pass through unchanged and in order.
5. It counts successes, failures, filtered posts, detected threads and total records in its statistics.

Fetching several accounts concatenates their records in account order.

**The summarizer (`LLMSummarizer`).** It groups the records by account in order of first appearance and renders:

- the numbered prompt listing (thread tag, time, text, then a metrics line);
- the fallback digest (a header giving the record count, then at most three records per account, each text cut to 200 characters);
- the guard that answers an empty input with a fixed message.

Each module follows one concern of the source:

| module | models |
|---|---|
| `Wrappers` | `Option` |
| `Text` | substring test, last url segment, join, truncation, decimal rendering, string order |
| `OrderedDicts` | an insertion-ordered dictionary (`Dict`: `keys` in insertion order plus `entries`) |
| `Sorting` | the stable sort by a string key |
| `Posts` | raw posts, output records, the remote client as an oracle, settings, statistics |
| `AgeFilter` | the age filter |
| `ReplyChains` | the id map, self-reply edges, parent walks, roots, merged ids |
| `Hydration` | the batch fallback and the budgeted lookup loop |
| `Rebuild` | the result rebuild |
| `Fetcher` | class `TwitterFetcher` and the account and multi-account specifications |
| `Summarizer` | the prompt listing, the fallback digest, the summarize guard |

How the model is built:

- Each loop of the source is a method. It is proved equal to a specification function, and the source's promises are proved as lemmas about that function.
- The fetcher is a class. Its `stats` field (the statistics dictionary) and its `waits` field (the pauses requested, in order) are reassigned by its methods.
- The remote client is an oracle passed as a parameter, a `Remote` value:
  - `timeline(username, count, attempt)` answers each fetch attempt;
  - `lookup(rootId)` answers each thread lookup.

## Model

| member | source | states |
|---|---|---|
| Fetcher.TwitterFetcher.constructor | twitter_fetcher.py:31-39 | the statistics start with every counter at zero and no error; no pause is recorded |
| Fetcher.TwitterFetcher.GetUserTweets | twitter_fetcher.py:61-145 | the records, statistics and pauses after fetching one account are those of `AccountFrom` from attempt 0, with the cutoff `now - maxTweetAgeHours * 3600` |
| Fetcher.TwitterFetcher.KeepFetched | twitter_fetcher.py:71-128 | a successful attempt yields `AccountFrom`'s records, statistics and pauses: the age-filtered records, threads merged when merging is enabled and some record is kept, one more success, and the total grown by the final record count |
| Fetcher.AccountRetries | twitter_fetcher.py:65-138 | the retries after attempt `a` are a run of rate-limited failures while `retryOnRateLimit` holds and attempts remain. They never go past `maxRetries`, so at most `maxRetries + 1` attempts are made. Retry `j` waits `(j + 1) * 30`, and the attempt after the run is not retried |
| Fetcher.AccountOutcome | twitter_fetcher.py:122-143 | an attempt that is not retried decides the account. A fetched batch counts one success and the final record count. It adds exactly its old posts to `filteredOldTweets` and its recorded threads to `threadsDetected`, and leaves errors and failures alone. A failure yields no records, one more failure and the error `"@user: " + message` carrying that attempt's own message, and changes nothing else. Earlier pauses are kept |
| Fetcher.FetchedOutcome | twitter_fetcher.py:117-128 | a fetched batch counts one success, the final record count, exactly its old posts and exactly its recorded threads, and keeps earlier pauses |
| Fetcher.FailedOutcome | twitter_fetcher.py:130-143 | a failure that is not retried returns no records, pauses no more, and adds one failure and the error `"@user: " + message` with that attempt's message; nothing else changes |
| Fetcher.AccountStats | twitter_fetcher.py:61-145 | fetching an account is decided by the first attempt not retried. If it fetched, the account counts one success, its final record count, its old posts and its recorded threads. If it failed, the account yields no records, one more failure and one error carrying that attempt's message. Earlier pauses are kept. With `maxRetries < 0` nothing changes and no record is returned |
| Fetcher.AccountCounted | twitter_fetcher.py:122-143 | one account adds one to successes plus failures and one error per failure, and grows the total by its record count |
| Fetcher.MergeIsRebuild | twitter_fetcher.py:174-262 | both early returns of merging give what the full rebuild would give, so merging always yields the rebuild of the records against the recorded threads |
| Fetcher.MergeBudget | twitter_fetcher.py:193-215 | merging pauses `requestDelay` once per answered lookup among the roots the budgeted loop reaches, and no pause at all without a self-reply; a failed lookup costs neither budget nor pause. It pauses at most `maxThreadFetches` times and raises `threadsDetected` by exactly the number of threads recorded |
| Fetcher.MergeTexts | twitter_fetcher.py:178-215 | a root is recorded iff the budgeted loop reaches it and it has a non-empty remote thread or a usable batch fallback; each recorded root is the root of some self-reply chain, and its texts are the ones chosen |
| Fetcher.TwitterFetcher.MergeThreads | twitter_fetcher.py:147-262 | the records, `threadsDetected` and pauses after merging equal the `Merge` specification, including both early returns |
| Fetcher.TwitterFetcher.HydrateThreads | twitter_fetcher.py:191-215 | the lookup loop over the roots yields `HydrateFrom`'s texts, detected count and pauses, starting with no text and no fetch |
| Fetcher.TwitterFetcher.HydrateRoot | twitter_fetcher.py:197-215 | one round: an answered lookup counts a fetch and pauses. A non-empty thread is recorded and counted; an empty thread or a failed lookup falls back to the batch. No other counter changes |
| Fetcher.TwitterFetcher.FallbackThreadFromBatch | twitter_fetcher.py:264-285 | records the batch chain's sorted texts and counts one detected thread exactly when `FallbackTexts` yields some; otherwise nothing changes |
| Fetcher.TwitterFetcher.FetchMultipleAccounts | twitter_fetcher.py:287-308 | `totalAccounts` is set to the number of accounts before any fetch; the result is the concatenation of the per-account records in account order; statistics and pauses are those of `FetchAll` |
| Fetcher.TwitterFetcher.FetchEach | twitter_fetcher.py:292-303 | slot `i` of the array receives account `i`'s records, and each account is followed by one `requestDelay` pause |
| Fetcher.TwitterFetcher.FlattenResults | twitter_fetcher.py:305-308 | joining the per-account lists gives their concatenation in order |
| Fetcher.FetchAllStats | twitter_fetcher.py:287-318 | over a run with `maxRetries >= 0`: one list per account; `totalAccounts` is untouched; successes plus failures grow by the number of accounts; the errors grow by the number of failures; the total grows by the length of the concatenated output. With `maxRetries < 0` no account is fetched or counted (`AccountStats`), so successes plus failures stay put |
| Fetcher.FetchAllStep | twitter_fetcher.py:296-301 | the run over the first `i + 1` accounts is the run over the first `i`, then account `i` fetched from that state, then one pause |
| AgeFilter.FilterByAge | twitter_fetcher.py:71-119 | the loop yields exactly the records of the kept posts, in order, and the count of old posts |
| AgeFilter.KeptIff | twitter_fetcher.py:73-115 | a record is produced iff it comes from a non-repost without a parsed time before the cutoff; kept, old and reposted posts partition the batch; a post without a parsed time is kept and shows an empty time |
| ReplyChains.BuildTweetMap | twitter_fetcher.py:150-152 | the id map built by the loop equals `TweetMap` |
| ReplyChains.TweetMapLast | twitter_fetcher.py:150-152 | an id is mapped iff some batch post has it, and it maps to the last such post |
| ReplyChains.BuildReplyEdges | twitter_fetcher.py:155-172 | the loop's `reply_to_parent` equals `Edges`, and `self_replies` is exactly its key set |
| ReplyChains.EdgesOnlySelfReplies | twitter_fetcher.py:157-172 | an edge is recorded for `c` iff some batch post `c` is a self-reply, and it points to that post's reply target. A self-reply has a reply target, and its target user (from the legacy metadata, else from a same-author parent in the batch) is the post's own user |
| ReplyChains.WalkEnds | twitter_fetcher.py:183-185 | a parent walk (here, and likewise at lines 228-230, 244-246 and 273-275) visits distinct unvisited keys, at most as many as there are keys, following the edges; it ends on an id that is not a key, was visited before, or is on its own path |
| ReplyChains.WalkToRoot | twitter_fetcher.py:181-185 | the loop stops at `Walk`'s end, only adds keys to the visited set, and ends on a non-key or a visited id |
| ReplyChains.CollectRoots | twitter_fetcher.py:178-186 | the roots collected are `RootOrder` of the edges: each chain's root once, listed in first-discovery order (the source's set has no defined order) |
| ReplyChains.CollectRootsOf | twitter_fetcher.py:179-186 | the loop over the keys yields `RootOrder`: each chain's root once, in first-discovery order |
| ReplyChains.RootOrderRoots | twitter_fetcher.py:178-186 | the roots are distinct, and an id is a root iff it is the root of some edge's child |
| ReplyChains.CollectChainIds | twitter_fetcher.py:224-232 | one thread's ids are its root plus every child whose walk ends at that root |
| ReplyChains.CollectMergedIds | twitter_fetcher.py:221-233 | `merged_ids` equals `MergedIds`: the recorded roots plus every child whose root is recorded |
| Hydration.CollectChainChildren | twitter_fetcher.py:270-277 | the loop collects, in edge order, the batch posts of the children whose root is `rootId` |
| Hydration.CollectBatchChain | twitter_fetcher.py:266-277 | the chain is the root's batch post, if present, followed by those children |
| Hydration.ChainMembers | twitter_fetcher.py:266-277 | the chain holds exactly the root's batch post and the batch posts of children whose root it is, and is at most one longer than the number of edges |
| Hydration.FallbackFromBatch | twitter_fetcher.py:279-285 | the fallback records texts iff the chain has at least two posts. They are the chain's texts sorted by raw creation time: sorted, a permutation, same length, and stable among equal times |
| Hydration.StepBudget | twitter_fetcher.py:197-200 | a round counts a fetch and pauses `delay` exactly when the lookup answers; a failed lookup uses no budget |
| Hydration.HydrateBudget | twitter_fetcher.py:193-200 | the loop stops early only once fetches reach the budget; fetches equal the answered lookups among the processed roots and never pass the budget; one `delay` pause per fetch |
| Hydration.StepRecords | twitter_fetcher.py:202-215 | a round records `Recorded` for its root (a non-empty remote thread first, else the fallback) and counts a detected thread exactly when it records one |
| Hydration.HydrateRecords | twitter_fetcher.py:191-215 | after the loop over distinct roots, a root has texts iff the loop processed it and `Recorded` yields some, and those are its texts |
| Hydration.HydrateDetected | twitter_fetcher.py:191-215 | `threadsDetected` grows by exactly the number of roots recorded |
| Rebuild.RebuildResults | twitter_fetcher.py:236-262 | the rebuild loop yields `Rebuilt` |
| Rebuild.UsedByIff | twitter_fetcher.py:237-248 | `used_roots` holds exactly the recorded roots that some earlier record belongs to |
| Rebuild.RebuiltPlain | twitter_fetcher.py:238-260 | from fetched records, the non-merged output is exactly the records of no recorded thread, in order and unchanged; the output is never longer than the input |
| Rebuild.RebuiltUnchanged | twitter_fetcher.py:238-260 | when no record's id is merged, the output is the input |
| Rebuild.RebuiltThreads | twitter_fetcher.py:240-256 | a merged output record comes exactly from the first record of a recorded thread. It copies that record, with the texts joined by `"\n---\n"`, the thread length, and the root's url |
| Rebuild.RebuiltThreadUrls | twitter_fetcher.py:247-255 | every merged record carries the url of a used root |
| Rebuild.RebuiltDistinct | twitter_fetcher.py:247-248 | no two merged records carry the same url: each thread yields at most one |
| Posts.UrlRoundTrip | twitter_fetcher.py:239 | for urls built as at line 113, the id taken from a record's url (after its last '/') is the post id iff the id holds no '/' |
| Posts.UrlInjective | twitter_fetcher.py:113 | different ids of one account give different urls |
| Text.ContainsIff | twitter_fetcher.py:132 | the substring test holds iff the text occurs at some position |
| Text.JoinLength | twitter_fetcher.py:249 | the joined text's length is the parts' total plus one separator between each pair, and it starts with the first part |
| Text.TakeIsPrefix | llm_summarizer.py:167 | cutting to `n` characters gives a prefix of length `min(n, len)` |
| Text.NatToStringRoundTrip | llm_summarizer.py:39-43 | a number renders as a non-empty digit string, without a leading zero, that reads back as the number |
| Text.LexLeTotal | twitter_fetcher.py:281 | the string order used by the sort is total |
| Text.LexLeTransitive | twitter_fetcher.py:281 | the string order is transitive |
| Text.LexLeAntisymmetric | twitter_fetcher.py:281 | the string order is antisymmetric |
| Sorting.SortByKeySorted | twitter_fetcher.py:281 | the sort by key yields a sorted permutation that keeps the relative order of equal keys |
| Sorting.InsertSorted | twitter_fetcher.py:281 | inserting into a sorted sequence keeps it sorted |
| Sorting.InsertPermutes | twitter_fetcher.py:281 | insertion adds exactly the inserted element |
| Sorting.InsertStable | twitter_fetcher.py:281 | insertion places the new element after every element with the same key |
| Summarizer.GroupByUser | llm_summarizer.py:28-33 | the dictionary's keys are the accounts in first-appearance order, and each account maps to its records in input order |
| Summarizer.UsersDistinct | llm_summarizer.py:28-33 | no account is listed twice |
| Summarizer.UsersPosted | llm_summarizer.py:28-33 | an account is listed iff some record belongs to it |
| Summarizer.OfNonEmpty | llm_summarizer.py:31-33 | an account's group is non-empty iff the account is listed |
| Summarizer.OfMembers | llm_summarizer.py:29-33 | a record is in an account's group iff it is an input record of that account |
| Summarizer.GroupsPartition | llm_summarizer.py:28-33 | the group sizes add up to the number of records: every record lands in exactly one group |
| Summarizer.CreatePrompt | llm_summarizer.py:25-43 | the rendered listing is `Listing`: one section per account in first-appearance order, each with its records numbered from 1 |
| Summarizer.ListSections | llm_summarizer.py:36-43 | the loop over the accounts renders their sections in order |
| Summarizer.AppendSection | llm_summarizer.py:38-43 | an account's section is its header followed by its numbered entries |
| Summarizer.AppendEntries | llm_summarizer.py:39-43 | each record renders one entry line (number, thread tag iff a thread, time, text) and one metrics line (likes, reposts, url), numbered from 1 in order |
| Summarizer.ListingShowsEveryPost | llm_summarizer.py:35-43 | every listed account's header, and every record as the `j + 1`-th entry of its account, occur in the listing |
| Summarizer.CreateFallbackSummary | llm_summarizer.py:153-170 | the digest is `FallbackSummary`: the header with the record count, then each account's section in first-appearance order |
| Summarizer.DigestBody | llm_summarizer.py:164-168 | the loop over the accounts renders their digest sections in order |
| Summarizer.AppendDigest | llm_summarizer.py:165-168 | an account's digest is its heading followed by bullets for at most its first three records |
| Summarizer.AppendBullets | llm_summarizer.py:166-168 | each shown record renders its text cut to 200 characters and its url |
| Summarizer.FallbackShowsFirstThree | llm_summarizer.py:153-168 | the digest starts with the header giving the record count; each of an account's first three records appears as a bullet; no bullet shows more than 200 characters of text, and what it shows is a prefix of the text |
| Summarizer.Summarize | llm_summarizer.py:81-89 | the fixed "no tweets" report is returned iff the input is empty; otherwise the model is asked with the listing |

## Left out

- The remote client library: loading cookies, user and timeline lookup, thread lookup and the following list. Each fetch attempt and each thread lookup is an answer of the `Remote` oracle.
- `init`, `get_following` and `get_stats`: foreign calls and a plain getter.
- Concurrency: the semaphore and `gather` of `fetch_multiple_accounts`. Accounts are fetched one after another. The result order is by account index, which is what the source guarantees whatever the completion order.
- Time passing: every `asyncio.sleep` becomes one entry of the `waits` sequence.
- The clock and the calendar:
  - `datetime.now` becomes the `now` parameter, in epoch seconds.
  - Parsing `created_at` with `strptime` (both formats) becomes the post's `time` field, or None when parsing fails.
  - The UTC+8 `strftime` display becomes the `show` parameter.
- The thread sort key is the raw `created_at` text ("" when absent), compared as Python compares strings. When the source's `created_at` values are datetime objects mixed with "", Python's sort raises `TypeError`.
- Exceptions raised inside `_merge_threads` are not modelled: merging never fails. In the source such an exception is handled like a failed fetch. An example is the `TypeError` of the fallback sort, which escapes the handler at twitter_fetcher.py:213-215. Then `filtered_old_tweets` stays grown, and so does `threads_detected` for every root recorded before the exception. A rate-limit message even leads to a retry that counts them again.
- ReplyChains.CollectRoots / Fetcher.TwitterFetcher.HydrateThreads: `root_ids` is a Python set, iterated in hash order. The model iterates the roots in first-discovery order instead. Which roots get a lookup differs once `maxThreadFetches` binds, and so do the threads that are recorded. The hydration lemmas (`HydrateBudget`, `HydrateRecords`, `HydrateDetected`) hold for any duplicate-free order; `Merge` and `MergeTexts` are stated for this one.
- `count` is only passed on to the timeline oracle; how many posts the client returns for it is not modelled.
- A thread lookup whose reply has no `thread` attribute, or whose posts lack a `text`, is modelled as an empty thread (`Thread([])`).
- Output records always carry `created_at`. A merged record's `is_thread = True` and `thread_length = n` are one field, `threadLength == Some(n)`. Ordinary records carry None.
- Summarizer.Summarize: for a non-empty input the model stops at the prompt it would send (`AskModel`). The Anthropic API call, its continuation loop and its error reports are not modelled.
- The fixed prompt template around the listing (llm_summarizer.py:45-78) is constant text and is not modelled.
- Logging everywhere.
- `email_sender.py` and `main.py` are not part of this model.
