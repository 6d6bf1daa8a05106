/**
 * The post fetcher: it fetches the recent posts of each account, retrying
 * after rate limiting, filters them by age, merges self-reply threads and
 * keeps run statistics. The remote client is an oracle (`Remote`), the
 * clock is a parameter and every pause the fetcher makes is recorded, in
 * order, in place of time passing.
 */
module Fetcher {
  import opened Wrappers
  import opened Text
  import opened Posts
  import opened OrderedDicts
  import opened Sorting
  import opened AgeFilter
  import opened ReplyChains
  import opened Hydration
  import opened Rebuild

  /** What thread merging yields: the records, `thread_texts`, the detection counter and the pauses. */
  datatype Merged = Merged(results: seq<Post>, texts: map<Id, seq<string>>, detected: nat, waits: seq<int>)

  /** Thread merging of the records `results` built from the fetched batch `raw`. */
  function Merge(username: string, results: seq<Post>, raw: seq<RawPost>, lookup: Id -> LookupOutcome,
                 cfg: Config, detected: nat, waits: seq<int>): Merged
  {
    var tweetMap := TweetMap(raw);
    var edges := Edges(raw, tweetMap);
    if edges.entries.Keys == {} then Merged(results, map[], detected, waits)
    else
      KeysMapped(edges);
      var h := HydrateFrom(RootOrder(edges.keys, edges.entries), 0, Hydrated(map[], 0, detected, waits),
                           BatchFallback(Batch(tweetMap, edges)), lookup, cfg.requestDelay, cfg.maxThreadFetches);
      if h.texts == map[] then Merged(results, h.texts, h.detected, h.waits)
      else
        var t := Threads(username, MergedIds(edges.entries, h.texts.Keys), edges.entries, h.texts);
        Merged(Rebuilt(results, t), h.texts, h.detected, h.waits)
  }

  /** Merging happens only when enabled and when some record was kept; otherwise the records pass through. */
  function MergeIfEnabled(username: string, kept: seq<Post>, raw: seq<RawPost>, lookup: Id -> LookupOutcome,
                          cfg: Config, detected: nat, waits: seq<int>): Merged
  {
    if cfg.enableThreadMerging && kept != [] then Merge(username, kept, raw, lookup, cfg, detected, waits)
    else Merged(kept, map[], detected, waits)
  }

  /** The threads the rebuild consults once merging has recorded `texts`. */
  function ThreadsOf(username: string, raw: seq<RawPost>, texts: map<Id, seq<string>>): Threads
  {
    var edges := Edges(raw, TweetMap(raw));
    Threads(username, MergedIds(edges.entries, texts.Keys), edges.entries, texts)
  }

  /**
   * The two early returns (no self-reply, no thread recorded) give what the
   * full rebuild would give, so merging always yields the rebuild of the
   * records against the recorded threads.
   */
  lemma MergeIsRebuild(username: string, results: seq<Post>, raw: seq<RawPost>, lookup: Id -> LookupOutcome,
                       cfg: Config, detected: nat, waits: seq<int>)
    ensures var m := Merge(username, results, raw, lookup, cfg, detected, waits);
      m.results == Rebuilt(results, ThreadsOf(username, raw, m.texts))
  {
    var m := Merge(username, results, raw, lookup, cfg, detected, waits);
    if m.texts == map[] {
      var t := ThreadsOf(username, raw, m.texts);
      assert t.merged == {};
      RebuiltUnchanged(results, t);
    }
  }

  /**
   * Merging one account looks up at most `max_thread_fetches` roots (none
   * when that is not positive), pauses `request_delay` after each lookup and
   * nowhere else, and raises the detection counter by the number of threads
   * it records.
   */
  lemma MergeBudget(username: string, results: seq<Post>, raw: seq<RawPost>, lookup: Id -> LookupOutcome,
                    cfg: Config, detected: nat, waits: seq<int>)
    ensures var m := Merge(username, results, raw, lookup, cfg, detected, waits);
      && |waits| <= |m.waits| <= |waits| + (if cfg.maxThreadFetches > 0 then cfg.maxThreadFetches else 0)
      && m.waits == waits + Pauses(|m.waits| - |waits|, cfg.requestDelay)
      && m.detected == detected + |m.texts|
    ensures var m := Merge(username, results, raw, lookup, cfg, detected, waits);
      var edges := Edges(raw, TweetMap(raw));
      && (forall i :: 0 <= i < |edges.keys| ==> edges.keys[i] in edges.entries)
      && |m.waits| - |waits|
         == if edges.entries.Keys == {} then 0
            else
              var roots := RootOrder(edges.keys, edges.entries);
              Answered(roots[..Processed(roots, 0, 0, lookup, cfg.maxThreadFetches)], lookup)
  {
    var tweetMap := TweetMap(raw);
    var edges := Edges(raw, tweetMap);
    KeysMapped(edges);
    if edges.entries.Keys != {} {
      var roots := RootOrder(edges.keys, edges.entries);
      var h0 := Hydrated(map[], 0, detected, waits);
      var fallback := BatchFallback(Batch(tweetMap, edges));
      RootOrderRoots(edges.keys, edges.entries);
      HydrateBudget(roots, 0, h0, fallback, lookup, cfg.requestDelay, cfg.maxThreadFetches);
      HydrateDetected(roots, 0, h0, fallback, lookup, cfg.requestDelay, cfg.maxThreadFetches);
      assert roots[0..Processed(roots, 0, 0, lookup, cfg.maxThreadFetches)]
          == roots[..Processed(roots, 0, 0, lookup, cfg.maxThreadFetches)];
    } else {
      assert waits + Pauses(0, cfg.requestDelay) == waits;
    }
  }

  /**
   * The threads merging records: exactly the roots it got to before the
   * lookup budget ran out whose remote thread is non-empty or whose batch
   * chain has two posts or more. Each is the root of some self-reply of the
   * batch, and gets the remote texts when there are any, else the texts of
   * the batch chain.
   */
  lemma MergeTexts(username: string, results: seq<Post>, raw: seq<RawPost>, lookup: Id -> LookupOutcome,
                   cfg: Config, detected: nat, waits: seq<int>)
    ensures var m := Merge(username, results, raw, lookup, cfg, detected, waits);
      var tweetMap := TweetMap(raw);
      var edges := Edges(raw, tweetMap);
      var fallback := BatchFallback(Batch(tweetMap, edges));
      && (forall i :: 0 <= i < |edges.keys| ==> edges.keys[i] in edges.entries)
      && (forall r :: r in m.texts <==>
            var roots := RootOrder(edges.keys, edges.entries);
            r in roots[..Processed(roots, 0, 0, lookup, cfg.maxThreadFetches)] && Recorded(r, fallback, lookup).Some?)
      && (forall r :: r in m.texts ==>
            && (exists c :: c in edges.entries && RootOf(edges.entries, c) == r)
            && m.texts[r] == Recorded(r, fallback, lookup).value)
  {
    var tweetMap := TweetMap(raw);
    var edges := Edges(raw, tweetMap);
    KeysMapped(edges);
    var roots := RootOrder(edges.keys, edges.entries);
    var h0 := Hydrated(map[], 0, detected, waits);
    var fallback := BatchFallback(Batch(tweetMap, edges));
    RootOrderRoots(edges.keys, edges.entries);
    HydrateRecords(roots, 0, h0, fallback, lookup, cfg.requestDelay, cfg.maxThreadFetches);
    var k := Processed(roots, 0, 0, lookup, cfg.maxThreadFetches);
    forall r | r in roots[..k] ensures exists c :: c in edges.entries && RootOf(edges.entries, c) == r {
      assert r in roots;
      var i :| 0 <= i < |edges.keys| && RootOf(edges.entries, edges.keys[i]) == r;
    }
    assert roots[0..k] == roots[..k];
  }

  /** Whether an error message reports rate limiting. */
  predicate IsRateLimit(message: string)
  {
    Contains(message, "429") || Contains(message, "Rate limit")
  }

  predicate RateLimited(o: FetchOutcome)
  {
    o.FetchFailed? && IsRateLimit(o.message)
  }

  /** The oldest creation time a post may have and be kept, `now` minus the age limit. */
  function Cutoff(now: int, cfg: Config): int
  {
    now - cfg.maxTweetAgeHours * 3600
  }

  /** What fetching one account yields: its records, and the statistics and pauses afterwards. */
  datatype Account = Account(results: seq<Post>, stats: Stats, waits: seq<int>)

  /** The attempt loop of fetching one account, from attempt `attempt` on. */
  function AccountFrom(username: string, count: int, attempt: nat, cutoff: int, show: int -> string,
                       remote: Remote, cfg: Config, stats: Stats, waits: seq<int>): Account
    decreases if attempt <= cfg.maxRetries then cfg.maxRetries + 1 - attempt else 0
  {
    if attempt > cfg.maxRetries then Account([], stats, waits)
    else
      match remote.timeline(username, count, attempt)
      case Fetched(raw) =>
        var kept := Kept(username, raw, cutoff, show);
        var st := stats.(filteredOldTweets := stats.filteredOldTweets + OldCount(raw, cutoff));
        var m := MergeIfEnabled(username, kept, raw, remote.lookup, cfg, st.threadsDetected, waits);
        Account(m.results,
                st.(threadsDetected := m.detected,
                    successfulAccounts := st.successfulAccounts + 1,
                    totalTweets := st.totalTweets + |m.results|),
                m.waits)
      case FetchFailed(message) =>
        if IsRateLimit(message) && cfg.retryOnRateLimit && attempt < cfg.maxRetries then
          AccountFrom(username, count, attempt + 1, cutoff, show, remote, cfg, stats, waits + [(attempt + 1) * 30])
        else
          Account([], stats.(failedAccounts := stats.failedAccounts + 1,
                             errors := stats.errors + ["@" + username + ": " + message]), waits)
  }

  /** How many times the loop retries after attempt `attempt`: once per rate-limited attempt while retries remain. */
  function Retries(username: string, count: int, attempt: nat, remote: Remote, cfg: Config): nat
    decreases if attempt < cfg.maxRetries then cfg.maxRetries - attempt else 0
  {
    if attempt < cfg.maxRetries && cfg.retryOnRateLimit && RateLimited(remote.timeline(username, count, attempt))
    then 1 + Retries(username, count, attempt + 1, remote, cfg)
    else 0
  }

  /** The pauses before the retries after attempt `first`: 30 seconds times the number of the attempt that failed. */
  function Backoff(first: nat, n: nat): seq<int>
    decreases n
  {
    if n == 0 then [] else [(first + 1) * 30] + Backoff(first + 1, n - 1)
  }

  /**
   * Retrying: from attempt `attempt`, the loop retries `n` times, only when
   * retrying is enabled and only after rate-limited attempts, pausing 30, 60,
   * 90, ... seconds, and never beyond attempt `max_retries`; the outcome is
   * then decided by attempt `attempt + n`, which is not retried.
   */
  lemma {:induction false} AccountRetries(username: string, count: int, attempt: nat, cutoff: int, show: int -> string,
                                          remote: Remote, cfg: Config, stats: Stats, waits: seq<int>)
    requires attempt <= cfg.maxRetries
    ensures var n := Retries(username, count, attempt, remote, cfg);
      && attempt + n <= cfg.maxRetries
      && (n > 0 ==> cfg.retryOnRateLimit)
      && (forall j :: attempt <= j < attempt + n ==> RateLimited(remote.timeline(username, count, j)))
      && |Backoff(attempt, n)| == n
      && (forall j :: 0 <= j < n ==> Backoff(attempt, n)[j] == (attempt + j + 1) * 30)
      && AccountFrom(username, count, attempt, cutoff, show, remote, cfg, stats, waits)
         == AccountFrom(username, count, attempt + n, cutoff, show, remote, cfg, stats, waits + Backoff(attempt, n))
      && !(attempt + n < cfg.maxRetries && cfg.retryOnRateLimit
           && RateLimited(remote.timeline(username, count, attempt + n)))
    decreases cfg.maxRetries - attempt
  {
    var n := Retries(username, count, attempt, remote, cfg);
    if n > 0 {
      var w := waits + [(attempt + 1) * 30];
      AccountRetries(username, count, attempt + 1, cutoff, show, remote, cfg, stats, w);
      assert w + Backoff(attempt + 1, n - 1) == waits + Backoff(attempt, n);
      forall j | 0 <= j < n ensures Backoff(attempt, n)[j] == (attempt + j + 1) * 30 {
        if j > 0 {
          assert Backoff(attempt, n)[j] == Backoff(attempt + 1, n - 1)[j - 1];
        }
      }
    } else {
      assert waits + Backoff(attempt, 0) == waits;
    }
  }

  /**
   * The counters after a successful fetch: one more success, `|results|`
   * more posts, `filtered` more old posts, `detected` more threads, no new
   * error.
   */
  predicate Succeeded(before: Stats, after: Stats, results: seq<Post>, filtered: nat, detected: nat)
  {
    after == before.(successfulAccounts := before.successfulAccounts + 1,
                     totalTweets := before.totalTweets + |results|,
                     filteredOldTweets := before.filteredOldTweets + filtered,
                     threadsDetected := before.threadsDetected + detected)
  }

  /** The threads merging records for the posts `raw` fetched for `username`, when merging runs. */
  function RecordedThreads(username: string, raw: seq<RawPost>, cutoff: int, show: int -> string,
                           lookup: Id -> LookupOutcome, cfg: Config, detected: nat, waits: seq<int>): nat
  {
    |MergeIfEnabled(username, Kept(username, raw, cutoff, show), raw, lookup, cfg, detected, waits).texts|
  }

  /** The counters after a failed fetch: one more failure and its message, nothing else. */
  predicate FailedWith(before: Stats, after: Stats, username: string, message: string)
  {
    after == before.(failedAccounts := before.failedAccounts + 1,
                     errors := before.errors + ["@" + username + ": " + message])
  }

  /** The account after a fetched attempt: its filtered and merged records, counted as a success. */
  lemma FetchedAccount(username: string, count: int, attempt: nat, cutoff: int, show: int -> string,
                       remote: Remote, cfg: Config, stats: Stats, waits: seq<int>)
    requires attempt <= cfg.maxRetries && remote.timeline(username, count, attempt).Fetched?
    ensures var raw := remote.timeline(username, count, attempt).posts;
      var st := stats.(filteredOldTweets := stats.filteredOldTweets + OldCount(raw, cutoff));
      var m := MergeIfEnabled(username, Kept(username, raw, cutoff, show), raw, remote.lookup, cfg, st.threadsDetected, waits);
      AccountFrom(username, count, attempt, cutoff, show, remote, cfg, stats, waits)
        == Account(m.results,
                   st.(threadsDetected := m.detected,
                       successfulAccounts := st.successfulAccounts + 1,
                       totalTweets := st.totalTweets + |m.results|),
                   m.waits)
  {
  }

  /** A fetched batch counts a success with its old posts and its recorded threads; earlier pauses are kept. */
  lemma FetchedOutcome(username: string, count: int, attempt: nat, cutoff: int, show: int -> string,
                       remote: Remote, cfg: Config, stats: Stats, waits: seq<int>)
    requires attempt <= cfg.maxRetries && remote.timeline(username, count, attempt).Fetched?
    ensures var a := AccountFrom(username, count, attempt, cutoff, show, remote, cfg, stats, waits);
      var raw := remote.timeline(username, count, attempt).posts;
      && Succeeded(stats, a.stats, a.results, OldCount(raw, cutoff),
                   RecordedThreads(username, raw, cutoff, show, remote.lookup, cfg, stats.threadsDetected, waits))
      && |waits| <= |a.waits| && a.waits[..|waits|] == waits
  {
    var a := AccountFrom(username, count, attempt, cutoff, show, remote, cfg, stats, waits);
    var raw := remote.timeline(username, count, attempt).posts;
    var kept := Kept(username, raw, cutoff, show);
    var st := stats.(filteredOldTweets := stats.filteredOldTweets + OldCount(raw, cutoff));
    var m := MergeIfEnabled(username, kept, raw, remote.lookup, cfg, st.threadsDetected, waits);
    FetchedAccount(username, count, attempt, cutoff, show, remote, cfg, stats, waits);
    if cfg.enableThreadMerging && kept != [] {
      MergeBudget(username, kept, raw, remote.lookup, cfg, st.threadsDetected, waits);
    }
    assert m.detected == stats.threadsDetected + |m.texts|;
    assert a.waits[..|waits|] == waits;
  }

  /** A failure that is not retried yields no records and logs that attempt's own message; nothing else changes. */
  lemma FailedOutcome(username: string, count: int, attempt: nat, cutoff: int, show: int -> string,
                      remote: Remote, cfg: Config, stats: Stats, waits: seq<int>)
    requires attempt <= cfg.maxRetries && remote.timeline(username, count, attempt).FetchFailed?
    requires !(attempt < cfg.maxRetries && cfg.retryOnRateLimit && RateLimited(remote.timeline(username, count, attempt)))
    ensures var a := AccountFrom(username, count, attempt, cutoff, show, remote, cfg, stats, waits);
      && a.results == [] && a.waits == waits
      && FailedWith(stats, a.stats, username, remote.timeline(username, count, attempt).message)
  {
  }

  /**
   * The attempt that is not retried decides the outcome. A fetched batch
   * counts a success with its old posts and its recorded threads; a failure
   * yields no records and logs that attempt's own message. Earlier pauses
   * are kept.
   */
  lemma AccountOutcome(username: string, count: int, attempt: nat, cutoff: int, show: int -> string,
                       remote: Remote, cfg: Config, stats: Stats, waits: seq<int>)
    requires attempt <= cfg.maxRetries
    requires !(attempt < cfg.maxRetries && cfg.retryOnRateLimit && RateLimited(remote.timeline(username, count, attempt)))
    ensures var a := AccountFrom(username, count, attempt, cutoff, show, remote, cfg, stats, waits);
      var o := remote.timeline(username, count, attempt);
      && (o.Fetched? ==>
            Succeeded(stats, a.stats, a.results, OldCount(o.posts, cutoff),
                      RecordedThreads(username, o.posts, cutoff, show, remote.lookup, cfg, stats.threadsDetected, waits)))
      && (o.FetchFailed? ==> a.results == [] && FailedWith(stats, a.stats, username, o.message))
      && |waits| <= |a.waits| && a.waits[..|waits|] == waits
  {
    if remote.timeline(username, count, attempt).Fetched? {
      FetchedOutcome(username, count, attempt, cutoff, show, remote, cfg, stats, waits);
    } else {
      FailedOutcome(username, count, attempt, cutoff, show, remote, cfg, stats, waits);
    }
  }

  /** Fetching from attempt 0 is fetching from the first attempt not retried, after the retries' pauses. */
  lemma SkipRetries(username: string, count: int, cutoff: int, show: int -> string,
                    remote: Remote, cfg: Config, stats: Stats, waits: seq<int>)
    requires cfg.maxRetries >= 0
    ensures var n := Retries(username, count, 0, remote, cfg);
      && n <= cfg.maxRetries
      && !(n < cfg.maxRetries && cfg.retryOnRateLimit && RateLimited(remote.timeline(username, count, n)))
      && AccountFrom(username, count, 0, cutoff, show, remote, cfg, stats, waits)
         == AccountFrom(username, count, n, cutoff, show, remote, cfg, stats, waits + Backoff(0, n))
  {
    AccountRetries(username, count, 0, cutoff, show, remote, cfg, stats, waits);
  }

  /**
   * Fetching one account changes exactly one of the success and failure
   * counters, by one, when at least one attempt is allowed, and changes
   * nothing when none is. The outcome is that of the first attempt not
   * retried: a success counting its old posts and recorded threads, or a
   * failure with no records and one error naming the account and that
   * attempt's message. The pauses made before are kept.
   */
  lemma AccountStats(username: string, count: int, cutoff: int, show: int -> string,
                     remote: Remote, cfg: Config, stats: Stats, waits: seq<int>)
    ensures var a := AccountFrom(username, count, 0, cutoff, show, remote, cfg, stats, waits);
      && (cfg.maxRetries < 0 ==> a == Account([], stats, waits))
      && (cfg.maxRetries >= 0 ==>
            var n := Retries(username, count, 0, remote, cfg);
            var o := remote.timeline(username, count, n);
            && (o.Fetched? ==>
                  Succeeded(stats, a.stats, a.results, OldCount(o.posts, cutoff),
                            RecordedThreads(username, o.posts, cutoff, show, remote.lookup, cfg,
                                            stats.threadsDetected, waits + Backoff(0, n))))
            && (o.FetchFailed? ==> a.results == [] && FailedWith(stats, a.stats, username, o.message)))
      && |waits| <= |a.waits| && a.waits[..|waits|] == waits
  {
    if cfg.maxRetries >= 0 {
      var n := Retries(username, count, 0, remote, cfg);
      SkipRetries(username, count, cutoff, show, remote, cfg, stats, waits);
      var w := waits + Backoff(0, n);
      AccountOutcome(username, count, n, cutoff, show, remote, cfg, stats, w);
      var a := AccountFrom(username, count, n, cutoff, show, remote, cfg, stats, w);
      assert a.waits[..|waits|] == a.waits[..|w|][..|waits|];
      assert w[..|waits|] == waits;
    }
  }

  /** The records of all accounts, in account order. */
  function Flatten(xss: seq<seq<Post>>): seq<Post>
    decreases |xss|
  {
    if xss == [] then [] else Flatten(xss[..|xss| - 1]) + xss[|xss| - 1]
  }

  /** What fetching several accounts yields: each account's records, and the statistics and pauses afterwards. */
  datatype Run = Run(perAccount: seq<seq<Post>>, stats: Stats, waits: seq<int>)

  /**
   * The accounts fetched one after another; account `i` is fetched at time
   * `now(i)` and followed by a pause of `request_delay`.
   */
  function FetchAll(usernames: seq<string>, count: int, now: nat -> int, show: int -> string,
                    remote: Remote, cfg: Config, stats: Stats, waits: seq<int>): Run
    decreases |usernames|
  {
    if usernames == [] then Run([], stats, waits)
    else
      var i := |usernames| - 1;
      var prior := FetchAll(usernames[..i], count, now, show, remote, cfg, stats, waits);
      var a := AccountFrom(usernames[i], count, 0, Cutoff(now(i), cfg), show, remote, cfg, prior.stats, prior.waits);
      Run(prior.perAccount + [a.results], a.stats, a.waits + [cfg.requestDelay])
  }

  lemma FetchAllStep(usernames: seq<string>, i: nat, count: int, now: nat -> int, show: int -> string,
                     remote: Remote, cfg: Config, stats: Stats, waits: seq<int>)
    requires i < |usernames|
    ensures var prior := FetchAll(usernames[..i], count, now, show, remote, cfg, stats, waits);
      var a := AccountFrom(usernames[i], count, 0, Cutoff(now(i), cfg), show, remote, cfg, prior.stats, prior.waits);
      FetchAll(usernames[..i + 1], count, now, show, remote, cfg, stats, waits)
        == Run(prior.perAccount + [a.results], a.stats, a.waits + [cfg.requestDelay])
  {
    assert usernames[..i + 1][..i] == usernames[..i];
  }

  /** One account counted: one more success or one more failure, one error per failure, its records added to the total. */
  predicate Counted(before: Stats, after: Stats, results: seq<Post>)
  {
    && after.totalAccounts == before.totalAccounts
    && after.successfulAccounts + after.failedAccounts == before.successfulAccounts + before.failedAccounts + 1
    && after.failedAccounts >= before.failedAccounts
    && |after.errors| == |before.errors| + (after.failedAccounts - before.failedAccounts)
    && after.totalTweets == before.totalTweets + |results|
  }

  lemma AccountCounted(username: string, count: int, cutoff: int, show: int -> string,
                       remote: Remote, cfg: Config, stats: Stats, waits: seq<int>)
    requires cfg.maxRetries >= 0
    ensures var a := AccountFrom(username, count, 0, cutoff, show, remote, cfg, stats, waits);
      Counted(stats, a.stats, a.results)
  {
    AccountStats(username, count, cutoff, show, remote, cfg, stats, waits);
  }

  /**
   * Fetching several accounts yields one list of records per account; when
   * every account gets at least one attempt, each account counts once as a
   * success or a failure, every failure logs one error, and the post counter
   * grows by the number of records returned.
   */
  lemma {:induction false} FetchAllStats(usernames: seq<string>, count: int, now: nat -> int, show: int -> string,
                                         remote: Remote, cfg: Config, stats: Stats, waits: seq<int>)
    requires cfg.maxRetries >= 0
    ensures var run := FetchAll(usernames, count, now, show, remote, cfg, stats, waits);
      && |run.perAccount| == |usernames|
      && run.stats.totalAccounts == stats.totalAccounts
      && run.stats.successfulAccounts + run.stats.failedAccounts
         == stats.successfulAccounts + stats.failedAccounts + |usernames|
      && run.stats.failedAccounts >= stats.failedAccounts
      && |run.stats.errors| == |stats.errors| + (run.stats.failedAccounts - stats.failedAccounts)
      && run.stats.totalTweets == stats.totalTweets + |Flatten(run.perAccount)|
    decreases |usernames|
  {
    if usernames != [] {
      var i := |usernames| - 1;
      var prior := FetchAll(usernames[..i], count, now, show, remote, cfg, stats, waits);
      FetchAllStats(usernames[..i], count, now, show, remote, cfg, stats, waits);
      var a := AccountFrom(usernames[i], count, 0, Cutoff(now(i), cfg), show, remote, cfg, prior.stats, prior.waits);
      AccountCounted(usernames[i], count, Cutoff(now(i), cfg), show, remote, cfg, prior.stats, prior.waits);
      var run := FetchAll(usernames, count, now, show, remote, cfg, stats, waits);
      assert run == Run(prior.perAccount + [a.results], a.stats, a.waits + [cfg.requestDelay]);
      assert run.perAccount[..i] == prior.perAccount;
      assert Flatten(run.perAccount) == Flatten(prior.perAccount) + a.results;
    }
  }


  /** The fetcher: its settings, its statistics, and the pauses it has made so far. */
  class TwitterFetcher {
    const config: Config
    var stats: Stats
    var waits: seq<int>

    constructor(config: Config)
      ensures this.config == config && stats == InitialStats && waits == []
    {
      this.config := config;
      stats := InitialStats;
      waits := [];
    }

    /** `_fallback_thread_from_batch`: records the batch chain of `rootId`, if it has two posts or more. */
    method FallbackThreadFromBatch(rootId: Id, tweetMap: map<Id, RawPost>, replyToParent: Dict<Id, Id>,
                                   threadTexts: map<Id, seq<string>>)
      returns (newTexts: map<Id, seq<string>>)
      requires replyToParent.Valid()
      modifies this`stats
      ensures match FallbackTexts(rootId, Batch(tweetMap, replyToParent))
        case Some(ts) =>
          newTexts == threadTexts[rootId := ts]
          && stats == old(stats).(threadsDetected := old(stats.threadsDetected) + 1)
        case None => newTexts == threadTexts && stats == old(stats)
    {
      var chain := CollectBatchChain(rootId, tweetMap, replyToParent);
      newTexts := threadTexts;
      if |chain| > 1 {
        var sorted := SortByKey(chain, CreatedKey);
        var texts := TextsOf(sorted);
        FallbackFromBatch(rootId, Batch(tweetMap, replyToParent));
        if texts != [] {
          newTexts := threadTexts[rootId := texts];
          stats := stats.(threadsDetected := stats.threadsDetected + 1);
        }
      }
    }

    /** The loop that looks the roots up, within the lookup budget, and records their threads. */
    method HydrateThreads(rootIds: seq<Id>, tweetMap: map<Id, RawPost>, replyToParent: Dict<Id, Id>,
                          lookup: Id -> LookupOutcome)
      returns (threadTexts: map<Id, seq<string>>)
      requires replyToParent.Valid()
      modifies this`stats, this`waits
      ensures var h := HydrateFrom(rootIds, 0, Hydrated(map[], 0, old(stats.threadsDetected), old(waits)),
                                   BatchFallback(Batch(tweetMap, replyToParent)), lookup,
                                   config.requestDelay, config.maxThreadFetches);
        threadTexts == h.texts && stats == old(stats).(threadsDetected := h.detected) && waits == h.waits
    {
      var fallback := BatchFallback(Batch(tweetMap, replyToParent));
      threadTexts := map[];
      var threadFetches := 0;
      var i := 0;
      while i < |rootIds|
        invariant 0 <= i <= |rootIds|
        invariant stats == old(stats).(threadsDetected := stats.threadsDetected)
        invariant HydrateFrom(rootIds, i, Hydrated(threadTexts, threadFetches, stats.threadsDetected, waits),
                              fallback, lookup, config.requestDelay, config.maxThreadFetches)
               == HydrateFrom(rootIds, 0, Hydrated(map[], 0, old(stats.threadsDetected), old(waits)),
                              fallback, lookup, config.requestDelay, config.maxThreadFetches)
      {
        if threadFetches >= config.maxThreadFetches {
          break;
        }
        threadTexts, threadFetches := HydrateRoot(rootIds[i], tweetMap, replyToParent, lookup, threadTexts, threadFetches);
        i := i + 1;
      }
    }

    /** One round of the hydration loop, for `rootId`: the remote lookup, then the fallback when it yields nothing. */
    method HydrateRoot(rootId: Id, tweetMap: map<Id, RawPost>, replyToParent: Dict<Id, Id>,
                       lookup: Id -> LookupOutcome, threadTexts: map<Id, seq<string>>, threadFetches: int)
      returns (newTexts: map<Id, seq<string>>, newFetches: int)
      requires replyToParent.Valid()
      modifies this`stats, this`waits
      ensures Hydrated(newTexts, newFetches, stats.threadsDetected, waits)
        == LookupStep(Hydrated(threadTexts, threadFetches, old(stats.threadsDetected), old(waits)), rootId,
                      BatchFallback(Batch(tweetMap, replyToParent)), lookup, config.requestDelay)
      ensures stats == old(stats).(threadsDetected := stats.threadsDetected)
    {
      assert BatchFallback(Batch(tweetMap, replyToParent))(rootId) == FallbackTexts(rootId, Batch(tweetMap, replyToParent));
      newTexts, newFetches := threadTexts, threadFetches;
      var rootTweet := lookup(rootId);
      if rootTweet.Thread? {
        newFetches := newFetches + 1;
        waits := waits + [config.requestDelay];
        if rootTweet.texts != [] {
          newTexts := newTexts[rootId := rootTweet.texts];
          stats := stats.(threadsDetected := stats.threadsDetected + 1);
        } else {
          newTexts := FallbackThreadFromBatch(rootId, tweetMap, replyToParent, newTexts);
        }
      } else {
        newTexts := FallbackThreadFromBatch(rootId, tweetMap, replyToParent, newTexts);
      }
    }

    /**
     * A successful attempt of `get_user_tweets`: keeps the recent posts,
     * counts the old ones, merges threads when enabled and counts the
     * account as a success.
     */
    method KeepFetched(username: string, count: int, attempt: nat, cutoff: int, show: int -> string, remote: Remote)
      returns (results: seq<Post>)
      requires attempt <= config.maxRetries && remote.timeline(username, count, attempt).Fetched?
      modifies this`stats, this`waits
      ensures var a := AccountFrom(username, count, attempt, cutoff, show, remote, config, old(stats), old(waits));
        results == a.results && stats == a.stats && waits == a.waits
    {
      ghost var a := AccountFrom(username, count, attempt, cutoff, show, remote, config, stats, waits);
      var tweets := remote.timeline(username, count, attempt).posts;
      var filteredCount;
      results, filteredCount := FilterByAge(username, tweets, cutoff, show);
      if filteredCount > 0 {
        stats := stats.(filteredOldTweets := stats.filteredOldTweets + filteredCount);
      }
      ghost var st, w := stats, waits;
      ghost var m := MergeIfEnabled(username, results, tweets, remote.lookup, config, st.threadsDetected, w);
      assert a == Account(m.results,
                          st.(threadsDetected := m.detected,
                              successfulAccounts := st.successfulAccounts + 1,
                              totalTweets := st.totalTweets + |m.results|),
                          m.waits);
      if config.enableThreadMerging && results != [] {
        results := MergeThreads(username, results, tweets, remote.lookup);
      }
      assert results == m.results && waits == m.waits && stats == st.(threadsDetected := m.detected);
      stats := stats.(successfulAccounts := stats.successfulAccounts + 1,
                      totalTweets := stats.totalTweets + |results|);
    }

    /** `_merge_threads`: detects the account's self-reply threads and merges each into one record. */
    method MergeThreads(username: string, results: seq<Post>, raw: seq<RawPost>, lookup: Id -> LookupOutcome)
      returns (merged: seq<Post>)
      modifies this`stats, this`waits
      ensures var m := Merge(username, results, raw, lookup, config, old(stats.threadsDetected), old(waits));
        merged == m.results && stats == old(stats).(threadsDetected := m.detected) && waits == m.waits
    {
      var tweetMap := BuildTweetMap(raw);
      var selfReplies, replyToParent := BuildReplyEdges(raw, tweetMap);
      if selfReplies == {} {
        return results;
      }
      var rootIds := CollectRoots(replyToParent);
      var threadTexts := HydrateThreads(rootIds, tweetMap, replyToParent, lookup);
      if threadTexts == map[] {
        return results;
      }
      var mergedIds := CollectMergedIds(replyToParent, threadTexts);
      merged := RebuildResults(username, results, mergedIds, replyToParent, threadTexts);
    }

    /**
     * `get_user_tweets`: fetches the account's posts at time `now`, retrying
     * after rate limiting, keeps the recent ones, merges threads and counts
     * the outcome.
     */
    method GetUserTweets(username: string, count: int, now: int, show: int -> string, remote: Remote)
      returns (results: seq<Post>)
      modifies this
      ensures var a := AccountFrom(username, count, 0, Cutoff(now, config), show, remote, config, old(stats), old(waits));
        results == a.results && stats == a.stats && waits == a.waits
    {
      var cutoffDate := now - config.maxTweetAgeHours * 3600;
      var attempt := 0;
      while attempt < config.maxRetries + 1
        invariant AccountFrom(username, count, attempt, cutoffDate, show, remote, config, stats, waits)
               == AccountFrom(username, count, 0, cutoffDate, show, remote, config, old(stats), old(waits))
        decreases config.maxRetries + 1 - attempt
      {
        var outcome := remote.timeline(username, count, attempt);
        if outcome.Fetched? {
          results := KeepFetched(username, count, attempt, cutoffDate, show, remote);
          return;
        }
        var errorMsg := outcome.message;
        var isRateLimit := Contains(errorMsg, "429") || Contains(errorMsg, "Rate limit");
        if isRateLimit && config.retryOnRateLimit && attempt < config.maxRetries {
          var waitTime := (attempt + 1) * 30;
          waits := waits + [waitTime];
          attempt := attempt + 1;
        } else {
          stats := stats.(failedAccounts := stats.failedAccounts + 1,
                          errors := stats.errors + ["@" + username + ": " + errorMsg]);
          return [];
        }
      }
      return [];
    }

    /**
     * `fetch_multiple_accounts`: fetches the accounts one after another
     * (account `i` at time `now(i)`), pausing after each, and returns all
     * their records in account order.
     */
    method FetchMultipleAccounts(usernames: seq<string>, tweetsPerAccount: int, now: nat -> int,
                                 show: int -> string, remote: Remote)
      returns (allTweets: seq<Post>)
      modifies this
      ensures var run := FetchAll(usernames, tweetsPerAccount, now, show, remote, config,
                                  old(stats).(totalAccounts := |usernames|), old(waits));
        allTweets == Flatten(run.perAccount) && stats == run.stats && waits == run.waits
    {
      stats := stats.(totalAccounts := |usernames|);
      var results := new seq<Post>[|usernames|];
      FetchEach(usernames, tweetsPerAccount, now, show, remote, results);
      allTweets := FlattenResults(results);
    }

    /** The account loop of `fetch_multiple_accounts`: account `i` fills `results[i]`, then the delay is awaited. */
    method FetchEach(usernames: seq<string>, tweetsPerAccount: int, now: nat -> int, show: int -> string,
                     remote: Remote, results: array<seq<Post>>)
      requires results.Length == |usernames|
      modifies this, results
      ensures var run := FetchAll(usernames, tweetsPerAccount, now, show, remote, config, old(stats), old(waits));
        results[..] == run.perAccount && stats == run.stats && waits == run.waits
    {
      ghost var stats0, waits0 := stats, waits;
      var i := 0;
      while i < |usernames|
        invariant 0 <= i <= |usernames|
        invariant var run := FetchAll(usernames[..i], tweetsPerAccount, now, show, remote, config, stats0, waits0);
          results[..i] == run.perAccount && stats == run.stats && waits == run.waits
      {
        FetchAllStep(usernames, i, tweetsPerAccount, now, show, remote, config, stats0, waits0);
        var tweets := GetUserTweets(usernames[i], tweetsPerAccount, now(i), show, remote);
        results[i] := tweets;
        waits := waits + [config.requestDelay];
        assert results[..i + 1] == results[..i] + [tweets];
        i := i + 1;
      }
      assert usernames[..|usernames|] == usernames;
      assert results[..] == results[..|usernames|];
    }

    /** The loop that joins the per-account lists, skipping the empty ones. */
    static method FlattenResults(results: array<seq<Post>>) returns (allTweets: seq<Post>)
      ensures allTweets == Flatten(results[..])
    {
      allTweets := [];
      var j := 0;
      while j < results.Length
        invariant 0 <= j <= results.Length
        invariant allTweets == Flatten(results[..j])
      {
        assert results[..j + 1][..j] == results[..j];
        if results[j] != [] {
          allTweets := allTweets + results[j];
        }
        j := j + 1;
      }
      assert results[..results.Length] == results[..];
    }
  }
}
