/**
 * The data the fetcher works on: raw posts as the remote client returns them,
 * the post records the fetcher produces, the answers of the remote client
 * (an oracle), the fetcher's settings and its run statistics.
 */
module Posts {
  import opened Wrappers
  import opened Text

  /** Post ids are strings, as the remote client gives them. */
  type Id = string

  /**
   * A post as the remote client returns it. Python's falsy values are
   * modelled by "": `replyToId` is "" when the post replies to nothing, and
   * `replyToUserId` is "" when the post's legacy metadata names no reply
   * target author. `createdAt` is the raw creation time text ("" when
   * absent); `time` is what parsing it yields, in epoch seconds, or None when
   * it is absent or in no accepted format.
   */
  datatype RawPost = RawPost(
    id: Id,
    userId: string,
    text: string,
    createdAt: string,
    time: Option<int>,
    likes: int,
    retweets: int,
    isRetweet: bool,
    replyToId: Id,
    replyToUserId: string)

  /**
   * The record the fetcher outputs for one post. `threadLength` is None for
   * an ordinary post; a merged thread carries `Some(n)`, which stands for
   * both `is_thread = True` and `thread_length = n`.
   */
  datatype Post = Post(
    username: string,
    text: string,
    createdAt: string,
    likes: int,
    retweets: int,
    url: string,
    threadLength: Option<nat>)

  predicate IsThread(p: Post)
  {
    p.threadLength.Some?
  }

  /** The permalink of post `id` of account `username`. */
  function Url(username: string, id: Id): string
  {
    "https://twitter.com/" + username + "/status/" + id
  }

  /** The id recovered from a record's url: the text after its last '/'. */
  function UrlId(p: Post): Id
  {
    LastSegment(p.url)
  }

  /** The url's last segment gives the id back exactly when the id holds no '/'. */
  lemma UrlRoundTrip(username: string, id: Id)
    ensures LastSegment(Url(username, id)) == id <==> '/' !in id
  {
    LastSegmentAfterSlash("https://twitter.com/" + username + "/status", id);
    assert Url(username, id) == "https://twitter.com/" + username + "/status" + "/" + id;
  }

  /** Different ids of one account give different urls. */
  lemma UrlInjective(username: string, a: Id, b: Id)
    requires Url(username, a) == Url(username, b)
    ensures a == b
  {
    var p := "https://twitter.com/" + username + "/status/";
    assert Url(username, a) == p + a && Url(username, b) == p + b;
    assert a == (p + a)[|p|..] && b == (p + b)[|p|..];
  }

  /** The outcome of one attempt to fetch an account's timeline. */
  datatype FetchOutcome = Fetched(posts: seq<RawPost>) | FetchFailed(message: string)

  /**
   * The outcome of looking a root post up: the texts of the thread the
   * client attaches to it (empty when it attaches none), or a failure.
   */
  datatype LookupOutcome = Thread(texts: seq<string>) | LookupFailed(message: string)

  /**
   * The remote client, as an oracle: the outcome of the attempt numbered
   * `attempt` to fetch `count` posts of an account, and the outcome of
   * looking up a root post by id.
   */
  datatype Remote = Remote(
    timeline: (string, int, nat) -> FetchOutcome,
    lookup: Id -> LookupOutcome)

  /** The fetcher's settings. */
  datatype Config = Config(
    requestDelay: int,
    retryOnRateLimit: bool,
    maxRetries: int,
    maxTweetAgeHours: int,
    enableThreadMerging: bool,
    maxThreadFetches: int)

  /** The run statistics (the fetcher's `stats` dictionary). */
  datatype Stats = Stats(
    totalAccounts: int,
    successfulAccounts: nat,
    failedAccounts: nat,
    totalTweets: nat,
    filteredOldTweets: nat,
    threadsDetected: nat,
    errors: seq<string>)

  const InitialStats: Stats := Stats(0, 0, 0, 0, 0, 0, [])
}
