/**
 * The first half of fetching one account: reposts are skipped, posts whose
 * parsed creation time lies strictly before the cutoff are dropped and
 * counted, and every other post becomes an output record. A post whose time
 * could not be parsed is kept and shows an empty time.
 */
module AgeFilter {
  import opened Wrappers
  import opened Posts

  /** The time shown for a kept post: its parsed time formatted by `show`, or "". */
  function DisplayTime(p: RawPost, show: int -> string): string
  {
    if p.time.Some? then show(p.time.value) else ""
  }

  /** The output record built from a kept raw post of account `username`. */
  function ToRecord(username: string, p: RawPost, show: int -> string): Post
  {
    Post(username, p.text, DisplayTime(p, show), p.likes, p.retweets, Url(username, p.id), None)
  }

  /** A post is old when it has a parsed time strictly before the cutoff. */
  predicate IsOld(p: RawPost, cutoff: int)
  {
    p.time.Some? && p.time.value < cutoff
  }

  predicate Keeps(p: RawPost, cutoff: int)
  {
    !p.isRetweet && !IsOld(p, cutoff)
  }

  /** The records of the kept posts, in fetch order. */
  function Kept(username: string, raw: seq<RawPost>, cutoff: int, show: int -> string): seq<Post>
    decreases |raw|
  {
    if raw == [] then []
    else
      var last := raw[|raw| - 1];
      Kept(username, raw[..|raw| - 1], cutoff, show)
        + (if Keeps(last, cutoff) then [ToRecord(username, last, show)] else [])
  }

  /** How many posts the filter drops for age (reposts are not counted). */
  function OldCount(raw: seq<RawPost>, cutoff: int): nat
    decreases |raw|
  {
    if raw == [] then 0
    else
      var last := raw[|raw| - 1];
      OldCount(raw[..|raw| - 1], cutoff) + (if !last.isRetweet && IsOld(last, cutoff) then 1 else 0)
  }

  function RepostCount(raw: seq<RawPost>): nat
    decreases |raw|
  {
    if raw == [] then 0
    else RepostCount(raw[..|raw| - 1]) + (if raw[|raw| - 1].isRetweet then 1 else 0)
  }

  /**
   * A record is output exactly when it comes from a post that is no repost
   * and not old; every fetched post is output, dropped as old or skipped as
   * a repost, and a kept post without a parsed time shows "".
   */
  lemma {:induction false} KeptIff(username: string, raw: seq<RawPost>, cutoff: int, show: int -> string)
    ensures forall q :: q in Kept(username, raw, cutoff, show) <==>
      exists i :: 0 <= i < |raw| && Keeps(raw[i], cutoff) && q == ToRecord(username, raw[i], show)
    ensures |Kept(username, raw, cutoff, show)| + OldCount(raw, cutoff) + RepostCount(raw) == |raw|
    ensures forall i :: 0 <= i < |raw| && !raw[i].isRetweet && raw[i].time.None? ==>
      ToRecord(username, raw[i], show) in Kept(username, raw, cutoff, show)
      && ToRecord(username, raw[i], show).createdAt == ""
    decreases |raw|
  {
    if raw != [] {
      var init, last := raw[..|raw| - 1], raw[|raw| - 1];
      KeptIff(username, init, cutoff, show);
      assert raw == init + [last];
      forall q ensures q in Kept(username, raw, cutoff, show) <==>
        exists i :: 0 <= i < |raw| && Keeps(raw[i], cutoff) && q == ToRecord(username, raw[i], show)
      {
        if q in Kept(username, raw, cutoff, show) && q !in Kept(username, init, cutoff, show) {
          assert raw[|raw| - 1] == last;
        }
        if exists i :: 0 <= i < |raw| && Keeps(raw[i], cutoff) && q == ToRecord(username, raw[i], show) {
          var i :| 0 <= i < |raw| && Keeps(raw[i], cutoff) && q == ToRecord(username, raw[i], show);
          if i < |raw| - 1 {
            assert init[i] == raw[i];
          }
        }
      }
      forall i | 0 <= i < |raw| && !raw[i].isRetweet && raw[i].time.None?
        ensures ToRecord(username, raw[i], show) in Kept(username, raw, cutoff, show)
      {
        if i < |raw| - 1 {
          assert init[i] == raw[i];
        }
      }
    }
  }

  /**
   * The age-filter loop: returns the records of the kept posts and the
   * number of posts dropped for age.
   */
  method FilterByAge(username: string, raw: seq<RawPost>, cutoff: int, show: int -> string)
    returns (results: seq<Post>, filtered: nat)
    ensures results == Kept(username, raw, cutoff, show)
    ensures filtered == OldCount(raw, cutoff)
  {
    results, filtered := [], 0;
    var i := 0;
    while i < |raw|
      invariant 0 <= i <= |raw|
      invariant results == Kept(username, raw[..i], cutoff, show)
      invariant filtered == OldCount(raw[..i], cutoff)
    {
      var tweet := raw[i];
      assert raw[..i + 1][..i] == raw[..i];
      if !tweet.isRetweet {
        var tweetTime := tweet.time;
        if tweetTime.Some? && tweetTime.value < cutoff {
          filtered := filtered + 1;
        } else {
          var createdAt := if tweetTime.Some? then show(tweetTime.value) else "";
          results := results + [Post(username, tweet.text, createdAt, tweet.likes, tweet.retweets,
                                     Url(username, tweet.id), None)];
        }
      }
      i := i + 1;
    }
    assert raw[..|raw|] == raw;
  }
}
