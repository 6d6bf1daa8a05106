/**
 * The last stage of thread merging: the account's records are rebuilt in
 * order. A record whose id (the last segment of its url) is not part of a
 * recorded thread passes through. The first record met of each recorded
 * thread is replaced by the merged thread: a copy of that record carrying
 * the joined texts, the thread length and the root's url. Every other record
 * of a thread is dropped.
 */
module Rebuild {
  import opened Wrappers
  import opened Text
  import opened Posts
  import opened OrderedDicts
  import opened ReplyChains

  /** What the rebuild consults: the account, `merged_ids`, `reply_to_parent` and `thread_texts`. */
  datatype Threads = Threads(username: string, merged: set<Id>, parent: map<Id, Id>, texts: map<Id, seq<string>>)

  const Separator: string := "\n---\n"

  /** The root a record belongs to, found by walking up from its own id, when that id is merged. */
  function ThreadRoot(p: Post, t: Threads): Option<Id>
  {
    var id := UrlId(p);
    if id in t.merged then Some(Walk(t.parent, id, {})) else None
  }

  /** The merged record of thread `root`, copied from record `p`. */
  function MergedRecord(username: string, p: Post, root: Id, texts: seq<string>): Post
  {
    p.(text := Join(texts, Separator), threadLength := Some(|texts|), url := Url(username, root))
  }

  /** `used_roots` after the records `rs`: the recorded roots they belong to. */
  function UsedBy(rs: seq<Post>, t: Threads): set<Id>
    decreases |rs|
  {
    if rs == [] then {}
    else
      var root := ThreadRoot(rs[|rs| - 1], t);
      UsedBy(rs[..|rs| - 1], t) + (if root.Some? && root.value in t.texts then {root.value} else {})
  }

  /** `new_results` after the records `rs`. */
  function Rebuilt(rs: seq<Post>, t: Threads): seq<Post>
    decreases |rs|
  {
    if rs == [] then []
    else
      var init, p := rs[..|rs| - 1], rs[|rs| - 1];
      Rebuilt(init, t) +
        match ThreadRoot(p, t)
        case None => [p]
        case Some(root) =>
          if root in t.texts && root !in UsedBy(init, t) then [MergedRecord(t.username, p, root, t.texts[root])]
          else []
  }

  /** The records that are not merged threads, in order. */
  function Plain(rs: seq<Post>): seq<Post>
    decreases |rs|
  {
    if rs == [] then []
    else Plain(rs[..|rs| - 1]) + (if IsThread(rs[|rs| - 1]) then [] else [rs[|rs| - 1]])
  }

  /** The records whose id belongs to no recorded thread, in order. */
  function Unmerged(rs: seq<Post>, t: Threads): seq<Post>
    decreases |rs|
  {
    if rs == [] then []
    else Unmerged(rs[..|rs| - 1], t) + (if ThreadRoot(rs[|rs| - 1], t).None? then [rs[|rs| - 1]] else [])
  }

  /** Record `i` is the first of `rs` that belongs to its thread, and that thread is recorded. */
  predicate FirstOfThread(rs: seq<Post>, i: nat, t: Threads)
    requires i < |rs|
  {
    && ThreadRoot(rs[i], t).Some?
    && ThreadRoot(rs[i], t).value in t.texts
    && forall j :: 0 <= j < i ==> ThreadRoot(rs[j], t) != ThreadRoot(rs[i], t)
  }

  lemma {:induction false} UsedByIff(rs: seq<Post>, t: Threads)
    ensures forall r :: r in UsedBy(rs, t) <==>
      r in t.texts && exists j :: 0 <= j < |rs| && ThreadRoot(rs[j], t) == Some(r)
    decreases |rs|
  {
    if rs != [] {
      var init := rs[..|rs| - 1];
      UsedByIff(init, t);
      forall r ensures r in UsedBy(rs, t) <==> r in t.texts && exists j :: 0 <= j < |rs| && ThreadRoot(rs[j], t) == Some(r) {
        if exists j :: 0 <= j < |init| && ThreadRoot(init[j], t) == Some(r) {
          var j :| 0 <= j < |init| && ThreadRoot(init[j], t) == Some(r);
          assert rs[j] == init[j];
        }
        if exists j :: 0 <= j < |rs| && ThreadRoot(rs[j], t) == Some(r) {
          var j :| 0 <= j < |rs| && ThreadRoot(rs[j], t) == Some(r);
          if j < |init| {
            assert init[j] == rs[j];
          }
        }
      }
    }
  }

  /**
   * Given records that are not threads yet, the rebuild keeps every record
   * whose id belongs to no recorded thread, unchanged and in order, and adds
   * nothing else that is not a thread; it never lengthens the list.
   */
  lemma {:induction false} RebuiltPlain(rs: seq<Post>, t: Threads)
    requires forall i :: 0 <= i < |rs| ==> !IsThread(rs[i])
    ensures Plain(Rebuilt(rs, t)) == Unmerged(rs, t)
    ensures |Rebuilt(rs, t)| <= |rs|
    decreases |rs|
  {
    if rs != [] {
      var init, p := rs[..|rs| - 1], rs[|rs| - 1];
      RebuiltPlain(init, t);
      PlainAppend(Rebuilt(init, t), if ThreadRoot(p, t).None? then [p] else Rebuilt(rs, t)[|Rebuilt(init, t)|..]);
      assert Rebuilt(rs, t) == Rebuilt(init, t) + Rebuilt(rs, t)[|Rebuilt(init, t)|..];
    }
  }

  /** Records none of which belongs to a recorded thread pass through the rebuild unchanged. */
  lemma {:induction false} RebuiltUnchanged(rs: seq<Post>, t: Threads)
    requires forall i :: 0 <= i < |rs| ==> UrlId(rs[i]) !in t.merged
    ensures Rebuilt(rs, t) == rs
    decreases |rs|
  {
    if rs != [] {
      RebuiltUnchanged(rs[..|rs| - 1], t);
      assert rs == rs[..|rs| - 1] + [rs[|rs| - 1]];
    }
  }

  lemma {:induction false} PlainAppend(a: seq<Post>, b: seq<Post>)
    ensures Plain(a + b) == Plain(a) + Plain(b)
    decreases |b|
  {
    if b == [] {
      assert a + b == a;
    } else {
      PlainAppend(a, b[..|b| - 1]);
      assert (a + b)[..|a + b| - 1] == a + b[..|b| - 1];
    }
  }

  /** `q` is the merged record the rebuild makes from record `i`, the first of its thread. */
  predicate MergedAt(rs: seq<Post>, i: nat, t: Threads, q: Post)
    requires i < |rs|
  {
    FirstOfThread(rs, i, t)
    && q == MergedRecord(t.username, rs[i], ThreadRoot(rs[i], t).value, t.texts[ThreadRoot(rs[i], t).value])
  }

  lemma FirstOfThreadPrefix(rs: seq<Post>, i: nat, t: Threads)
    requires i < |rs| - 1
    ensures FirstOfThread(rs, i, t) <==> FirstOfThread(rs[..|rs| - 1], i, t)
  {
    assert forall j :: 0 <= j <= i ==> rs[..|rs| - 1][j] == rs[j];
  }

  lemma FirstOfThreadLast(rs: seq<Post>, t: Threads)
    requires rs != []
    ensures FirstOfThread(rs, |rs| - 1, t) <==>
      var root := ThreadRoot(rs[|rs| - 1], t);
      root.Some? && root.value in t.texts && root.value !in UsedBy(rs[..|rs| - 1], t)
  {
    var init := rs[..|rs| - 1];
    UsedByIff(init, t);
    assert forall j :: 0 <= j < |init| ==> init[j] == rs[j];
  }

  /**
   * Given records that are not threads yet, the merged records of the
   * rebuild are exactly one per recorded thread that has a record in `rs`:
   * the copy of the first such record, with the thread's joined texts, its
   * length and the root's url.
   */
  lemma {:induction false} RebuiltThreads(rs: seq<Post>, t: Threads)
    requires forall i :: 0 <= i < |rs| ==> !IsThread(rs[i])
    ensures forall q :: q in Rebuilt(rs, t) && IsThread(q) <==> exists i :: 0 <= i < |rs| && MergedAt(rs, i, t, q)
    decreases |rs|
  {
    if rs != [] {
      var init, p := rs[..|rs| - 1], rs[|rs| - 1];
      var prior := Rebuilt(init, t);
      RebuiltThreads(init, t);
      FirstOfThreadLast(rs, t);
      var tail := Rebuilt(rs, t)[|prior|..];
      assert Rebuilt(rs, t) == prior + tail;
      assert tail == [] || tail == [p] || MergedAt(rs, |rs| - 1, t, tail[0]);
      forall q ensures q in Rebuilt(rs, t) && IsThread(q) <==> exists i :: 0 <= i < |rs| && MergedAt(rs, i, t, q) {
        if q in prior && IsThread(q) {
          var i :| 0 <= i < |init| && MergedAt(init, i, t, q);
          FirstOfThreadPrefix(rs, i, t);
          assert init[i] == rs[i];
          assert MergedAt(rs, i, t, q);
        }
        if exists i :: 0 <= i < |rs| && MergedAt(rs, i, t, q) {
          var i :| 0 <= i < |rs| && MergedAt(rs, i, t, q);
          if i < |init| {
            FirstOfThreadPrefix(rs, i, t);
            assert init[i] == rs[i];
            assert MergedAt(init, i, t, q);
          } else {
            assert tail == [q];
          }
        }
      }
    }
  }

  /** Every merged record of the rebuild carries the url of a root that `rs` used. */
  lemma {:induction false} RebuiltThreadUrls(rs: seq<Post>, t: Threads)
    requires forall i :: 0 <= i < |rs| ==> !IsThread(rs[i])
    ensures forall q :: q in Rebuilt(rs, t) && IsThread(q) ==>
      exists r :: r in UsedBy(rs, t) && q.url == Url(t.username, r)
    decreases |rs|
  {
    if rs != [] {
      var init := rs[..|rs| - 1];
      RebuiltThreadUrls(init, t);
    }
  }

  /** No two merged records of the rebuild share a url: each thread is merged once. */
  lemma {:induction false} RebuiltDistinct(rs: seq<Post>, t: Threads)
    requires forall i :: 0 <= i < |rs| ==> !IsThread(rs[i])
    ensures forall a, b :: 0 <= a < b < |Rebuilt(rs, t)| && IsThread(Rebuilt(rs, t)[a]) && IsThread(Rebuilt(rs, t)[b]) ==>
      Rebuilt(rs, t)[a].url != Rebuilt(rs, t)[b].url
    decreases |rs|
  {
    if rs != [] {
      var init, p := rs[..|rs| - 1], rs[|rs| - 1];
      var prior := Rebuilt(init, t);
      var r := Rebuilt(rs, t);
      RebuiltDistinct(init, t);
      RebuiltThreadUrls(init, t);
      assert r == prior + r[|prior|..];
      forall a, b | 0 <= a < b < |r| && IsThread(r[a]) && IsThread(r[b])
        ensures r[a].url != r[b].url
      {
        if b >= |prior| {
          var root := ThreadRoot(p, t).value;
          assert r[b].url == Url(t.username, root);
          assert r[a] == prior[a];
          var u :| u in UsedBy(init, t) && r[a].url == Url(t.username, u);
          if r[a].url == r[b].url {
            UrlInjective(t.username, u, root);
          }
        } else {
          assert r[a] == prior[a] && r[b] == prior[b];
        }
      }
    }
  }

  /** The rebuild loop. */
  method RebuildResults(username: string, results: seq<Post>, mergedIds: set<Id>,
                        replyToParent: Dict<Id, Id>, threadTexts: map<Id, seq<string>>)
    returns (newResults: seq<Post>)
    ensures newResults == Rebuilt(results, Threads(username, mergedIds, replyToParent.entries, threadTexts))
  {
    var t := Threads(username, mergedIds, replyToParent.entries, threadTexts);
    newResults := [];
    var usedRoots: set<Id> := {};
    var i := 0;
    while i < |results|
      invariant 0 <= i <= |results|
      invariant newResults == Rebuilt(results[..i], t)
      invariant usedRoots == UsedBy(results[..i], t)
    {
      var tweetData := results[i];
      assert results[..i + 1][..i] == results[..i];
      var tweetId := LastSegment(tweetData.url);
      if tweetId in mergedIds {
        var root, _ := WalkToRoot(replyToParent.entries, tweetId, {});
        if root in threadTexts && root !in usedRoots {
          usedRoots := usedRoots + {root};
          newResults := newResults + [MergedRecord(username, tweetData, root, threadTexts[root])];
        }
      } else {
        newResults := newResults + [tweetData];
      }
      i := i + 1;
    }
    assert results[..|results|] == results;
  }
}
