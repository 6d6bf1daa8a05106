/**
 * Thread detection over one fetched batch: the id-to-post table, the
 * child-to-parent edges recorded for self-replies, the bounded walk from a
 * post up to the root of its chain, the roots of all chains, and the ids of
 * every post that belongs to a chain being merged.
 */
module ReplyChains {
  import opened Posts
  import opened OrderedDicts

  /** `tweet_map`: each id to its post; a later post with the same id replaces an earlier one. */
  function TweetMap(raw: seq<RawPost>): map<Id, RawPost>
    decreases |raw|
  {
    if raw == [] then map[]
    else
      var last := raw[|raw| - 1];
      TweetMap(raw[..|raw| - 1])[last.id := last]
  }

  lemma {:induction false} TweetMapHas(raw: seq<RawPost>, id: Id)
    ensures id in TweetMap(raw) <==> exists i :: 0 <= i < |raw| && raw[i].id == id
    decreases |raw|
  {
    if raw != [] {
      var init := raw[..|raw| - 1];
      TweetMapHas(init, id);
      if id in TweetMap(init) {
        var i :| 0 <= i < |init| && init[i].id == id;
        assert raw[i].id == id;
      }
      if exists i :: 0 <= i < |raw| && raw[i].id == id {
        var i :| 0 <= i < |raw| && raw[i].id == id;
        if i < |raw| - 1 {
          assert init[i].id == id;
        }
      }
    }
  }

  lemma {:induction false} TweetMapLatest(raw: seq<RawPost>, id: Id)
    requires id in TweetMap(raw)
    ensures exists i :: (0 <= i < |raw| && raw[i] == TweetMap(raw)[id] && raw[i].id == id
                         && (forall j :: i < j < |raw| ==> raw[j].id != id))
    decreases |raw|
  {
    var init, last := raw[..|raw| - 1], raw[|raw| - 1];
    if id == last.id {
      assert raw[|raw| - 1] == TweetMap(raw)[id];
    } else {
      TweetMapLatest(init, id);
      var i :| 0 <= i < |init| && init[i] == TweetMap(init)[id] && init[i].id == id
        && (forall j :: i < j < |init| ==> init[j].id != id);
      assert raw[i] == TweetMap(raw)[id];
      forall j | i < j < |raw| ensures raw[j].id != id {
        if j < |raw| - 1 {
          assert init[j] == raw[j];
        }
      }
    }
  }

  /** The table holds the ids of the batch, each mapped to the last post of the batch with that id. */
  lemma TweetMapLast(raw: seq<RawPost>)
    ensures forall id :: id in TweetMap(raw) <==> exists i :: 0 <= i < |raw| && raw[i].id == id
    ensures forall id :: id in TweetMap(raw) ==>
      exists i :: 0 <= i < |raw| && raw[i] == TweetMap(raw)[id] && raw[i].id == id
        && (forall j :: i < j < |raw| ==> raw[j].id != id)
  {
    forall id ensures id in TweetMap(raw) <==> exists i :: 0 <= i < |raw| && raw[i].id == id {
      TweetMapHas(raw, id);
    }
    forall id | id in TweetMap(raw)
      ensures exists i :: (0 <= i < |raw| && raw[i] == TweetMap(raw)[id] && raw[i].id == id
                           && (forall j :: i < j < |raw| ==> raw[j].id != id))
    {
      TweetMapLatest(raw, id);
    }
  }

  /** The loop that fills `tweet_map`. */
  method BuildTweetMap(raw: seq<RawPost>) returns (tweetMap: map<Id, RawPost>)
    ensures tweetMap == TweetMap(raw)
  {
    tweetMap := map[];
    var i := 0;
    while i < |raw|
      invariant 0 <= i <= |raw|
      invariant tweetMap == TweetMap(raw[..i])
    {
      assert raw[..i + 1][..i] == raw[..i];
      tweetMap := tweetMap[raw[i].id := raw[i]];
      i := i + 1;
    }
    assert raw[..|raw|] == raw;
  }

  /**
   * The author a post replies to, as the fetcher determines it: the legacy
   * metadata's reply target author when present; otherwise the post's own
   * author when the replied-to post is in the batch and has that same author;
   * otherwise "" (none).
   */
  function ReplyTarget(p: RawPost, tweetMap: map<Id, RawPost>): string
  {
    if p.replyToUserId != "" then p.replyToUserId
    else if p.replyToId in tweetMap && tweetMap[p.replyToId].userId == p.userId then p.userId
    else ""
  }

  predicate IsSelfReply(p: RawPost, tweetMap: map<Id, RawPost>)
  {
    p.replyToId != "" && ReplyTarget(p, tweetMap) != "" && ReplyTarget(p, tweetMap) == p.userId
  }

  /** `reply_to_parent`: child id to parent id, one entry per self-reply, in batch order. */
  function Edges(raw: seq<RawPost>, tweetMap: map<Id, RawPost>): (d: Dict<Id, Id>)
    ensures d.Valid()
    decreases |raw|
  {
    if raw == [] then Empty()
    else
      var last := raw[|raw| - 1];
      var d := Edges(raw[..|raw| - 1], tweetMap);
      if IsSelfReply(last, tweetMap) then d.Put(last.id, last.replyToId) else d
  }

  lemma {:induction false} EdgesFrom(raw: seq<RawPost>, tweetMap: map<Id, RawPost>, c: Id)
    ensures c in Edges(raw, tweetMap).entries <==>
      exists i :: 0 <= i < |raw| && raw[i].id == c && IsSelfReply(raw[i], tweetMap)
    decreases |raw|
  {
    if raw != [] {
      var init := raw[..|raw| - 1];
      EdgesFrom(init, tweetMap, c);
      if c in Edges(init, tweetMap).entries {
        var i :| 0 <= i < |init| && init[i].id == c && IsSelfReply(init[i], tweetMap);
        assert raw[i] == init[i];
      }
      if exists i :: 0 <= i < |raw| && raw[i].id == c && IsSelfReply(raw[i], tweetMap) {
        var i :| 0 <= i < |raw| && raw[i].id == c && IsSelfReply(raw[i], tweetMap);
        if i < |raw| - 1 {
          assert init[i] == raw[i];
        }
      }
    }
  }

  lemma {:induction false} EdgesTo(raw: seq<RawPost>, tweetMap: map<Id, RawPost>, c: Id)
    requires c in Edges(raw, tweetMap).entries
    ensures exists i :: (0 <= i < |raw| && raw[i].id == c && IsSelfReply(raw[i], tweetMap)
                         && Edges(raw, tweetMap).entries[c] == raw[i].replyToId)
    decreases |raw|
  {
    var init, last := raw[..|raw| - 1], raw[|raw| - 1];
    if IsSelfReply(last, tweetMap) && c == last.id {
      assert raw[|raw| - 1] == last;
    } else {
      EdgesTo(init, tweetMap, c);
      var i :| 0 <= i < |init| && init[i].id == c && IsSelfReply(init[i], tweetMap)
        && Edges(init, tweetMap).entries[c] == init[i].replyToId;
      assert raw[i] == init[i];
    }
  }

  /**
   * An edge leaves exactly the ids of self-replies, and leads to the post it
   * replies to. A post is a self-reply exactly when it replies to something
   * and either its legacy metadata names its own author as the reply target,
   * or that metadata names no one and the replied-to post is in the batch
   * with the same (non-empty) author.
   */
  lemma EdgesOnlySelfReplies(raw: seq<RawPost>, tweetMap: map<Id, RawPost>)
    ensures Edges(raw, tweetMap).Valid()
    ensures forall c :: c in Edges(raw, tweetMap).entries <==>
      exists i :: 0 <= i < |raw| && raw[i].id == c && IsSelfReply(raw[i], tweetMap)
    ensures forall c :: c in Edges(raw, tweetMap).entries ==>
      exists i :: 0 <= i < |raw| && raw[i].id == c && IsSelfReply(raw[i], tweetMap)
        && Edges(raw, tweetMap).entries[c] == raw[i].replyToId
    ensures forall p :: IsSelfReply(p, tweetMap) <==>
      p.replyToId != "" &&
      ((p.replyToUserId != "" && p.replyToUserId == p.userId) ||
       (p.replyToUserId == "" && p.userId != "" && p.replyToId in tweetMap
        && tweetMap[p.replyToId].userId == p.userId))
  {
    forall c ensures c in Edges(raw, tweetMap).entries <==>
      exists i :: 0 <= i < |raw| && raw[i].id == c && IsSelfReply(raw[i], tweetMap)
    {
      EdgesFrom(raw, tweetMap, c);
    }
    forall c | c in Edges(raw, tweetMap).entries
      ensures exists i :: (0 <= i < |raw| && raw[i].id == c && IsSelfReply(raw[i], tweetMap)
                           && Edges(raw, tweetMap).entries[c] == raw[i].replyToId)
    {
      EdgesTo(raw, tweetMap, c);
    }
  }

  lemma EdgesStep(raw: seq<RawPost>, tweetMap: map<Id, RawPost>, i: nat)
    requires i < |raw|
    ensures Edges(raw[..i + 1], tweetMap)
      == if IsSelfReply(raw[i], tweetMap) then Edges(raw[..i], tweetMap).Put(raw[i].id, raw[i].replyToId)
         else Edges(raw[..i], tweetMap)
  {
    assert raw[..i + 1][..i] == raw[..i];
  }

  /** The loop that fills `self_replies` and `reply_to_parent`. */
  method BuildReplyEdges(raw: seq<RawPost>, tweetMap: map<Id, RawPost>)
    returns (selfReplies: set<Id>, replyToParent: Dict<Id, Id>)
    ensures replyToParent == Edges(raw, tweetMap)
    ensures selfReplies == replyToParent.entries.Keys
  {
    selfReplies, replyToParent := {}, Empty();
    var i := 0;
    while i < |raw|
      invariant 0 <= i <= |raw|
      invariant replyToParent == Edges(raw[..i], tweetMap)
      invariant selfReplies == replyToParent.entries.Keys
    {
      EdgesStep(raw, tweetMap, i);
      var tweet := raw[i];
      if tweet.replyToId != "" {
        var replyToUser := tweet.replyToUserId;
        if replyToUser == "" {
          var parentId := tweet.replyToId;
          if parentId in tweetMap && tweetMap[parentId].userId == tweet.userId {
            replyToUser := tweet.userId;
          }
        }
        if replyToUser != "" && replyToUser == tweet.userId {
          selfReplies := selfReplies + {tweet.id};
          replyToParent := replyToParent.Put(tweet.id, tweet.replyToId);
        }
      }
      i := i + 1;
    }
    assert raw[..|raw|] == raw;
  }

  /**
   * Where the walk up the parent pointers from `r` stops, with `visited`
   * already seen: at the first id that has no parent edge or was seen before.
   */
  function Walk(parent: map<Id, Id>, r: Id, visited: set<Id>): Id
    decreases parent.Keys - visited
  {
    if r in parent && r !in visited then Walk(parent, parent[r], visited + {r}) else r
  }

  /** The ids the walk steps through (and adds to `visited`) before it stops. */
  function WalkPath(parent: map<Id, Id>, r: Id, visited: set<Id>): seq<Id>
    decreases parent.Keys - visited
  {
    if r in parent && r !in visited then [r] + WalkPath(parent, parent[r], visited + {r}) else []
  }

  /**
   * The walk always stops: it takes at most one step per parent edge not yet
   * seen, each step follows a parent edge through a new id, and it ends on
   * an id that has no parent edge or was already seen.
   */
  lemma {:induction false} WalkEnds(parent: map<Id, Id>, r: Id, visited: set<Id>)
    ensures var path := WalkPath(parent, r, visited);
      && |path| <= |parent.Keys - visited|
      && (forall i :: 0 <= i < |path| ==> path[i] in parent && path[i] !in visited)
      && (forall i, j :: 0 <= i < j < |path| ==> path[i] != path[j])
      && (path == [] ==> Walk(parent, r, visited) == r)
      && (path != [] ==> path[0] == r && parent[path[|path| - 1]] == Walk(parent, r, visited))
      && (forall i :: 0 <= i < |path| - 1 ==> parent[path[i]] == path[i + 1])
      && (Walk(parent, r, visited) !in parent || Walk(parent, r, visited) in visited
          || Walk(parent, r, visited) in path)
    decreases parent.Keys - visited
  {
    if r in parent && r !in visited {
      var v' := visited + {r};
      WalkEnds(parent, parent[r], v');
      assert parent.Keys - v' == (parent.Keys - visited) - {r};
      var rest := WalkPath(parent, parent[r], v');
      var path := [r] + rest;
      assert WalkPath(parent, r, visited) == path;
      forall i, j | 0 <= i < j < |path| ensures path[i] != path[j] {
        if i > 0 {
          assert path[i] == rest[i - 1];
        }
        assert path[j] == rest[j - 1];
      }
      if rest != [] {
        assert path[|path| - 1] == rest[|rest| - 1];
      }
    }
  }

  /** The `while root in reply_to_parent and root not in visited` loop. */
  method WalkToRoot(parent: map<Id, Id>, start: Id, visited0: set<Id>) returns (root: Id, visited: set<Id>)
    ensures root == Walk(parent, start, visited0)
    ensures visited0 <= visited && visited - visited0 <= parent.Keys
    ensures root !in parent || root in visited
  {
    root, visited := start, visited0;
    while root in parent && root !in visited
      invariant Walk(parent, root, visited) == Walk(parent, start, visited0)
      invariant visited0 <= visited && visited - visited0 <= parent.Keys
      decreases parent.Keys - visited
    {
      visited := visited + {root};
      root := parent[root];
    }
  }

  /** The root a child's chain resolves to: the walk from its parent with the child already seen. */
  function RootOf(parent: map<Id, Id>, child: Id): Id
    requires child in parent
  {
    Walk(parent, parent[child], {child})
  }

  /** The roots of the children in `keys`, each listed once, in order of first discovery. */
  function RootOrder(keys: seq<Id>, parent: map<Id, Id>): seq<Id>
    requires forall i :: 0 <= i < |keys| ==> keys[i] in parent
    decreases |keys|
  {
    if keys == [] then []
    else
      var prior := RootOrder(keys[..|keys| - 1], parent);
      var r := RootOf(parent, keys[|keys| - 1]);
      if r in prior then prior else prior + [r]
  }

  /** The discovered roots are distinct, and are exactly the roots the children resolve to. */
  lemma {:induction false} RootOrderRoots(keys: seq<Id>, parent: map<Id, Id>)
    requires forall i :: 0 <= i < |keys| ==> keys[i] in parent
    ensures forall i, j :: 0 <= i < j < |RootOrder(keys, parent)| ==>
      RootOrder(keys, parent)[i] != RootOrder(keys, parent)[j]
    ensures forall r :: r in RootOrder(keys, parent) <==>
      exists i :: 0 <= i < |keys| && RootOf(parent, keys[i]) == r
    decreases |keys|
  {
    if keys != [] {
      var init := keys[..|keys| - 1];
      var prior := RootOrder(init, parent);
      var last := RootOf(parent, keys[|keys| - 1]);
      RootOrderRoots(init, parent);
      assert RootOrder(keys, parent) == if last in prior then prior else prior + [last];
      forall r ensures r in RootOrder(keys, parent) <==> exists i :: 0 <= i < |keys| && RootOf(parent, keys[i]) == r {
        if r in prior {
          var i :| 0 <= i < |init| && RootOf(parent, init[i]) == r;
          assert keys[i] == init[i];
        }
        if exists i :: 0 <= i < |keys| && RootOf(parent, keys[i]) == r {
          var i :| 0 <= i < |keys| && RootOf(parent, keys[i]) == r;
          if i < |keys| - 1 {
            assert init[i] == keys[i];
          }
        }
      }
    }
  }

  lemma RootOrderStep(keys: seq<Id>, parent: map<Id, Id>, i: nat)
    requires i < |keys| && forall k :: 0 <= k < |keys| ==> keys[k] in parent
    ensures RootOrder(keys[..i + 1], parent)
      == if RootOf(parent, keys[i]) in RootOrder(keys[..i], parent) then RootOrder(keys[..i], parent)
         else RootOrder(keys[..i], parent) + [RootOf(parent, keys[i])]
  {
    assert keys[..i + 1][..i] == keys[..i];
  }

  /** The loop that fills `root_ids`, visiting the children in `reply_to_parent` order. */
  method CollectRoots(replyToParent: Dict<Id, Id>) returns (rootIds: seq<Id>)
    requires replyToParent.Valid()
    ensures rootIds == RootOrder(replyToParent.keys, replyToParent.entries)
  {
    KeysMapped(replyToParent);
    rootIds := CollectRootsOf(replyToParent.keys, replyToParent.entries);
  }

  /** The loop of `CollectRoots`, over the children `keys` and their parent edges. */
  method CollectRootsOf(keys: seq<Id>, parent: map<Id, Id>) returns (rootIds: seq<Id>)
    requires forall i :: 0 <= i < |keys| ==> keys[i] in parent
    ensures rootIds == RootOrder(keys, parent)
  {
    rootIds := [];
    var i := 0;
    while i < |keys|
      invariant 0 <= i <= |keys|
      invariant rootIds == RootOrder(keys[..i], parent)
    {
      RootOrderStep(keys, parent, i);
      var childId := keys[i];
      var root, _ := WalkToRoot(parent, parent[childId], {childId});
      if root !in rootIds {
        rootIds := rootIds + [root];
      }
      i := i + 1;
    }
    assert keys[..|keys|] == keys;
  }

  /** The ids of the chains of `roots`: the roots themselves and every child resolving to one of them. */
  function MergedIds(parent: map<Id, Id>, roots: set<Id>): set<Id>
  {
    roots + set c | c in parent && RootOf(parent, c) in roots
  }

  /** The inner loop of `merged_ids`'s construction: `rootId` and the children whose walk ends at it. */
  method CollectChainIds(keys: seq<Id>, parent: map<Id, Id>, rootId: Id) returns (chainIds: set<Id>)
    requires forall i :: 0 <= i < |keys| ==> keys[i] in parent
    ensures chainIds == {rootId} + set c | c in keys && c in parent && RootOf(parent, c) == rootId
  {
    chainIds := {rootId};
    var j := 0;
    while j < |keys|
      invariant 0 <= j <= |keys|
      invariant chainIds == {rootId} + set c | c in keys[..j] && c in parent && RootOf(parent, c) == rootId
    {
      var childId := keys[j];
      var r, _ := WalkToRoot(parent, parent[childId], {childId});
      if r == rootId {
        chainIds := chainIds + {childId};
      }
      assert forall c :: c in keys[..j + 1] <==> c in keys[..j] || c == childId;
      j := j + 1;
    }
    assert keys[..|keys|] == keys;
  }

  /** The loop that fills `merged_ids` from the roots that received thread texts. */
  method CollectMergedIds(replyToParent: Dict<Id, Id>, threadTexts: map<Id, seq<string>>)
    returns (mergedIds: set<Id>)
    requires replyToParent.Valid()
    ensures mergedIds == MergedIds(replyToParent.entries, threadTexts.Keys)
  {
    var keys, parent := replyToParent.keys, replyToParent.entries;
    KeysMapped(replyToParent);
    assert forall c :: c in parent <==> c in keys;
    mergedIds := {};
    var todo := threadTexts.Keys;
    while todo != {}
      invariant todo <= threadTexts.Keys
      invariant mergedIds == MergedIds(parent, threadTexts.Keys - todo)
      decreases todo
    {
      var rootId :| rootId in todo;
      var chainIds := CollectChainIds(keys, parent, rootId);
      mergedIds := mergedIds + chainIds;
      todo := todo - {rootId};
    }
  }
}
