/**
 * Thread hydration: for each detected root, in the order given, the fetcher
 * looks the root up remotely while fewer than the allowed number of lookups
 * have succeeded. A non-empty remote thread is recorded; an empty one, or a
 * failed lookup, falls back to rebuilding the chain from the posts of the
 * batch, which is recorded when it holds at least two posts. Only lookups
 * that return count against the budget, and each of them is followed by a
 * pause of the configured delay.
 */
module Hydration {
  import opened Wrappers
  import opened Posts
  import opened OrderedDicts
  import opened Sorting
  import opened ReplyChains

  /** The batch the fallback works from: `tweet_map` and `reply_to_parent`. */
  datatype Batch = Batch(tweetMap: map<Id, RawPost>, replyToParent: Dict<Id, Id>)

  /** The fallback's sort key: the raw creation time text, "" when absent. */
  function CreatedKey(p: RawPost): string
  {
    p.createdAt
  }

  /** The posts of the batch whose chain resolves to `root`, in `reply_to_parent` order. */
  function ChainChildren(keys: seq<Id>, parent: map<Id, Id>, tweetMap: map<Id, RawPost>, root: Id): seq<RawPost>
    requires forall k :: k in keys ==> k in parent
    decreases |keys|
  {
    if keys == [] then []
    else
      var c := keys[|keys| - 1];
      ChainChildren(keys[..|keys| - 1], parent, tweetMap, root)
        + (if RootOf(parent, c) == root && c in tweetMap then [tweetMap[c]] else [])
  }

  /** `chain` before sorting: the root's own post when it is in the batch, then its children. */
  function BatchChain(root: Id, batch: Batch): seq<RawPost>
    requires batch.replyToParent.Valid()
  {
    var e := batch.replyToParent;
    (if root in batch.tweetMap then [batch.tweetMap[root]] else [])
      + ChainChildren(e.keys, e.entries, batch.tweetMap, root)
  }

  lemma ChainChildrenStep(keys: seq<Id>, parent: map<Id, Id>, tweetMap: map<Id, RawPost>, root: Id, i: nat)
    requires i < |keys| && forall k :: k in keys ==> k in parent
    ensures forall k :: k in keys[..i] ==> k in parent
    ensures ChainChildren(keys[..i + 1], parent, tweetMap, root)
      == ChainChildren(keys[..i], parent, tweetMap, root)
         + (if RootOf(parent, keys[i]) == root && keys[i] in tweetMap then [tweetMap[keys[i]]] else [])
  {
    assert keys[..i + 1][..i] == keys[..i];
  }

  /** The loop over `reply_to_parent` that collects the posts whose chain resolves to `rootId`. */
  method CollectChainChildren(keys: seq<Id>, parent: map<Id, Id>, tweetMap: map<Id, RawPost>, rootId: Id)
    returns (children: seq<RawPost>)
    requires forall k :: k in keys ==> k in parent
    ensures children == ChainChildren(keys, parent, tweetMap, rootId)
  {
    children := [];
    var i := 0;
    while i < |keys|
      invariant 0 <= i <= |keys|
      invariant forall k :: k in keys[..i] ==> k in parent
      invariant children == ChainChildren(keys[..i], parent, tweetMap, rootId)
    {
      ChainChildrenStep(keys, parent, tweetMap, rootId, i);
      var childId := keys[i];
      var r, _ := WalkToRoot(parent, parent[childId], {childId});
      if r == rootId && childId in tweetMap {
        children := children + [tweetMap[childId]];
      }
      i := i + 1;
    }
    assert keys[..|keys|] == keys;
  }

  /** The collection of `chain`: the root's own post, then each child whose chain resolves to the root. */
  method CollectBatchChain(rootId: Id, tweetMap: map<Id, RawPost>, replyToParent: Dict<Id, Id>)
    returns (chain: seq<RawPost>)
    requires replyToParent.Valid()
    ensures chain == BatchChain(rootId, Batch(tweetMap, replyToParent))
  {
    var children := CollectChainChildren(replyToParent.keys, replyToParent.entries, tweetMap, rootId);
    chain := (if rootId in tweetMap then [tweetMap[rootId]] else []) + children;
  }

  function TextsOf(ps: seq<RawPost>): seq<string>
  {
    seq(|ps|, i requires 0 <= i < |ps| => ps[i].text)
  }

  /** What the fallback records for `root`: the texts of its batch chain ordered by time, if it has 2 posts or more. */
  function FallbackTexts(root: Id, batch: Batch): Option<seq<string>>
    requires batch.replyToParent.Valid()
  {
    var chain := BatchChain(root, batch);
    if |chain| > 1 then Some(TextsOf(SortByKey(chain, CreatedKey))) else None
  }

  lemma {:induction false} ChainChildrenMembers(keys: seq<Id>, parent: map<Id, Id>, tweetMap: map<Id, RawPost>, root: Id)
    requires forall k :: k in keys ==> k in parent
    ensures |ChainChildren(keys, parent, tweetMap, root)| <= |keys|
    ensures forall p :: p in ChainChildren(keys, parent, tweetMap, root) <==>
      exists j :: 0 <= j < |keys| && keys[j] in tweetMap && RootOf(parent, keys[j]) == root && p == tweetMap[keys[j]]
    decreases |keys|
  {
    if keys != [] {
      var init := keys[..|keys| - 1];
      ChainChildrenMembers(init, parent, tweetMap, root);
      forall p ensures p in ChainChildren(keys, parent, tweetMap, root) <==>
        exists j :: 0 <= j < |keys| && keys[j] in tweetMap && RootOf(parent, keys[j]) == root && p == tweetMap[keys[j]]
      {
        if p in ChainChildren(init, parent, tweetMap, root) {
          var j :| 0 <= j < |init| && init[j] in tweetMap && RootOf(parent, init[j]) == root && p == tweetMap[init[j]];
          assert keys[j] == init[j];
        }
        if exists j :: 0 <= j < |keys| && keys[j] in tweetMap && RootOf(parent, keys[j]) == root && p == tweetMap[keys[j]] {
          var j :| 0 <= j < |keys| && keys[j] in tweetMap && RootOf(parent, keys[j]) == root && p == tweetMap[keys[j]];
          if j < |keys| - 1 {
            assert init[j] == keys[j];
          }
        }
      }
    }
  }

  /** The posts of a root's batch chain: its own post, and those whose chain resolves to it. */
  lemma ChainMembers(root: Id, batch: Batch)
    requires batch.replyToParent.Valid()
    ensures |BatchChain(root, batch)| <= |batch.replyToParent.keys| + 1
    ensures forall p :: p in BatchChain(root, batch) <==>
      (root in batch.tweetMap && p == batch.tweetMap[root])
      || exists c :: c in batch.replyToParent.entries && c in batch.tweetMap
           && RootOf(batch.replyToParent.entries, c) == root && p == batch.tweetMap[c]
  {
    var e := batch.replyToParent;
    var chain := BatchChain(root, batch);
    assert forall k :: k in e.keys ==> k in e.entries;
    ChainChildrenMembers(e.keys, e.entries, batch.tweetMap, root);
    forall p | exists c :: c in e.entries && c in batch.tweetMap && RootOf(e.entries, c) == root && p == batch.tweetMap[c]
      ensures p in chain
    {
      var c :| c in e.entries && c in batch.tweetMap && RootOf(e.entries, c) == root && p == batch.tweetMap[c];
      assert c in (set k | k in e.keys);
      var j :| 0 <= j < |e.keys| && e.keys[j] == c;
      assert p in ChainChildren(e.keys, e.entries, batch.tweetMap, root);
    }
  }

  /**
   * The fallback records a root exactly when its batch chain holds at least
   * two posts, and records their texts, one per post, in the order of a
   * stable sort by creation time text.
   */
  lemma FallbackFromBatch(root: Id, batch: Batch)
    requires batch.replyToParent.Valid()
    ensures FallbackTexts(root, batch).Some? <==> |BatchChain(root, batch)| >= 2
    ensures FallbackTexts(root, batch).Some? ==>
      var chain := BatchChain(root, batch);
      var sorted := SortByKey(chain, CreatedKey);
      && FallbackTexts(root, batch).value == TextsOf(sorted)
      && |FallbackTexts(root, batch).value| == |chain|
      && SortedBy(sorted, CreatedKey)
      && multiset(sorted) == multiset(chain)
      && forall k :: WithKey(sorted, CreatedKey, k) == WithKey(chain, CreatedKey, k)
  {
    var chain := BatchChain(root, batch);
    SortByKeySorted(chain, CreatedKey);
    assert |SortByKey(chain, CreatedKey)| == |multiset(SortByKey(chain, CreatedKey))|;
  }

  /** The batch fallback of `batch`, as the hydration loop consults it. */
  function BatchFallback(batch: Batch): Id -> Option<seq<string>>
    requires batch.replyToParent.Valid()
  {
    root => FallbackTexts(root, batch)
  }

  /** The state the hydration loop carries: `thread_texts`, `thread_fetches`, the detection counter and the pauses made. */
  datatype Hydrated = Hydrated(texts: map<Id, seq<string>>, fetches: int, detected: nat, waits: seq<int>)

  /** The fallback applied to `root`: it records whatever the fallback yields. */
  function FallbackStep(h: Hydrated, root: Id, fallback: Id -> Option<seq<string>>): Hydrated
  {
    match fallback(root)
    case Some(ts) => h.(texts := h.texts[root := ts], detected := h.detected + 1)
    case None => h
  }

  /** One round of the loop for `root`, once the budget check has let it through. */
  function LookupStep(h: Hydrated, root: Id, fallback: Id -> Option<seq<string>>, lookup: Id -> LookupOutcome, delay: int): Hydrated
  {
    match lookup(root)
    case LookupFailed(_) => FallbackStep(h, root, fallback)
    case Thread(ts) =>
      var h' := h.(fetches := h.fetches + 1, waits := h.waits + [delay]);
      if ts != [] then h'.(texts := h'.texts[root := ts], detected := h'.detected + 1)
      else FallbackStep(h', root, fallback)
  }

  /** The hydration loop from the root at index `i` on. */
  function HydrateFrom(roots: seq<Id>, i: nat, h: Hydrated, fallback: Id -> Option<seq<string>>,
                       lookup: Id -> LookupOutcome, delay: int, budget: int): Hydrated
    requires i <= |roots|
    decreases |roots| - i
  {
    if i == |roots| || h.fetches >= budget then h
    else HydrateFrom(roots, i + 1, LookupStep(h, roots[i], fallback, lookup, delay), fallback, lookup, delay, budget)
  }

  /** Where the loop stops: the index of the first root it does not process. */
  function Processed(roots: seq<Id>, i: nat, fetches: int, lookup: Id -> LookupOutcome, budget: int): (k: nat)
    requires i <= |roots|
    ensures i <= k <= |roots|
    decreases |roots| - i
  {
    if i == |roots| || fetches >= budget then i
    else Processed(roots, i + 1, fetches + (if lookup(roots[i]).Thread? then 1 else 0), lookup, budget)
  }

  /** How many of `s` the remote lookup answers (rather than failing). */
  function Answered(s: seq<Id>, lookup: Id -> LookupOutcome): nat
    decreases |s|
  {
    if s == [] then 0 else (if lookup(s[0]).Thread? then 1 else 0) + Answered(s[1..], lookup)
  }

  /** `n` pauses of `delay` each. */
  function Pauses(n: nat, delay: int): (p: seq<int>)
    ensures |p| == n
    decreases n
  {
    if n == 0 then [] else [delay] + Pauses(n - 1, delay)
  }

  /** One round counts a lookup, and pauses once, exactly when the lookup answers. */
  lemma StepBudget(h: Hydrated, root: Id, fallback: Id -> Option<seq<string>>, lookup: Id -> LookupOutcome, delay: int)
    ensures var h' := LookupStep(h, root, fallback, lookup, delay);
      && h'.fetches == h.fetches + (if lookup(root).Thread? then 1 else 0)
      && h'.waits == h.waits + (if lookup(root).Thread? then [delay] else [])
  {
  }

  /** The loop's count of answered lookups, and where it stops. */
  lemma {:induction false} HydrateCount(roots: seq<Id>, i: nat, h: Hydrated, fallback: Id -> Option<seq<string>>,
                                        lookup: Id -> LookupOutcome, delay: int, budget: int)
    requires i <= |roots|
    ensures var k := Processed(roots, i, h.fetches, lookup, budget);
      var r := HydrateFrom(roots, i, h, fallback, lookup, delay, budget);
      && (k < |roots| ==> r.fetches >= budget)
      && r.fetches == h.fetches + Answered(roots[i..k], lookup)
      && (h.fetches <= r.fetches <= if h.fetches < budget then budget else h.fetches)
    decreases |roots| - i
  {
    if i < |roots| && h.fetches < budget {
      var h' := LookupStep(h, roots[i], fallback, lookup, delay);
      StepBudget(h, roots[i], fallback, lookup, delay);
      HydrateCount(roots, i + 1, h', fallback, lookup, delay, budget);
      var k := Processed(roots, i, h.fetches, lookup, budget);
      assert roots[i..k][1..] == roots[i + 1..k];
    } else {
      assert roots[i..i] == [];
    }
  }

  /** One pause of `delay` follows each answered lookup. */
  lemma {:induction false} HydratePauses(roots: seq<Id>, i: nat, h: Hydrated, fallback: Id -> Option<seq<string>>,
                                         lookup: Id -> LookupOutcome, delay: int, budget: int)
    requires i <= |roots|
    ensures var r := HydrateFrom(roots, i, h, fallback, lookup, delay, budget);
      && h.fetches <= r.fetches
      && r.waits == h.waits + Pauses(r.fetches - h.fetches, delay)
    decreases |roots| - i
  {
    if i < |roots| && h.fetches < budget {
      var h' := LookupStep(h, roots[i], fallback, lookup, delay);
      StepBudget(h, roots[i], fallback, lookup, delay);
      HydratePauses(roots, i + 1, h', fallback, lookup, delay, budget);
      var r := HydrateFrom(roots, i, h, fallback, lookup, delay, budget);
      if lookup(roots[i]).Thread? {
        assert Pauses(r.fetches - h.fetches, delay) == [delay] + Pauses(r.fetches - h'.fetches, delay);
      }
    }
  }

  /**
   * The budget: the loop processes the roots up to index `k` and stops early
   * only once the answered lookups have reached `budget`; those answered
   * lookups are all it counts (a failing lookup is free), so the count never
   * passes the larger of `budget` and its starting value, and one pause of
   * `delay` follows each of them.
   */
  lemma HydrateBudget(roots: seq<Id>, i: nat, h: Hydrated, fallback: Id -> Option<seq<string>>,
                      lookup: Id -> LookupOutcome, delay: int, budget: int)
    requires i <= |roots|
    ensures var k := Processed(roots, i, h.fetches, lookup, budget);
      var r := HydrateFrom(roots, i, h, fallback, lookup, delay, budget);
      && i <= k <= |roots|
      && (k < |roots| ==> r.fetches >= budget)
      && r.fetches == h.fetches + Answered(roots[i..k], lookup)
      && (h.fetches <= r.fetches <= if h.fetches < budget then budget else h.fetches)
      && r.waits == h.waits + Pauses(r.fetches - h.fetches, delay)
  {
    HydrateCount(roots, i, h, fallback, lookup, delay, budget);
    HydratePauses(roots, i, h, fallback, lookup, delay, budget);
  }

  /** What a processed root ends up with: its remote thread when non-empty, otherwise what the fallback yields. */
  function Recorded(root: Id, fallback: Id -> Option<seq<string>>, lookup: Id -> LookupOutcome): Option<seq<string>>
  {
    if lookup(root).Thread? && lookup(root).texts != [] then Some(lookup(root).texts)
    else fallback(root)
  }

  /** One round records what `Recorded` says for its root, and counts it when it records anything. */
  lemma StepRecords(h: Hydrated, root: Id, fallback: Id -> Option<seq<string>>, lookup: Id -> LookupOutcome, delay: int)
    ensures var h' := LookupStep(h, root, fallback, lookup, delay);
      match Recorded(root, fallback, lookup)
      case Some(ts) => h'.texts == h.texts[root := ts] && h'.detected == h.detected + 1
      case None => h'.texts == h.texts && h'.detected == h.detected
  {
  }

  /** The roots the loop records: those it processes for which `Recorded` yields something. */
  lemma {:induction false} HydrateRecordsKeys(roots: seq<Id>, i: nat, h: Hydrated, fallback: Id -> Option<seq<string>>,
                                              lookup: Id -> LookupOutcome, delay: int, budget: int)
    requires i <= |roots|
    ensures var k := Processed(roots, i, h.fetches, lookup, budget);
      var r := HydrateFrom(roots, i, h, fallback, lookup, delay, budget);
      forall id :: id in r.texts <==> id in h.texts || (id in roots[i..k] && Recorded(id, fallback, lookup).Some?)
    decreases |roots| - i
  {
    var k := Processed(roots, i, h.fetches, lookup, budget);
    if i < |roots| && h.fetches < budget {
      var root := roots[i];
      var h' := LookupStep(h, root, fallback, lookup, delay);
      StepRecords(h, root, fallback, lookup, delay);
      StepBudget(h, root, fallback, lookup, delay);
      assert k == Processed(roots, i + 1, h'.fetches, lookup, budget);
      HydrateRecordsKeys(roots, i + 1, h', fallback, lookup, delay, budget);
      assert roots[i..k] == [root] + roots[i + 1..k];
    } else {
      assert roots[i..k] == [];
    }
  }

  /** Given distinct roots none of which is recorded yet, each recorded root holds what `Recorded` yields, and the rest keep their texts. */
  lemma {:induction false} HydrateRecordsValues(roots: seq<Id>, i: nat, h: Hydrated, fallback: Id -> Option<seq<string>>,
                                                lookup: Id -> LookupOutcome, delay: int, budget: int)
    requires i <= |roots|
    requires forall a, b :: i <= a < b < |roots| ==> roots[a] != roots[b]
    requires forall a :: i <= a < |roots| ==> roots[a] !in h.texts
    ensures var r := HydrateFrom(roots, i, h, fallback, lookup, delay, budget);
      forall id :: id in r.texts ==>
        if id in h.texts then r.texts[id] == h.texts[id]
        else Recorded(id, fallback, lookup).Some? && r.texts[id] == Recorded(id, fallback, lookup).value
    decreases |roots| - i
  {
    if i < |roots| && h.fetches < budget {
      var root := roots[i];
      var h' := LookupStep(h, root, fallback, lookup, delay);
      StepRecords(h, root, fallback, lookup, delay);
      HydrateRecordsValues(roots, i + 1, h', fallback, lookup, delay, budget);
    }
  }

  /**
   * What the loop records, given distinct roots none of which is recorded
   * yet: every root it processes gets what `Recorded` says, if anything, and
   * nothing else is added or changed.
   */
  lemma HydrateRecords(roots: seq<Id>, i: nat, h: Hydrated, fallback: Id -> Option<seq<string>>,
                       lookup: Id -> LookupOutcome, delay: int, budget: int)
    requires i <= |roots|
    requires forall a, b :: i <= a < b < |roots| ==> roots[a] != roots[b]
    requires forall a :: i <= a < |roots| ==> roots[a] !in h.texts
    ensures var k := Processed(roots, i, h.fetches, lookup, budget);
      var r := HydrateFrom(roots, i, h, fallback, lookup, delay, budget);
      && (forall id :: id in r.texts <==>
            id in h.texts || (id in roots[i..k] && Recorded(id, fallback, lookup).Some?))
      && (forall id :: id in r.texts ==>
            r.texts[id] == if id in h.texts then h.texts[id] else Recorded(id, fallback, lookup).value)
  {
    HydrateRecordsKeys(roots, i, h, fallback, lookup, delay, budget);
    HydrateRecordsValues(roots, i, h, fallback, lookup, delay, budget);
  }

  /** Given distinct roots none of which is recorded yet, the detection counter grows by the number of roots recorded. */
  lemma {:induction false} HydrateDetected(roots: seq<Id>, i: nat, h: Hydrated, fallback: Id -> Option<seq<string>>,
                                           lookup: Id -> LookupOutcome, delay: int, budget: int)
    requires i <= |roots|
    requires forall a, b :: i <= a < b < |roots| ==> roots[a] != roots[b]
    requires forall a :: i <= a < |roots| ==> roots[a] !in h.texts
    ensures var r := HydrateFrom(roots, i, h, fallback, lookup, delay, budget);
      h.texts.Keys <= r.texts.Keys && r.detected + |h.texts| == h.detected + |r.texts|
    decreases |roots| - i
  {
    if i < |roots| && h.fetches < budget {
      var root := roots[i];
      StepRecords(h, root, fallback, lookup, delay);
      HydrateDetected(roots, i + 1, LookupStep(h, root, fallback, lookup, delay), fallback, lookup, delay, budget);
    }
  }
}
