/** The bucket array in the heap: chains threaded through `hhPrev` and `hhNext`. */
module Buckets {
  import opened Bits
  import opened Entries
  import opened Chains

  datatype Bucket = Bucket(hhHead: Entry?, count: nat, expandMult: nat)

  const EMPTY_BUCKET := Bucket(null, 0, 0)

  /** `c` is the doubly linked chain that starts at `hd`. */
  ghost predicate ChainLinked(hd: Entry?, c: seq<Entry>)
    reads c`hhPrev, c`hhNext
  {
    && hd == At(c, 0)
    && (forall i {:trigger c[i].hhPrev} | 0 <= i < |c| :: c[i].hhPrev == At(c, i - 1))
    && (forall i {:trigger c[i].hhNext} | 0 <= i < |c| :: c[i].hhNext == At(c, i + 1))
  }

  ghost predicate AllWithin(chains: seq<seq<Entry>>, all: set<Entry>) {
    forall b, i {:trigger chains[b][i]} | 0 <= b < |chains| && 0 <= i < |chains[b]| ::
      chains[b][i] in all
  }

  ghost predicate BucketsLinked(bkts: seq<Bucket>, chains: seq<seq<Entry>>, all: set<Entry>)
    reads all`hhPrev, all`hhNext
  {
    && |bkts| == |chains| && AllWithin(chains, all)
    && forall b {:trigger bkts[b]} {:trigger chains[b]} | 0 <= b < |chains| ::
         ChainLinked(bkts[b].hhHead, chains[b])
  }

  ghost predicate Counted(bkts: seq<Bucket>, chains: seq<seq<Entry>>) {
    && |bkts| == |chains|
    && forall b {:trigger bkts[b]} {:trigger chains[b]} | 0 <= b < |chains| ::
         bkts[b].count == |chains[b]|
  }

  ghost predicate Unchained(e: Entry, chains: seq<seq<Entry>>) {
    forall b, i {:trigger chains[b][i]} | 0 <= b < |chains| && 0 <= i < |chains[b]| ::
      chains[b][i] != e
  }

  /** An item that is only in the list, not in the chains. */
  lemma NotChained(h: HashFcn, list: seq<Entry>, i: nat, chains: seq<seq<Entry>>)
    requires i < |list| && Distinct(list) && Placed(h, RemoveAt(list, i), chains)
    ensures Unchained(list[i], chains) && Hashed(h, chains)
    ensures forall b | 0 <= b < |chains| :: list[i] !in chains[b]
    ensures AllWithin(chains, set e | e in RemoveAt(list, i))
  {
    RemoveAtMembers(list, i);
  }

  lemma Widen(bkts: seq<Bucket>, chains: seq<seq<Entry>>, all: set<Entry>, more: set<Entry>)
    requires BucketsLinked(bkts, chains, all) && all <= more
    ensures BucketsLinked(bkts, chains, more)
  {
  }

  lemma FreshBuckets(bkts: seq<Bucket>, all: set<Entry>)
    requires forall j | 0 <= j < |bkts| :: bkts[j] == EMPTY_BUCKET
    ensures BucketsLinked(bkts, Empty(|bkts|), all) && Counted(bkts, Empty(|bkts|))
  {
  }

  lemma PlacedFacts(h: HashFcn, list: seq<Entry>, chains: seq<seq<Entry>>, i: nat)
    requires Placed(h, list, chains)
    ensures i < |list| ==> list[i] in chains[Spot(h, list[i], |chains|)]
    ensures Hashed(h, chains) && Distinct(list) && AllWithin(chains, set e | e in list)
  {
  }

  lemma ChainAt(bkts: seq<Bucket>, chains: seq<seq<Entry>>, all: set<Entry>, i: nat)
    requires BucketsLinked(bkts, chains, all) && i < |chains|
    ensures ChainLinked(bkts[i].hhHead, chains[i])
  {
  }

  lemma Narrow(bkts: seq<Bucket>, chains: seq<seq<Entry>>, all: set<Entry>, fewer: set<Entry>)
    requires BucketsLinked(bkts, chains, all) && AllWithin(chains, fewer)
    ensures BucketsLinked(bkts, chains, fewer)
  {
  }

  /** Links `e` in at the front of bucket `b`; the counters are the caller's business. */
  method PushFront(bkts: array<Bucket>, b: nat, e: Entry, h: HashFcn,
                   ghost chains: seq<seq<Entry>>, ghost all: set<Entry>)
    requires BucketsLinked(bkts[..], chains, all) && Hashed(h, chains)
    requires b < bkts.Length && e in all && Unchained(e, chains)
    modifies bkts, all`hhPrev, e`hhNext
    ensures BucketsLinked(bkts[..], chains[b := [e] + chains[b]], all)
    ensures bkts[..] == old(bkts[..])[b := old(bkts[b]).(hhHead := e)]
  {
    ghost var c := [e] + chains[b];
    ghost var cs := chains[b := c];
    ghost var first := bkts[b].hhHead;
    e.hhNext := bkts[b].hhHead;
    e.hhPrev := null;
    if bkts[b].hhHead != null {
      bkts[b].hhHead.hhPrev := e;
    }
    bkts[b] := bkts[b].(hhHead := e);
    assert forall i | 0 < i < |c| :: c[i] == chains[b][i - 1];
    forall b' | 0 <= b' < |cs| ensures ChainLinked(bkts[b'].hhHead, cs[b']) {
      if b' != b {
        assert forall i | 0 <= i < |cs[b']| :: chains[b'][i] != e && chains[b'][i] != first;
      }
    }
  }

  /** The chain without item `m`; nothing happens for `m == |c|`. */
  ghost function Unchain(c: seq<Entry>, m: nat): seq<Entry>
    requires m <= |c|
  {
    if m < |c| then RemoveAt(c, m) else c
  }

  /** What `DelInBkt` may be handed: an item of the chain, or an item that is in no chain
      and has null links, as a rolled-back addition leaves it. */
  ghost predicate Deletable(del: Entry, c: seq<Entry>, m: nat)
    reads del`hhPrev, del`hhNext
  {
    && m <= |c|
    && if m < |c| then c[m] == del else del !in c && del.hhPrev == null && del.hhNext == null
  }

  method UnlinkInChain(bkt: Bucket, del: Entry, ghost c: seq<Entry>, ghost m: nat)
    returns (bkt': Bucket)
    requires ChainLinked(bkt.hhHead, c) && Distinct(c) && Deletable(del, c, m) && bkt.count > 0
    modifies c`hhPrev, c`hhNext
    ensures ChainLinked(bkt'.hhHead, Unchain(c, m))
    ensures bkt'.count == bkt.count - 1 && bkt'.expandMult == bkt.expandMult
    ensures del.hhPrev == old(del.hhPrev) && del.hhNext == old(del.hhNext)
  {
    ghost var c' := Unchain(c, m);
    assert m < |c| ==> forall i | 0 <= i < |c'| :: c'[i] == if i < m then c[i] else c[i + 1];
    bkt' := bkt.(count := bkt.count - 1);
    if bkt'.hhHead == del {
      bkt' := bkt'.(hhHead := del.hhNext);
    }
    if del.hhPrev != null {
      del.hhPrev.hhNext := del.hhNext;
    }
    if del.hhNext != null {
      del.hhNext.hhPrev := del.hhPrev;
    }
  }

  /** Removes `del` from bucket `b`; a rolled-back item only costs one count. */
  method DelInBkt(bkts: array<Bucket>, b: nat, del: Entry, h: HashFcn,
                  ghost chains: seq<seq<Entry>>, ghost m: nat, ghost all: set<Entry>)
    requires BucketsLinked(bkts[..], chains, all) && Hashed(h, chains)
    requires b < bkts.Length && bkts[b].count > 0 && Deletable(del, chains[b], m)
    modifies bkts, all`hhPrev, all`hhNext
    ensures BucketsLinked(bkts[..], chains[b := Unchain(chains[b], m)], all)
    ensures bkts[..] == old(bkts[..])[b := Bucket(At(Unchain(chains[b], m), 0),
                                                  old(bkts[b].count) - 1, old(bkts[b].expandMult))]
    ensures del.hhPrev == old(del.hhPrev) && del.hhNext == old(del.hhNext)
  {
    ghost var cs := chains[b := Unchain(chains[b], m)];
    var bkt := UnlinkInChain(bkts[b], del, chains[b], m);
    bkts[b] := bkt;
    forall b' | 0 <= b' < |cs| ensures ChainLinked(bkts[b'].hhHead, cs[b']) {
      if b' != b {
        assert old(ChainLinked(bkts[b'].hhHead, cs[b']));
        assert forall i, j | 0 <= i < |chains[b']| && 0 <= j < |chains[b]| ::
            chains[b'][i] != chains[b][j];
      }
    }
  }

  // ----- expansion -----------------------------------------------------------

  /** The counters an expansion has given the new buckets so far. */
  ghost predicate Rated(bkts: seq<Bucket>, chains: seq<seq<Entry>>, ideal: nat)
    requires ideal > 0
  {
    && Counted(bkts, chains)
    && forall b {:trigger bkts[b]} {:trigger chains[b]} | 0 <= b < |chains| ::
         bkts[b].expandMult == ExpandMult(|chains[b]|, ideal)
  }

  lemma RatedIsCounted(bkts: seq<Bucket>, chains: seq<seq<Entry>>, ideal: nat)
    requires ideal > 0 && Rated(bkts, chains, ideal)
    ensures Counted(bkts, chains)
  {
  }

  /** The links an expansion still has to follow are intact. */
  ghost predicate Pending(chains: seq<seq<Entry>>, seen: seq<seq<Entry>>, all: set<Entry>)
    requires Prefixes(seen, chains)
    reads all`hhNext
  {
    && AllWithin(chains, all)
    && forall b, i {:trigger chains[b][i].hhNext} |
         0 <= b < |chains| && |seen[b]| <= i < |chains[b]| ::
         chains[b][i].hhNext == At(chains[b], i + 1)
  }

  /** Counts an item in its new bucket. */
  method Tally(bkt: Bucket, nonideal0: nat, ideal: nat) returns (bkt': Bucket, nonideal: nat)
    requires ideal > 0 && bkt.expandMult == ExpandMult(bkt.count, ideal)
    ensures bkt' == Bucket(bkt.hhHead, bkt.count + 1, ExpandMult(bkt.count + 1, ideal))
    ensures nonideal == nonideal0 + (if bkt.count + 1 > ideal then 1 else 0)
  {
    ExpandMultStep(bkt.count, ideal);
    bkt', nonideal := bkt.(count := bkt.count + 1), nonideal0;
    if bkt'.count > ideal {
      nonideal := nonideal + 1;
      if bkt'.count > bkt'.expandMult * ideal {
        bkt' := bkt'.(expandMult := bkt'.expandMult + 1);
      }
    }
  }

  /** Moves one item into the new bucket array (the expansion loop's body). */
  method MoveItem(e: Entry, bkts: array<Bucket>, nonideal0: nat, ideal: nat, h: HashFcn,
                  log2: nat, ghost chains: seq<seq<Entry>>, ghost all: set<Entry>)
    returns (nonideal: nat)
    requires BucketsLinked(bkts[..], chains, all) && Hashed(h, chains)
    requires ideal > 0 && Rated(bkts[..], chains, ideal) && nonideal0 == Excess(chains, ideal)
    requires e in all && Unchained(e, chains) && e.hashv == h(e.key)
    requires bkts.Length == Pow2(log2)
    modifies bkts, all`hhPrev, e`hhNext
    ensures var j := Spot(h, e, |chains|);
            var chains' := chains[j := [e] + chains[j]];
            && BucketsLinked(bkts[..], chains', all) && Rated(bkts[..], chains', ideal)
            && nonideal == Excess(chains', ideal)
  {
    hide ExpandMult, Excess, ChainLinked, Hashed, AllWithin, Unchained;
    MaskIsMod(e.hashv, log2);
    var j := BitAnd(e.hashv, bkts.Length - 1);
    ghost var c := [e] + chains[j];
    ExcessUpdate(chains, j, c, ideal);
    var bkt;
    bkt, nonideal := Tally(bkts[j], nonideal0, ideal);
    bkts[j] := bkt;
    PushFront(bkts, j, e, h, chains, all);
  }

  /** The expansion has moved the items of `seen`. */
  ghost predicate Expanding(bkts: seq<Bucket>, nonideal: nat, ideal: nat, h: HashFcn,
                            seen: seq<seq<Entry>>, chains: seq<seq<Entry>>, all: set<Entry>)
    requires ideal > 0 && Prefixes(seen, chains) && |chains| > 0
    reads all`hhPrev, all`hhNext
  {
    var cs := Redistributed(h, seen);
    && Pending(chains, seen, all)
    && BucketsLinked(bkts, cs, all) && Rated(bkts, cs, ideal)
    && nonideal == Excess(cs, ideal)
  }

  lemma NextUnchained(h: HashFcn, seen: seq<seq<Entry>>, chains: seq<seq<Entry>>, b: nat)
    requires Hashed(h, chains) && Prefixes(seen, chains)
    requires b < |chains| && |seen[b]| < |chains[b]|
    ensures Unchained(chains[b][|seen[b]|], Redistributed(h, seen))
    ensures Hashed(h, Redistributed(h, seen))
    ensures Spot(h, chains[b][|seen[b]|], |chains|) == b
  {
    PrefixesHashed(h, seen, chains);
    HashedRedistributed(h, seen);
    var cs := Redistributed(h, seen);
    forall j, i | 0 <= j < |cs| && 0 <= i < |cs[j]| ensures cs[j][i] != chains[b][|seen[b]|] {
      NotYetMoved(h, seen, chains, b, j, i);
    }
  }

  /** Moving the next item touches no link that is still to be followed. */
  lemma OthersPending(h: HashFcn, seen: seq<seq<Entry>>, chains: seq<seq<Entry>>, b: nat)
    requires Hashed(h, chains) && Prefixes(seen, chains)
    requires b < |chains| && |seen[b]| < |chains[b]|
    ensures forall b', i {:trigger chains[b'][i]} |
              0 <= b' < |chains| && |seen[b']| <= i < |chains[b']| && (b' != b || i != |seen[b]|) ::
              chains[b'][i] != chains[b][|seen[b]|]
  {
    assert Spot(h, chains[b][|seen[b]|], |chains|) == b;
  }

  /** Moves the next item of the chain at `b`. */
  method MoveNext(thh: Entry, bkts: array<Bucket>, nonideal0: nat, ideal: nat, h: HashFcn,
                  log2: nat, ghost b: nat, ghost seen: seq<seq<Entry>>,
                  ghost chains: seq<seq<Entry>>, ghost all: set<Entry>)
    returns (nonideal: nat, nxt: Entry?)
    requires |chains| > 0 && Hashed(h, chains) && Prefixes(seen, chains) && ideal > 0
    requires b < |chains| && |seen[b]| < |chains[b]| && thh == chains[b][|seen[b]|]
    requires bkts.Length == Pow2(log2) == 2 * |chains|
    requires Expanding(bkts[..], nonideal0, ideal, h, seen, chains, all)
    requires thh in all && thh.hashv == h(thh.key)
    modifies bkts, all`hhPrev, all`hhNext
    ensures var seen' := seen[b := seen[b] + [thh]];
            && Prefixes(seen', chains)
            && Expanding(bkts[..], nonideal, ideal, h, seen', chains, all)
            && nxt == At(chains[b], |seen'[b]|)
  {
    hide BucketsLinked, Rated, Excess, Redistributed, Hashed, AllWithin;
    NextUnchained(h, seen, chains, b);
    RedistributedStep(h, seen, b, thh);
    OthersPending(h, seen, chains, b);
    nxt := thh.hhNext;
    nonideal := MoveItem(thh, bkts, nonideal0, ideal, h, log2, Redistributed(h, seen), all);
  }

  /** Moves the whole chain at `b` (the expansion's inner loop). */
  method MoveChain(hd: Entry?, bkts: array<Bucket>, nonideal0: nat, ideal: nat, h: HashFcn,
                   log2: nat, ghost b: nat, ghost seen0: seq<seq<Entry>>,
                   ghost chains: seq<seq<Entry>>, ghost all: set<Entry>)
    returns (nonideal: nat)
    requires |chains| > 0 && Hashed(h, chains) && Prefixes(seen0, chains) && ideal > 0
    requires b < |chains| && seen0[b] == [] && hd == At(chains[b], 0)
    requires bkts.Length == Pow2(log2) == 2 * |chains|
    requires Expanding(bkts[..], nonideal0, ideal, h, seen0, chains, all)
    requires AllWithin(chains, all) && forall e | e in all :: e.hashv == h(e.key)
    modifies bkts, all`hhPrev, all`hhNext
    ensures Prefixes(seen0[b := chains[b]], chains)
    ensures Expanding(bkts[..], nonideal, ideal, h, seen0[b := chains[b]], chains, all)
  {
    hide Expanding, Hashed;
    var thh := hd;
    ghost var seen := seen0;
    nonideal := nonideal0;
    while thh != null
      invariant Prefixes(seen, chains)
      invariant Expanding(bkts[..], nonideal, ideal, h, seen, chains, all)
      invariant seen == seen0[b := seen[b]] && thh == At(chains[b], |seen[b]|)
      decreases |chains[b]| - |seen[b]|
    {
      ghost var e: Entry := thh;
      nonideal, thh := MoveNext(thh, bkts, nonideal, ideal, h, log2, b, seen, chains, all);
      seen := seen[b := seen[b] + [e]];
    }
    assert seen[b] == chains[b];
  }

  /** Moves every item of the old buckets into the new ones (the expansion's outer loop). */
  method MoveAll(bkts: array<Bucket>, newBkts: array<Bucket>, ideal: nat, h: HashFcn, log2: nat,
                 ghost chains: seq<seq<Entry>>, ghost all: set<Entry>)
    returns (nonideal: nat)
    requires |chains| > 0 && Hashed(h, chains) && ideal > 0 && bkts != newBkts
    requires BucketsLinked(bkts[..], chains, all)
    requires newBkts.Length == Pow2(log2) == 2 * |chains|
    requires forall j | 0 <= j < newBkts.Length :: newBkts[j] == EMPTY_BUCKET
    requires forall e | e in all :: e.hashv == h(e.key)
    modifies newBkts, all`hhPrev, all`hhNext
    ensures BucketsLinked(newBkts[..], Redistributed(h, chains), all)
    ensures Rated(newBkts[..], Redistributed(h, chains), ideal)
    ensures nonideal == Excess(Redistributed(h, chains), ideal)
  {
    hide Hashed, ChainLinked;
    nonideal := 0;
    ghost var seen := Empty(|chains|);
    ChainHeads(bkts[..], chains, all);
    StartExpanding(bkts[..], newBkts[..], ideal, h, chains, all);
    var i := 0;
    while i < bkts.Length
      invariant 0 <= i <= bkts.Length && Prefixes(seen, chains)
      invariant forall b | 0 <= b < |chains| :: seen[b] == if b < i then chains[b] else []
      invariant Expanding(newBkts[..], nonideal, ideal, h, seen, chains, all)
    {
      nonideal := MoveChain(bkts[i].hhHead, newBkts, nonideal, ideal, h, log2, i, seen, chains, all);
      seen := seen[i := chains[i]];
      i := i + 1;
    }
    assert seen == chains;
  }

  /** Every bucket points at the first item of its chain. */
  ghost predicate BucketHeads(bkts: seq<Bucket>, chains: seq<seq<Entry>>) {
    && |bkts| == |chains|
    && forall b {:trigger bkts[b]} | 0 <= b < |chains| :: bkts[b].hhHead == At(chains[b], 0)
  }

  lemma ChainHeads(bkts: seq<Bucket>, chains: seq<seq<Entry>>, all: set<Entry>)
    requires BucketsLinked(bkts, chains, all)
    ensures BucketHeads(bkts, chains)
  {
  }

  lemma {:induction false} ExcessEmpty(n: nat, ideal: nat)
    ensures Excess(Empty(n), ideal) == 0
  {
    if n > 0 {
      ExcessEmpty(n - 1, ideal);
      assert Empty(n)[..n - 1] == Empty(n - 1);
    }
  }

  lemma StartExpanding(bkts: seq<Bucket>, newBkts: seq<Bucket>, ideal: nat, h: HashFcn,
                       chains: seq<seq<Entry>>, all: set<Entry>)
    requires |chains| > 0 && ideal > 0 && BucketsLinked(bkts, chains, all)
    requires |newBkts| == 2 * |chains|
    requires forall j | 0 <= j < |newBkts| :: newBkts[j] == EMPTY_BUCKET
    ensures Prefixes(Empty(|chains|), chains)
    ensures Expanding(newBkts, 0, ideal, h, Empty(|chains|), chains, all)
  {
    RedistributedEmpty(h, |chains|);
    ExcessEmpty(2 * |chains|, ideal);
  }
}
