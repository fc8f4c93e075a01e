/** The intrusive hash table. The caller's head pointer and the table record it leads to
    are one object here; `head == null` means that the table record has been freed. */
module UtHash {
  import opened Bits
  import opened Entries
  import opened Chains
  import opened Buckets
  import opened KeyMaps
  import opened Lookups
  import AppList
  import MergeSort
  import StableSorting

  const INITIAL_NUM_BUCKETS: nat := 32
  const INITIAL_NUM_BUCKETS_LOG2: nat := 5

  lemma InitialBuckets()
    ensures Pow2(INITIAL_NUM_BUCKETS_LOG2) == INITIAL_NUM_BUCKETS
  {
    assert Pow2(5) == 2 * Pow2(4) == 4 * Pow2(3) == 8 * Pow2(2);
  }

  /** Which allocation, if any, fails while a table is made. */
  datatype MakeOutcome = AllMade | TableFails | BucketsFail | BloomFails

  /** Everything the head pointer and the table record hold. */
  datatype TableState = TableState(
    head: Entry?, tail: Entry?, list: seq<Entry>, chains: seq<seq<Entry>>,
    buckets: seq<Bucket>, numBuckets: nat, log2NumBuckets: nat, numItems: nat,
    idealChainMaxlen: nat, nonidealItems: nat, ineffExpands: nat, noexpand: bool,
    bloomBv: seq<bool>)

  /** The chain-length bound the growth policy keeps. */
  ghost predicate Bounded(bkt: Bucket, ideal: nat) {
    || bkt.count < (bkt.expandMult + 1) * CAPACITY_THRESH
    || bkt.count <= (bkt.expandMult + 1) * ideal
  }

  ghost predicate AllBounded(bkts: seq<Bucket>, ideal: nat) {
    forall b {:trigger bkts[b]} | 0 <= b < |bkts| :: Bounded(bkts[b], ideal)
  }

  class HashTable {
    const hashFcn: HashFcn
    const bloomOn: bool      // HASH_BLOOM is defined
    const bloomNbits: nat    // its value

    var head: Entry?
    var tail: Entry?
    var buckets: array<Bucket>
    var numBuckets: nat
    var log2NumBuckets: nat
    var numItems: nat
    var idealChainMaxlen: nat
    var nonidealItems: nat
    var ineffExpands: nat
    var noexpand: bool
    var bloomBv: array<bool>

    ghost var list: seq<Entry>           // the items in application order
    ghost var chains: seq<seq<Entry>>    // the items of every bucket in chain order

    ghost function State(): TableState
      reads this, buckets, bloomBv
    {
      TableState(head, tail, list, chains, buckets[..], numBuckets, log2NumBuckets, numItems,
                 idealChainMaxlen, nonidealItems, ineffExpands, noexpand, bloomBv[..])
    }

    ghost function Members(): set<Entry>
      reads this`list
    {
      set e | e in list
    }

    /** The application-order list is properly linked from `head` to `tail`. */
    ghost predicate ListOk()
      reads this`head, this`tail, this`list, list`next, list`prev
    {
      AppLinked(list) && Distinct(list) && head == At(list, 0) && tail == Last(list)
    }

    ghost predicate Hashes()
      reads this`list, list`hashv
    {
      forall e {:trigger e in list} | e in list :: e.hashv == hashFcn(e.key)
    }

    ghost predicate Sized()
      reads this`buckets, this`numBuckets, this`log2NumBuckets, this`chains
    {
      buckets.Length == numBuckets == |chains| == Pow2(log2NumBuckets)
    }

    /** The chains are properly linked through the buckets, whose counts are right. */
    ghost predicate ChainsOk()
      reads this`buckets, this`numBuckets, this`log2NumBuckets, this`chains, this`list
      reads buckets, list`hhPrev, list`hhNext
    {
      && Sized()
      && BucketsLinked(buckets[..], chains, Members())
      && Counted(buckets[..], chains)
    }

    ghost predicate Policy()
      reads this`buckets, this`idealChainMaxlen, this`ineffExpands, this`noexpand, buckets
    {
      && noexpand == (ineffExpands > 1)
      && (!noexpand ==> AllBounded(buckets[..], idealChainMaxlen))
    }

    /** The filter's bit is set for every one of `items`. */
    ghost predicate Bloomed(items: seq<Entry>)
      reads this`bloomBv, bloomBv
    {
      bloomOn ==>
        && bloomBv.Length == Pow2(bloomNbits)
        && forall e {:trigger e in items} | e in items ::
             bloomBv[hashFcn(e.key) % Pow2(bloomNbits)]
    }

    /** The table proper, as it is while it holds exactly `items`. */
    ghost predicate TableOk(items: seq<Entry>)
      reads this, buckets, bloomBv, list`hhPrev, list`hhNext
    {
      && ChainsOk() && Placed(hashFcn, items, chains)
      && Policy() && Bloomed(items) && numItems == |items|
    }

    ghost predicate Valid()
      reads this, buckets, bloomBv
      reads list`hashv, list`next, list`prev, list`hhPrev, list`hhNext
    {
      if head == null then list == [] && chains == []
      else ListOk() && Hashes() && TableOk(list)
    }

    /** Item `i` of the list is being added: it is in the list but in no chain yet. */
    ghost predicate Joining(add: Entry, i: nat)
      reads this, buckets, bloomBv
      reads list`hashv, list`next, list`prev, list`hhPrev, list`hhNext
    {
      && i < |list| && list[i] == add
      && ListOk() && Hashes() && TableOk(RemoveAt(list, i))
    }

    /** An empty table: a null head pointer. */
    constructor (hashFcn: HashFcn, bloomOn: bool, bloomNbits: nat)
      ensures Valid() && list == [] && head == null
      ensures this.hashFcn == hashFcn && this.bloomOn == bloomOn && this.bloomNbits == bloomNbits
      ensures fresh(buckets) && fresh(bloomBv)
    {
      this.hashFcn, this.bloomOn, this.bloomNbits := hashFcn, bloomOn, bloomNbits;
      head, tail := null, null;
      buckets := new Bucket[0];
      bloomBv := new bool[0];
      numBuckets, log2NumBuckets, numItems := 0, 0, 0;
      idealChainMaxlen, nonidealItems, ineffExpands, noexpand := 0, 0, 0, false;
      list, chains := [], [];
    }

    /** HASH_EXPAND_BUCKETS: doubles the number of buckets, unless the allocation fails. */
    method ExpandBuckets(allocOk: bool) returns (oomed: bool)
      requires ChainsOk() && Hashed(hashFcn, chains) && Hashes() && numItems > 0
      modifies this`buckets, this`numBuckets, this`log2NumBuckets, this`idealChainMaxlen
      modifies this`nonidealItems, this`ineffExpands, this`noexpand, this`chains
      modifies list`hhPrev, list`hhNext
      ensures oomed == !allocOk && ChainsOk()
      ensures oomed ==> State() == old(State()) && buckets == old(buckets)
      ensures !oomed ==>
        fresh(buckets) && Grown(old(chains), old(numBuckets), old(log2NumBuckets), old(ineffExpands), old(noexpand))
      ensures !oomed ==> forall key ::
                Lookup(hashFcn, chains, key) == Oldest(old(chains)[hashFcn(key) % old(numBuckets)], key)
    {
      hide BucketsLinked, Rated, Counted, Hashed, Excess, CeilDiv, Pow2, ListOk;
      oomed := !allocOk;
      if allocOk {
        var newBuckets := new Bucket[2 * numBuckets](_ => EMPTY_BUCKET);
        var ideal := IdealChainLength();
        var nonideal := MoveAll(buckets, newBuckets, ideal, hashFcn, log2NumBuckets + 1,
                                chains, Members());
        RatedIsCounted(newBuckets[..], Redistributed(hashFcn, chains), ideal);
        Adopt(newBuckets, ideal, nonideal);
        ChainHeads(buckets[..], chains, Members());
        forall key ensures Lookup(hashFcn, chains, key) == Oldest(old(chains)[hashFcn(key) % old(numBuckets)], key) {
          ExpansionFinds(hashFcn, old(chains), key);
        }
      }
    }

    /** The ideal chain length for twice the number of buckets, by shift and mask. */
    method IdealChainLength() returns (ideal: nat)
      requires Sized()
      ensures Pow2(log2NumBuckets + 1) == 2 * numBuckets
      ensures ideal == CeilDiv(numItems, 2 * numBuckets)
      ensures numItems > 0 ==> ideal > 0
    {
      ideal := Shr(numItems, log2NumBuckets + 1)
               + (if BitAnd(numItems, 2 * numBuckets - 1) != 0 then 1 else 0);
      IdealIsCeil(numItems, log2NumBuckets + 1);
    }

    /** Installs the new bucket array and judges how effective the expansion was. */
    method Adopt(newBuckets: array<Bucket>, ideal: nat, nonideal: nat)
      requires Sized() && newBuckets.Length == Pow2(log2NumBuckets + 1) == 2 * numBuckets
      modifies this`buckets, this`numBuckets, this`log2NumBuckets, this`idealChainMaxlen
      modifies this`nonidealItems, this`ineffExpands, this`noexpand, this`chains
      ensures Sized() && buckets == newBuckets && numBuckets == 2 * old(numBuckets)
      ensures log2NumBuckets == old(log2NumBuckets) + 1
      ensures idealChainMaxlen == ideal && nonidealItems == nonideal
      ensures chains == Redistributed(hashFcn, old(chains))
      ensures ineffExpands == (if nonidealItems > numItems / 2 then old(ineffExpands) + 1 else 0)
      ensures noexpand == (old(noexpand) || ineffExpands > 1)
    {
      idealChainMaxlen, nonidealItems := ideal, nonideal;
      numBuckets := numBuckets * 2;
      log2NumBuckets := log2NumBuckets + 1;
      buckets := newBuckets;
      chains := Redistributed(hashFcn, chains);
      ShrIsDiv(numItems, 1);
      ineffExpands := if nonidealItems > Shr(numItems, 1) then ineffExpands + 1 else 0;
      if ineffExpands > 1 {
        noexpand := true;
      }
    }

    /** One more item in bucket `b` makes it reach the (possibly delayed) threshold. */
    ghost predicate Triggers(b: nat)
      requires b < buckets.Length
      reads this`buckets, this`noexpand, buckets
    {
      buckets[b].count + 1 >= (buckets[b].expandMult + 1) * CAPACITY_THRESH && !noexpand
    }

    /** Counts `add` in bucket `b` and links it in at the front. */
    method Enter(b: nat, add: Entry)
      requires ChainsOk() && Hashed(hashFcn, chains)
      requires add in Members() && Unchained(add, chains) && b == Spot(hashFcn, add, numBuckets)
      modifies this`chains, buckets, list`hhPrev, list`hhNext
      ensures ChainsOk() && chains == old(Pushed(b, add)) && Hashed(hashFcn, chains)
      ensures buckets[..] == old(buckets[..])[b := Bucket(add, old(buckets[b].count) + 1,
                                                          old(buckets[b].expandMult))]
    {
      hide Hashed, ChainLinked, AllWithin;
      buckets[b] := buckets[b].(count := buckets[b].count + 1);
      PushFront(buckets, b, add, hashFcn, chains, Members());
      PushedHashed(hashFcn, chains, add);
      chains := Pushed(b, add);
    }

    /** Takes back what `Enter` did. */
    method Leave(b: nat, add: Entry, ghost was: seq<seq<Entry>>, ghost bkts: seq<Bucket>)
      requires ChainsOk() && Hashed(hashFcn, chains)
      requires b < |was| == |bkts| && chains == was[b := [add] + was[b]] && bkts[b].count == |was[b]|
      requires bkts[b].hhHead == At(was[b], 0)
      requires buckets[..] == bkts[b := Bucket(add, bkts[b].count + 1, bkts[b].expandMult)]
      modifies this`chains, buckets, list`hhPrev, list`hhNext
      ensures ChainsOk() && chains == was && buckets[..] == bkts
    {
      hide Hashed, ChainLinked, AllWithin;
      assert Unchain(chains[b], 0) == was[b];
      DelInBkt(buckets, b, add, hashFcn, chains, 0, Members());
      assert chains[b := was[b]] == was;
      chains := was;
    }

    /** HASH_ADD_TO_BKT: puts `add` into bucket `b`, expanding the table when it gets full. */
    method AddToBkt(b: nat, add: Entry, allocOk: bool) returns (oomed: bool)
      requires ChainsOk() && Hashed(hashFcn, chains) && Hashes() && numItems > 0
      requires add in Members() && Unchained(add, chains) && b == Spot(hashFcn, add, numBuckets)
      modifies this`buckets, this`numBuckets, this`log2NumBuckets, this`idealChainMaxlen
      modifies this`nonidealItems, this`ineffExpands, this`noexpand, this`chains
      modifies buckets, list`hhPrev, list`hhNext
      ensures ChainsOk()
      ensures oomed == (old(Triggers(b)) && !allocOk)
      ensures oomed ==> State() == old(State()) && buckets == old(buckets)
      ensures !old(Triggers(b)) ==> buckets == old(buckets) && old(State()).(
                  chains := old(Pushed(b, add)),
                  buckets := old(buckets[..])[b := Bucket(add, old(buckets[b].count) + 1,
                                                          old(buckets[b].expandMult))]) == State()
      ensures !oomed && old(Triggers(b)) ==>
        && fresh(buckets)
        && Grown(old(Pushed(b, add)), old(numBuckets), old(log2NumBuckets), old(ineffExpands), old(noexpand))
    {
      hide Hashed, BucketsLinked, Grown, ListOk;
      oomed := false;
      ghost var was, bkts := chains, buckets[..];
      ChainHeads(bkts, was, Members());
      Enter(b, add);
      if buckets[b].count >= (buckets[b].expandMult + 1) * CAPACITY_THRESH && !noexpand {
        oomed := ExpandBuckets(allocOk);
        if oomed {
          Leave(b, add, was, bkts);
        }
      }
    }

    ghost function Pushed(b: nat, add: Entry): seq<seq<Entry>>
      requires b < |chains|
      reads this`chains
    {
      chains[b := [add] + chains[b]]
    }

    /** The outcome of an expansion of the chains `was`. */
    ghost predicate Grown(was: seq<seq<Entry>>, oldBuckets: nat, oldLog2: nat, oldIneff: nat, oldNoexpand: bool)
      reads this, buckets
    {
      && |was| > 0 && numBuckets == 2 * oldBuckets > 0 && log2NumBuckets == oldLog2 + 1
      && chains == Redistributed(hashFcn, was) && BucketHeads(buckets[..], chains)
      && idealChainMaxlen == CeilDiv(numItems, numBuckets) && idealChainMaxlen > 0
      && Rated(buckets[..], chains, idealChainMaxlen)
      && nonidealItems == Excess(chains, idealChainMaxlen)
      && ineffExpands == (if nonidealItems > numItems / 2 then oldIneff + 1 else 0)
      && noexpand == (oldNoexpand || ineffExpands > 1)
    }

    /** HASH_ROLLBACK_BKT: makes a failed addition look like an item that is alone in its
        bucket, so that it can be deleted like any other. */
    method RollbackBkt(b: nat, add: Entry)
      requires Sized() && BucketsLinked(buckets[..], chains, Members()) && Unchained(add, chains)
      requires b == Spot(hashFcn, add, numBuckets)
      modifies buckets, add`hhPrev, add`hhNext
      ensures BucketsLinked(buckets[..], chains, Members())
      ensures buckets[..] == old(buckets[..])[b := old(buckets[b]).(count := old(buckets[b].count) + 1)]
      ensures add.hhPrev == null && add.hhNext == null
    {
      buckets[b] := buckets[b].(count := buckets[b].count + 1);
      add.hhNext := null;
      add.hhPrev := null;
    }

    /** What is left when the table is freed: a null head pointer. */
    ghost function Freed(st: TableState): TableState {
      st.(head := null, tail := null, list := [], chains := [], buckets := [], bloomBv := [])
    }

    /** What HASH_DELETE_HH leaves of a table of at least two items. */
    ghost function Deleted(del: Entry, i: nat, m: nat): TableState
      requires Sized() && i < |list| && |list| > 1 && numItems > 0
      requires var b := Spot(hashFcn, del, numBuckets);
               m <= |chains[b]| && buckets[b].count > 0
      reads this, buckets, bloomBv
    {
      var b := Spot(hashFcn, del, numBuckets);
      var c := Unchain(chains[b], m);
      var l := RemoveAt(list, i);
      State().(list := l, head := At(l, 0), tail := Last(l), chains := chains[b := c],
               numItems := numItems - 1,
               buckets := buckets[..][b := Bucket(At(c, 0), buckets[b].count - 1, buckets[b].expandMult)])
    }

    /** The handle fits `DeleteHH`: `m` is the item's place in its chain, or the chain's
        length for an item that `RollbackBkt` has prepared. */
    ghost predicate Removable(del: Entry, i: nat, m: nat)
      reads this, buckets
      reads list`hashv, list`next, list`prev, list`hhPrev, list`hhNext
    {
      && ListOk() && i < |list| && list[i] == del && del.hashv == hashFcn(del.key)
      && Sized() && BucketsLinked(buckets[..], chains, Members()) && Hashed(hashFcn, chains)
      && var b := Spot(hashFcn, del, numBuckets);
         Deletable(del, chains[b], m) && buckets[b].count > 0 && numItems > 0
    }

    /** HASH_DELETE_HH's patching of the application-order list. */
    method UnlinkInList(del: Entry, ghost i: nat)
      requires ListOk() && i < |list| && list[i] == del && |list| > 1
      modifies this`head, this`tail, this`list, list`next, list`prev
      ensures ListOk() && list == old(RemoveAt(list, i))
    {
      DistinctRemoved(list, i);
      head, tail := AppList.Unlink(del, head, tail, list, i);
      list := RemoveAt(list, i);
    }

    /** HASH_DELETE_HH's patching of the bucket. */
    method UnlinkInBucket(del: Entry, ghost m: nat, ghost all: set<Entry>)
      requires Sized() && BucketsLinked(buckets[..], chains, all) && Hashed(hashFcn, chains)
      requires del.hashv == hashFcn(del.key) && numItems > 0
      requires var b := Spot(hashFcn, del, numBuckets);
               Deletable(del, chains[b], m) && buckets[b].count > 0
      modifies this`chains, this`numItems, buckets, all`hhPrev, all`hhNext
      ensures var b := Spot(hashFcn, del, numBuckets);
              && chains == old(chains[b := Unchain(chains[b], m)]) && numItems == old(numItems) - 1
              && buckets[..] == old(buckets[..][b := Bucket(At(Unchain(chains[b], m), 0),
                                                          buckets[b].count - 1, buckets[b].expandMult)])
      ensures BucketsLinked(buckets[..], chains, all)
    {
      hide Hashed, BucketsLinked, BitAnd, Unchain;
      MaskIsMod(del.hashv, log2NumBuckets);
      var b := BitAnd(del.hashv, numBuckets - 1);
      DelInBkt(buckets, b, del, hashFcn, chains, m, all);
      chains := chains[b := Unchain(chains[b], m)];
      numItems := numItems - 1;
    }

    /** The branch of HASH_DELETE_HH for a table of at least two items. */
    method UnlinkBoth(del: Entry, ghost i: nat, ghost m: nat)
      requires Removable(del, i, m) && |list| > 1
      modifies this, buckets, list`next, list`prev, list`hhPrev, list`hhNext
      ensures State() == old(Deleted(del, i, m)) && ListOk() && buckets == old(buckets)
      ensures BucketsLinked(buckets[..], chains, old(Members())) && bloomBv == old(bloomBv)
    {
      hide Hashed, BucketsLinked, Distinct, RemoveAt, Pow2, AppLinked, Unchain, Spot;
      ghost var all := Members();
      UnlinkInList(del, i);
      UnlinkInBucket(del, m, all);
    }

    /** Frees the table record with its arrays. */
    method FreeTable()
      modifies this
      ensures State() == Freed(old(State())) && fresh(buckets) && fresh(bloomBv)
    {
      buckets, bloomBv := new Bucket[0], new bool[0];
      head, tail := null, null;
      list, chains := [], [];
    }

    /** HASH_DELETE_HH: unlinks `del` from both structures, or frees the table when `del` is
        all it holds. */
    method DeleteHH(del: Entry, ghost i: nat, ghost m: nat)
      requires Removable(del, i, m)
      modifies this, buckets, list`next, list`prev, list`hhPrev, list`hhNext
      ensures old(|list|) == 1 ==>
        && State() == Freed(old(State())) && fresh(buckets) && fresh(bloomBv)
      ensures old(|list|) > 1 ==>
        && State() == old(Deleted(del, i, m)) && ListOk() && buckets == old(buckets)
        && BucketsLinked(buckets[..], chains, old(Members())) && bloomBv == old(bloomBv)
    {
      hide Hashed, BucketsLinked, Deletable, Pow2, Deleted, State, Freed;
      if del.prev == null && del.next == null {
        assert |list| == 1;
        FreeTable();
      } else {
        hide *;
        UnlinkBoth(del, i, m);
      }
    }

    /** Undoes an addition whose expansion failed: rolls the bucket back and deletes the
        item again. The table is not freed on this path. */
    method UndoAdd(b: nat, add: Entry, ghost i: nat)
      requires ListOk() && Hashes() && i < |list| && list[i] == add && |list| > 1
      requires ChainsOk() && Placed(hashFcn, RemoveAt(list, i), chains) && numItems == |list|
      requires b == Spot(hashFcn, add, numBuckets)
      modifies this, buckets, list`next, list`prev, list`hhPrev, list`hhNext
      ensures State() == old(State().(list := RemoveAt(list, i), head := At(RemoveAt(list, i), 0),
                                      tail := Last(RemoveAt(list, i)), numItems := numItems - 1))
      ensures ListOk() && ChainsOk() && buckets == old(buckets) && bloomBv == old(bloomBv)
    {
      hide Hashed, BucketsLinked, Distinct, RemoveAt, Pow2, AppLinked, Spot, Placed, Counted, Freed;
      NotChained(hashFcn, list, i, chains);
      assert list[i] in list;
      ghost var items, bkts := RemoveAt(list, i), buckets[..];
      ChainHeads(bkts, chains, Members());
      RollbackBkt(b, add);
      DeleteHH(add, i, |chains[b]|);
      assert buckets[..] == bkts;
      Narrow(bkts, chains, old(Members()), Members());
    }

    /** The filter has gained the bit of `add` and no other. */
    ghost predicate BitAdded(add: Entry, was: seq<bool>)
      reads this`bloomBv, bloomBv
    {
      && bloomBv.Length == |was|
      && forall j | 0 <= j < |was| ::
           bloomBv[j] == (was[j] || (bloomOn && j == hashFcn(add.key) % Pow2(bloomNbits)))
    }

    /** HASH_BLOOM_ADD. */
    method BloomAdd(add: Entry, ghost items: seq<Entry>)
      requires Bloomed(items) && add.hashv == hashFcn(add.key)
      modifies bloomBv
      ensures Bloomed(items) && Bloomed([add]) && BitAdded(add, old(bloomBv[..]))
    {
      if bloomOn {
        MaskIsMod(add.hashv, bloomNbits);
        bloomBv[BitAnd(add.hashv, Pow2(bloomNbits) - 1)] := true;
      }
    }

    lemma PlacedJoined(add: Entry, i: nat, was: seq<seq<Entry>>)
      requires i < |list| && list[i] == add && Distinct(list)
      requires Placed(hashFcn, RemoveAt(list, i), was)
      ensures var b := Spot(hashFcn, add, |was|);
              var pushed := was[b := [add] + was[b]];
              && Placed(hashFcn, list, pushed)
              && Placed(hashFcn, list, Redistributed(hashFcn, pushed))
    {
      hide Placed, Hashed, Redistributed, Distinct, RemoveAt, InsertAt, Spot;
      RemoveAtMembers(list, i);
      RemoveInsert(list, i);
      PlacedAdd(hashFcn, RemoveAt(list, i), was, i, add);
      var b := Spot(hashFcn, add, |was|);
      PlacedRedistributed(hashFcn, list, was[b := [add] + was[b]]);
    }

    lemma RatedIsBounded(bkts: seq<Bucket>, cs: seq<seq<Entry>>, ideal: nat)
      requires ideal > 0 && Rated(bkts, cs, ideal)
      ensures AllBounded(bkts, ideal)
    {
      forall b | 0 <= b < |bkts| ensures Bounded(bkts[b], ideal) {
        ExpandMultRange(|cs[b]|, ideal);
      }
    }

    /** The first item of a table never makes it expand. */
    lemma LoneItemFits(add: Entry, i: nat)
      requires Joining(add, i)
      ensures |list| == 1 ==> !Triggers(Spot(hashFcn, add, numBuckets))
    {
      var c := chains[Spot(hashFcn, add, numBuckets)];
      assert |list| == 1 ==> RemoveAt(list, i) == [] && c == [];
    }

    lemma JoiningFacts(add: Entry, i: nat)
      requires Joining(add, i)
      ensures add in Members() && Unchained(add, chains) && Hashed(hashFcn, chains)
      ensures add.hashv == hashFcn(add.key) && |list| == numItems + 1
      ensures BitAnd(add.hashv, numBuckets - 1) == Spot(hashFcn, add, numBuckets)
      ensures var pushed := Pushed(Spot(hashFcn, add, numBuckets), add);
              && Placed(hashFcn, list, pushed)
              && Placed(hashFcn, list, Redistributed(hashFcn, pushed))
    {
      NotChained(hashFcn, list, i, chains);
      assert list[i] in list;
      MaskIsMod(add.hashv, log2NumBuckets);
      PlacedJoined(add, i, chains);
    }

    /** The table has taken `add` into its chains, growing if that was due. */
    ghost predicate Entered(add: Entry, b: nat, grew: bool, was: TableState)
      requires b < |was.chains|
      reads this, buckets
    {
      var pushed := was.chains[b := [add] + was.chains[b]];
      if grew then Grown(pushed, was.numBuckets, was.log2NumBuckets, was.ineffExpands, was.noexpand)
      else
        && chains == pushed && numBuckets == was.numBuckets && log2NumBuckets == was.log2NumBuckets
        && idealChainMaxlen == was.idealChainMaxlen && nonidealItems == was.nonidealItems
        && ineffExpands == was.ineffExpands && noexpand == was.noexpand
        && b < |was.buckets|
        && buckets[..] == was.buckets[b := Bucket(add, was.buckets[b].count + 1, was.buckets[b].expandMult)]
    }

    lemma PolicyKept(add: Entry, b: nat, grew: bool, was: TableState)
      requires b < |was.chains| == |was.buckets| && Entered(add, b, grew, was)
      requires was.noexpand == (was.ineffExpands > 1)
      requires !was.noexpand ==> AllBounded(was.buckets, was.idealChainMaxlen)
      requires grew ==> !was.noexpand
      requires !grew ==>
        was.noexpand || was.buckets[b].count + 1 < (was.buckets[b].expandMult + 1) * CAPACITY_THRESH
      ensures Policy()
    {
      if grew {
        RatedIsBounded(buckets[..], chains, idealChainMaxlen);
      }
    }

    /** The bucket half of an addition, before a failure is undone. */
    method JoinBucket(add: Entry, ghost i: nat, allocOk: bool) returns (b: nat, oomed: bool)
      requires Joining(add, i)
      modifies this`numItems, this`buckets, this`numBuckets, this`log2NumBuckets
      modifies this`idealChainMaxlen, this`nonidealItems, this`ineffExpands, this`noexpand
      modifies this`chains, buckets, list`hhPrev, list`hhNext
      ensures b == Spot(hashFcn, add, old(numBuckets)) && oomed == (old(Triggers(b)) && !allocOk)
      ensures ChainsOk() && numItems == old(numItems) + 1 == |list|
      ensures buckets == old(buckets) || fresh(buckets)
      ensures oomed ==> State() == old(State()).(numItems := numItems) && buckets == old(buckets)
      ensures !oomed ==> Placed(hashFcn, list, chains) && Policy()
      ensures !oomed ==> Entered(add, b, old(Triggers(b)), old(State()))
      ensures old(noexpand) ==> noexpand && numBuckets == old(numBuckets)
    {
      hide Placed, BucketsLinked, Counted, Redistributed, AllBounded, Hashed, Unchained;
      hide ListOk, Spot, BitAnd, Pow2, Rated, Excess, CeilDiv, Bloomed, RemoveAt;
      JoiningFacts(add, i);
      ghost var was := State();
      numItems := numItems + 1;
      b := BitAnd(add.hashv, numBuckets - 1);
      oomed := AddToBkt(b, add, allocOk);
      if !oomed {
        PolicyKept(add, b, old(Triggers(b)), was);
      }
    }

    /** The last step of a successful addition. */
    method FinishAdd(add: Entry, ghost i: nat)
      requires i < |list| && list[i] == add && head != null
      requires ListOk() && Hashes() && ChainsOk() && Placed(hashFcn, list, chains) && Policy()
      requires numItems == |list| && Bloomed(RemoveAt(list, i))
      modifies bloomBv
      ensures Valid() && BitAdded(add, old(bloomBv[..]))
    {
      hide AppLinked, ChainsOk, Placed, Policy, BitAdded;
      assert list[i] in list;
      RemoveAtMembers(list, i);
      BloomAdd(add, RemoveAt(list, i));
      assert forall e {:trigger e in list} | e in list :: e in RemoveAt(list, i) || e in [add];
    }

    /** HASH_ADD_TO_TABLE: the bucket half of an addition, undone when memory runs out. */
    method AddToTable(add: Entry, ghost i: nat, allocOk: bool) returns (oomed: bool)
      requires Joining(add, i)
      modifies this, buckets, bloomBv, list`next, list`prev, list`hhPrev, list`hhNext
      ensures oomed == (old(Triggers(Spot(hashFcn, add, numBuckets))) && !allocOk)
      ensures !oomed ==> Valid() && list == old(list) && BitAdded(add, old(bloomBv[..]))
      ensures !oomed ==> var b := Spot(hashFcn, add, old(numBuckets));
                         Entered(add, b, old(Triggers(b)), old(State()))
      ensures (buckets == old(buckets) || fresh(buckets)) && bloomBv == old(bloomBv)
      ensures oomed ==>
        && TableOk(list) && ListOk() && |list| > 0 && buckets == old(buckets) && bloomBv == old(bloomBv)
        && State() == old(State().(list := RemoveAt(list, i), head := At(RemoveAt(list, i), 0),
                                   tail := Last(RemoveAt(list, i))))
      ensures old(noexpand) ==> noexpand && numBuckets == old(numBuckets)
    {
      hide Placed, AllBounded, Bloomed, Distinct, AppLinked, RemoveAt, Spot, Entered, BitAdded;
      LoneItemFits(add, i);
      var b;
      b, oomed := JoinBucket(add, i, allocOk);
      if oomed {
        UndoAdd(b, add, i);
      } else {
        FinishAdd(add, i);
      }
    }

    lemma FreshBounded(bkts: seq<Bucket>, ideal: nat)
      requires forall j | 0 <= j < |bkts| :: bkts[j] == EMPTY_BUCKET
      ensures AllBounded(bkts, ideal)
    {
    }

    ghost function EmptyBuckets(): (bkts: seq<Bucket>)
      ensures |bkts| == INITIAL_NUM_BUCKETS && forall j | 0 <= j < |bkts| :: bkts[j] == EMPTY_BUCKET
    {
      seq(INITIAL_NUM_BUCKETS, _ => EMPTY_BUCKET)
    }

    ghost function NoBits(): (bits: seq<bool>)
      ensures |bits| == (if bloomOn then Pow2(bloomNbits) else 0) && forall j | 0 <= j < |bits| :: !bits[j]
    {
      seq(if bloomOn then Pow2(bloomNbits) else 0, _ => false)
    }

    /** The table record as it is made for a first item. */
    ghost function NewTable(): TableState {
      TableState(null, null, [], Empty(INITIAL_NUM_BUCKETS), EmptyBuckets(), INITIAL_NUM_BUCKETS,
                 INITIAL_NUM_BUCKETS_LOG2, 0, 0, 0, 0, false, NoBits())
    }

    /** Whether the allocations of a new table succeed. */
    ghost predicate NewTableFits(made: MakeOutcome) {
      made.AllMade? || (made.BloomFails? && !bloomOn)
    }

    /** HASH_MAKE_TABLE: allocates an empty table record for a null head pointer. */
    method MakeTable(add: Entry, made: MakeOutcome) returns (oomed: bool)
      modifies this
      ensures oomed == !NewTableFits(made)
      ensures oomed ==> State() == old(State()) && buckets == old(buckets) && bloomBv == old(bloomBv)
      ensures !oomed ==>
        && fresh(buckets) && fresh(bloomBv) && Sized()
        && State() == NewTable().(head := old(head), tail := add, list := old(list))
    {
      hide Pow2, Empty, Members, State, NewTable, Sized, EmptyBuckets, NoBits;
      oomed := made.TableFails? || made.BucketsFail? || (made.BloomFails? && bloomOn);
      if !oomed {
        InitRecord(add);
      }
    }

    /** A new table record with its arrays zeroed. */
    method InitRecord(add: Entry)
      modifies this
      ensures fresh(buckets) && fresh(bloomBv) && Sized()
      ensures State() == NewTable().(head := old(head), tail := add, list := old(list))
    {
      hide *;
      ZeroCounters();
      tail := add;
      buckets := ZeroedBuckets();
      bloomBv := ZeroedBits();
      chains := Empty(INITIAL_NUM_BUCKETS);
      RecordIsNew(add);
    }

    method ZeroCounters()
      modifies this`numBuckets, this`log2NumBuckets, this`numItems, this`idealChainMaxlen
      modifies this`nonidealItems, this`ineffExpands, this`noexpand
      ensures numBuckets == INITIAL_NUM_BUCKETS && log2NumBuckets == INITIAL_NUM_BUCKETS_LOG2
      ensures numItems == idealChainMaxlen == nonidealItems == ineffExpands == 0 && !noexpand
    {
      numBuckets, log2NumBuckets := INITIAL_NUM_BUCKETS, INITIAL_NUM_BUCKETS_LOG2;
      numItems, idealChainMaxlen, nonidealItems, ineffExpands, noexpand := 0, 0, 0, 0, false;
    }

    method ZeroedBuckets() returns (bkts: array<Bucket>)
      ensures fresh(bkts) && bkts.Length == INITIAL_NUM_BUCKETS
      ensures forall j | 0 <= j < bkts.Length :: bkts[j] == EMPTY_BUCKET
    {
      bkts := new Bucket[INITIAL_NUM_BUCKETS](_ => EMPTY_BUCKET);
    }

    /** HASH_BLOOM_MAKE. */
    method ZeroedBits() returns (bits: array<bool>)
      ensures fresh(bits) && bits.Length == if bloomOn then Pow2(bloomNbits) else 0
      ensures forall j | 0 <= j < bits.Length :: !bits[j]
    {
      bits := new bool[if bloomOn then Pow2(bloomNbits) else 0](_ => false);
    }

    lemma RecordIsNew(add: Entry)
      requires tail == add && buckets.Length == numBuckets == INITIAL_NUM_BUCKETS
      requires log2NumBuckets == INITIAL_NUM_BUCKETS_LOG2 && chains == Empty(INITIAL_NUM_BUCKETS)
      requires forall j | 0 <= j < buckets.Length :: buckets[j] == EMPTY_BUCKET
      requires bloomBv.Length == if bloomOn then Pow2(bloomNbits) else 0
      requires forall j | 0 <= j < bloomBv.Length :: !bloomBv[j]
      requires numItems == idealChainMaxlen == nonidealItems == ineffExpands == 0 && !noexpand
      ensures Sized() && State() == NewTable().(head := head, tail := add, list := list)
    {
      hide Empty, EmptyBuckets, NoBits, Pow2;
      InitialBuckets();
      assert buckets[..] == EmptyBuckets() && bloomBv[..] == NoBits();
    }

    /** The first item starts the application-order list. */
    method StartList(add: Entry, made: MakeOutcome) returns (oomed: bool)
      requires head == null && Valid() && add.hashv == hashFcn(add.key)
      modifies this, add`next, add`prev
      ensures oomed == !NewTableFits(made)
      ensures oomed ==> State() == old(State()) && buckets == old(buckets) && bloomBv == old(bloomBv)
      ensures !oomed ==> fresh(buckets) && fresh(bloomBv) && Joining(add, 0)
      ensures !oomed ==> State() == NewTable().(head := add, tail := add, list := [add])
      ensures !oomed ==> !Triggers(Spot(hashFcn, add, numBuckets))
    {
      hide Sized, Placed, BucketsLinked, Counted, AllBounded, Pow2;
      add.next, add.prev := null, null;
      oomed := MakeTable(add, made);
      if !oomed {
        head := add;
        list := [add];
        assert |buckets[..]| == buckets.Length && |bloomBv[..]| == bloomBv.Length;
        assert RemoveAt(list, 0) == [];
        EmptyPlaced(hashFcn, INITIAL_NUM_BUCKETS);
        FreshBuckets(buckets[..], Members());
        FreshBounded(buckets[..], idealChainMaxlen);
        LoneItemFits(add, 0);
      }
    }

    /** Both structures around an item that has just entered the list at `k`. */
    lemma NowJoining(add: Entry, k: nat, was: seq<Entry>, all: set<Entry>)
      requires k <= |was| && add !in was && Distinct(was) && head != null
      requires list == InsertAt(was, k, add) && AppLinked(list)
      requires head == At(list, 0) && tail == Last(list)
      requires add.hashv == hashFcn(add.key)
      requires forall e {:trigger e in was} | e in was :: e.hashv == hashFcn(e.key)
      requires all == (set e | e in was) && Sized() && BucketsLinked(buckets[..], chains, all)
      requires Counted(buckets[..], chains) && Placed(hashFcn, was, chains)
      requires Policy() && Bloomed(was) && numItems == |was|
      ensures Joining(add, k)
    {
      hide Placed, Policy, Bloomed, Counted, Sized, AppLinked, BucketsLinked;
      InsertAtMembers(was, k, add);
      Widen(buckets[..], chains, all, Members());
    }

    /** Puts `add` into the application-order list at its end. */
    method AppendItem(add: Entry)
      requires Valid() && head != null && add !in list && add.hashv == hashFcn(add.key)
      modifies this`tail, this`list, list`next, add`next, add`prev
      ensures Joining(add, |old(list)|) && list == InsertAt(old(list), |old(list)|, add)
    {
      hide Placed, Policy, Bloomed, Counted, Sized, AppLinked, BucketsLinked, Joining;
      ghost var was, all := list, Members();
      AppList.Append(tail, add, list);
      tail := add;
      list := InsertAt(list, |list|, add);
      NowJoining(add, |was|, was, all);
    }

    /** Puts `add` into the application-order list where the comparator wants it. */
    method PlaceItem(add: Entry, cmp: (Entry, Entry) -> int)
      requires Valid() && head != null && add !in list && add.hashv == hashFcn(add.key)
      modifies this`head, this`tail, this`list, list`next, list`prev, add`next, add`prev
      ensures var k := AppList.Place(cmp, old(list), add);
              Joining(add, k) && list == InsertAt(old(list), k, add)
      ensures list == StableSorting.Insert(cmp, old(list), add)
      ensures forall e | e in list :: e in old(list) || e == add
    {
      hide Joining, TableOk, Distinct;
      AppList.PlaceIsInsert(cmp, list, add);
      var iter := AppList.FindPlace(head, add, cmp, list);
      if iter != null {
        PutBefore(iter, add, AppList.Place(cmp, list, add));
      } else {
        AppendItem(add);
      }
      InsertedMembers(old(list), AppList.Place(cmp, old(list), add), add);
    }

    method PutBefore(iter: Entry, add: Entry, ghost k: nat)
      requires Valid() && head != null && add !in list && add.hashv == hashFcn(add.key)
      requires k < |list| && iter == list[k]
      modifies this`head, this`list, list`next, list`prev, add`next, add`prev
      ensures Joining(add, k) && list == InsertAt(old(list), k, add)
    {
      hide Placed, Policy, Bloomed, Counted, Sized, AppLinked, BucketsLinked, Joining;
      ghost var was, all := list, Members();
      head := AppList.InsertBefore(iter, add, head, list, k);
      list := InsertAt(list, k, add);
      NowJoining(add, k, was, all);
    }

    /** The bucket of `add` reaches the (possibly delayed) threshold with one more item. */
    ghost predicate Fills(st: TableState, add: Entry) {
      && 0 < |st.buckets| && !st.noexpand
      && var bkt := st.buckets[Spot(hashFcn, add, |st.buckets|)];
         bkt.count + 1 >= (bkt.expandMult + 1) * CAPACITY_THRESH
    }

    /** Whether an addition finds the memory it needs. */
    ghost predicate MemorySuffices(st: TableState, add: Entry, made: MakeOutcome, allocOk: bool) {
      if st.head == null then NewTableFits(made) else allocOk || !Fills(st, add)
    }

    lemma MemoryLasts(st: TableState, add: Entry)
      ensures MemorySuffices(st, add, AllMade, true)
    {
    }

    /** The table an addition works on: the present one, or a new one for a null head pointer. */
    ghost function Base(st: TableState): TableState {
      if st.head == null then NewTable() else st
    }

    /** Chains, buckets, counters and filter of `now` are those of `Base(was)` with `add`
        entered, and grown if that was due. */
    ghost predicate Took(now: TableState, add: Entry, was: TableState) {
      var base := Base(was);
      && 0 < |base.chains| == |base.buckets|
      && var b := Spot(hashFcn, add, |base.chains|);
         var pushed := base.chains[b := [add] + base.chains[b]];
         && now.numItems == base.numItems + 1
         && (if Fills(base, add) then GrownFrom(now, pushed, base) else EnteredAt(now, add, b, pushed, base))
         && |now.bloomBv| == |base.bloomBv|
         && forall j | 0 <= j < |now.bloomBv| ::
              now.bloomBv[j] == (base.bloomBv[j] || (bloomOn && j == hashFcn(add.key) % Pow2(bloomNbits)))
    }

    ghost predicate GrownFrom(now: TableState, pushed: seq<seq<Entry>>, base: TableState) {
      && |pushed| > 0 && now.numBuckets == 2 * base.numBuckets > 0
      && now.log2NumBuckets == base.log2NumBuckets + 1
      && now.chains == Redistributed(hashFcn, pushed) && BucketHeads(now.buckets, now.chains)
      && now.idealChainMaxlen == CeilDiv(now.numItems, now.numBuckets) && now.idealChainMaxlen > 0
      && Rated(now.buckets, now.chains, now.idealChainMaxlen)
      && now.nonidealItems == Excess(now.chains, now.idealChainMaxlen)
      && now.ineffExpands == (if now.nonidealItems > now.numItems / 2 then base.ineffExpands + 1 else 0)
      && now.noexpand == (base.noexpand || now.ineffExpands > 1)
    }

    ghost predicate EnteredAt(now: TableState, add: Entry, b: nat, pushed: seq<seq<Entry>>, base: TableState) {
      && now.chains == pushed && now.numBuckets == base.numBuckets && now.log2NumBuckets == base.log2NumBuckets
      && now.idealChainMaxlen == base.idealChainMaxlen && now.nonidealItems == base.nonidealItems
      && now.ineffExpands == base.ineffExpands && now.noexpand == base.noexpand
      && b < |base.buckets|
      && now.buckets == base.buckets[b := Bucket(add, base.buckets[b].count + 1, base.buckets[b].expandMult)]
    }

    lemma TookNow(add: Entry, was: TableState)
      requires var base := Base(was);
               && 0 < |base.chains| == |base.buckets| && numItems == base.numItems + 1
               && Entered(add, Spot(hashFcn, add, |base.chains|), Fills(base, add), base)
               && BitAdded(add, base.bloomBv)
      ensures Took(State(), add, was)
    {
      hide Base, Fills, Redistributed, Excess, CeilDiv, Rated, Pow2;
      assert |bloomBv[..]| == bloomBv.Length;
    }

    lemma FillsIsTriggers(add: Entry)
      requires Sized()
      ensures Fills(State(), add) == Triggers(Spot(hashFcn, add, numBuckets))
    {
      hide Pow2;
    }

    /** How long growth is delayed: an addition makes the table grow, and needs memory for it,
        exactly if its bucket then holds at least ten times expand_mult + 1 items and growth is
        not inhibited. */
    lemma GrowsIffCrowded(now: TableState, add: Entry, was: TableState, made: MakeOutcome, allocOk: bool)
      requires was.head != null && |was.buckets| == |was.chains| > 0 && was.numBuckets > 0
      requires MemorySuffices(was, add, made, allocOk) ==> Took(now, add, was)
      ensures var bkt := was.buckets[hashFcn(add.key) % |was.buckets|];
              var crowded := !was.noexpand && bkt.count + 1 >= 10 * (bkt.expandMult + 1);
              && (MemorySuffices(was, add, made, allocOk) <==> allocOk || !crowded)
              && (allocOk || !crowded ==> now.numBuckets == if crowded then 2 * was.numBuckets else was.numBuckets)
    {
      hide Redistributed, Rated, Excess, CeilDiv, BucketHeads;
    }

    /** When an addition has made the table grow: growth is inhibited for good exactly if it was
        already, or this and the growth before it were both ineffective, leaving more than half of
        the items beyond the ideal chain length. */
    lemma InhibitedIff(now: TableState, add: Entry, was: TableState)
      requires was.head != null && Took(now, add, was) && now.numBuckets == 2 * was.numBuckets > 0
      ensures var ineffective := 2 * now.nonidealItems > now.numItems;
              && now.ineffExpands == (if ineffective then was.ineffExpands + 1 else 0)
              && (now.noexpand <==> was.noexpand || (ineffective && was.ineffExpands >= 1))
    {
      hide Redistributed, Rated, Excess, CeilDiv, BucketHeads;
    }

    /** The first item of a table finds 32 buckets, whatever it is. */
    lemma NewTableIs(now: TableState, add: Entry, was: TableState)
      requires was.head == null && Took(now, add, was)
      ensures now.numBuckets == 32 && now.log2NumBuckets == 5 && now.numItems == 1 && !now.noexpand
      ensures now.idealChainMaxlen == now.nonidealItems == now.ineffExpands == 0
    {
      hide Redistributed, Rated, Excess, CeilDiv, BucketHeads;
    }

    /** An addition to a null head pointer. */
    method AddFirst(add: Entry, made: MakeOutcome, allocOk: bool) returns (oomed: bool)
      requires Valid() && head == null && add.hashv == hashFcn(add.key)
      modifies this, add`next, add`prev, add`hhPrev, add`hhNext
      ensures oomed == !NewTableFits(made)
      ensures oomed ==> State() == old(State()) && buckets == old(buckets) && bloomBv == old(bloomBv)
      ensures !oomed ==> Valid() && list == [add] && fresh(buckets) && fresh(bloomBv)
      ensures !oomed ==> Took(State(), add, old(State()))
    {
      hide Spot, Joining, Entered, BitAdded, Fills, TableOk, Triggers, NewTable, Pow2, Took;
      ghost var was := State();
      oomed := StartList(add, made);
      if !oomed {
        ghost var mid := State();
        SizedNow(add);
        FillsIsTriggers(add);
        var failed := AddToTable(add, 0, allocOk);
        LoneCount();
        Tables(mid, was, add);
      }
    }

    /** A new table is like its record, before and after its first item is in the list. */
    lemma Tables(mid: TableState, was: TableState, add: Entry)
      requires was.head == null && mid == NewTable().(head := mid.head, tail := mid.tail, list := mid.list)
      requires 0 < |mid.chains| == |mid.buckets| && BitAdded(add, mid.bloomBv)
      requires Entered(add, Spot(hashFcn, add, |mid.chains|), Fills(mid, add), mid) && numItems == 1
      ensures Took(State(), add, was)
    {
      hide BitAdded, Spot, Took, Entered, Empty, EmptyBuckets, NoBits;
      EnteredAnyway(add, Spot(hashFcn, add, |mid.chains|), Fills(mid, add), mid, NewTable());
      TookNow(add, was);
    }

    lemma LoneCount()
      requires Valid() && |list| == 1
      ensures numItems == 1
    {
    }

    lemma SizedNow(add: Entry)
      requires Joining(add, 0)
      ensures Sized() && 0 < |chains| == buckets.Length
    {
    }

    /** An addition to a table, once `add` is in its list at `k`. */
    method AddRest(add: Entry, allocOk: bool, ghost k: nat, ghost was: TableState)
      returns (oomed: bool)
      requires Joining(add, k) && k <= |was.list| && list == InsertAt(was.list, k, add)
      requires State() == was.(head := head, tail := tail, list := list)
      requires was.head == At(was.list, 0) && was.tail == Last(was.list) && add !in was.list
      modifies this, buckets, bloomBv, list`next, list`prev, list`hhPrev, list`hhNext
      ensures Valid() && oomed == (old(Triggers(Spot(hashFcn, add, numBuckets))) && !allocOk)
      ensures oomed ==> State() == was && buckets == old(buckets)
      ensures (buckets == old(buckets) || fresh(buckets)) && bloomBv == old(bloomBv)
      ensures !oomed ==> list == old(list) && BitAdded(add, old(bloomBv[..]))
      ensures !oomed ==> var b := Spot(hashFcn, add, old(numBuckets));
                         Entered(add, b, old(Triggers(b)), old(State()))
      ensures old(noexpand) ==> noexpand && numBuckets == old(numBuckets)
    {
      hide Spot, Triggers, AppLinked, TableOk, Entered, Distinct, BitAdded;
      InsertRemove(was.list, k, add);
      oomed := AddToTable(add, k, allocOk);
    }

    /** How the item entered the table does not depend on the list. */
    lemma EnteredAnyway(add: Entry, b: nat, grew: bool, mid: TableState, was: TableState)
      requires b < |mid.chains| && Entered(add, b, grew, mid)
      requires was == mid.(head := was.head, tail := was.tail, list := was.list)
      ensures Entered(add, b, grew, was)
    {
      hide Grown;
    }

    lemma OneMore(add: Entry, was: TableState)
      requires Valid() && head != null && was.head != null && |list| == |was.list| + 1
      requires was.numItems == |was.list| && 0 < |was.chains| == |was.buckets|
      requires Entered(add, Spot(hashFcn, add, |was.chains|), Fills(was, add), was) && BitAdded(add, was.bloomBv)
      ensures Took(State(), add, was)
    {
      hide ListOk, Hashes, ChainsOk, Placed, Policy, Bloomed, Took, Entered, BitAdded, Fills;
      TookNow(add, was);
    }

    lemma ValidSized()
      requires Valid() && head != null
      ensures Sized() && 0 < |chains| == buckets.Length && numItems == |list|
    {
    }

    /** An appending addition to a table that exists. */
    method AddLast(add: Entry, allocOk: bool) returns (oomed: bool)
      requires Valid() && head != null && add !in list && add.hashv == hashFcn(add.key)
      modifies this, buckets, bloomBv, list`next, list`prev, list`hhPrev, list`hhNext
      modifies add`next, add`prev, add`hhPrev, add`hhNext
      ensures Valid() && oomed == !(allocOk || !Fills(old(State()), add))
      ensures (buckets == old(buckets) || fresh(buckets)) && bloomBv == old(bloomBv)
      ensures oomed ==> State() == old(State())
      ensures !oomed ==> list == old(list) + [add] && Took(State(), add, old(State()))
      ensures old(noexpand) ==> noexpand && numBuckets == old(numBuckets)
    {
      hide TableOk, Joining, Grown, Distinct, AppLinked, Spot, Triggers, Hashes, Pow2, Entered, BitAdded, Fills, Took;
      ValidSized();
      FillsIsTriggers(add);
      ghost var was, b := State(), Spot(hashFcn, add, numBuckets);
      ghost var grew := Triggers(b);
      AppendItem(add);
      ghost var mid := State();
      oomed := AddRest(add, allocOk, |was.list|, was);
      if !oomed {
        EnteredAnyway(add, b, grew, mid, was);
        OneMore(add, was);
      }
    }

    /** HASH_ADD: appends `add`; its hash value is computed from its key. */
    method Add(add: Entry, made: MakeOutcome, allocOk: bool) returns (oomed: bool)
      requires Valid() && add !in list
      modifies this, buckets, bloomBv, list`next, list`prev, list`hhPrev, list`hhNext
      modifies add`hashv, add`next, add`prev, add`hhPrev, add`hhNext
      ensures Valid() && oomed == !MemorySuffices(old(State()), add, made, allocOk)
      ensures (buckets == old(buckets) || fresh(buckets)) && (bloomBv == old(bloomBv) || fresh(bloomBv))
      ensures oomed ==> State() == old(State())
      ensures !oomed ==> list == old(list) + [add] && Took(State(), add, old(State()))
      ensures old(head != null && noexpand) ==> noexpand && numBuckets == old(numBuckets)
    {
      hide TableOk, Joining, Took, Distinct, AppLinked, Spot, Fills, NewTableFits;
      add.hashv := hashFcn(add.key);
      if head == null {
        oomed := AddFirst(add, made, allocOk);
      } else {
        oomed := AddLast(add, allocOk);
      }
    }

    lemma InsertFirst(cmp: (Entry, Entry) -> int, add: Entry)
      ensures StableSorting.Insert(cmp, [], add) == [add]
    {
    }

    /** An in-order addition to a table that exists. */
    method AddPlaced(add: Entry, allocOk: bool, cmp: (Entry, Entry) -> int) returns (oomed: bool)
      requires Valid() && head != null && add !in list && add.hashv == hashFcn(add.key)
      modifies this, buckets, bloomBv, list`next, list`prev, list`hhPrev, list`hhNext
      modifies add`next, add`prev, add`hhPrev, add`hhNext
      ensures Valid() && oomed == !(allocOk || !Fills(old(State()), add))
      ensures (buckets == old(buckets) || fresh(buckets)) && bloomBv == old(bloomBv)
      ensures oomed ==> State() == old(State())
      ensures !oomed ==> list == StableSorting.Insert(cmp, old(list), add) && Took(State(), add, old(State()))
      ensures old(noexpand) ==> noexpand && numBuckets == old(numBuckets)
    {
      hide TableOk, Joining, Grown, Distinct, AppLinked, Spot, Triggers, Hashes, Entered, BitAdded, Fills;
      hide StableSorting.Insert, Pow2, AppList.Place, At, Last, RemoveAt, Took;
      ValidSized();
      FillsIsTriggers(add);
      ghost var k, was := AppList.Place(cmp, list, add), State();
      ghost var b := Spot(hashFcn, add, numBuckets);
      ghost var grew := Triggers(b);
      PlaceItem(add, cmp);
      ghost var mid := State();
      oomed := AddRest(add, allocOk, k, was);
      if !oomed {
        EnteredAnyway(add, b, grew, mid, was);
        OneMore(add, was);
      }
    }

    /** HASH_ADD_INORDER: adds `add` where the comparator wants it. */
    method AddInorder(add: Entry, made: MakeOutcome, allocOk: bool, cmp: (Entry, Entry) -> int)
      returns (oomed: bool)
      requires Valid() && add !in list
      modifies this, buckets, bloomBv, list`next, list`prev, list`hhPrev, list`hhNext
      modifies add`hashv, add`next, add`prev, add`hhPrev, add`hhNext
      ensures Valid() && oomed == !MemorySuffices(old(State()), add, made, allocOk)
      ensures (buckets == old(buckets) || fresh(buckets)) && (bloomBv == old(bloomBv) || fresh(bloomBv))
      ensures oomed ==> State() == old(State())
      ensures !oomed ==> list == StableSorting.Insert(cmp, old(list), add) && Took(State(), add, old(State()))
      ensures old(head != null && noexpand) ==> noexpand && numBuckets == old(numBuckets)
    {
      hide TableOk, Joining, Took, Distinct, AppLinked, Spot, Fills, NewTableFits, StableSorting.Insert;
      add.hashv := hashFcn(add.key);
      if head == null {
        InsertFirst(cmp, add);
        oomed := AddFirst(add, made, allocOk);
      } else {
        oomed := AddPlaced(add, allocOk, cmp);
      }
    }

    /** The table that deleting item `i`, number `m` of its chain, leaves is in order. */
    lemma TableAfterDelete(was: TableState, del: Entry, i: nat, b: nat, m: nat, all: set<Entry>)
      requires i < |was.list| && was.list[i] == del
      requires b < |was.chains| && m < |was.chains[b]| && was.chains[b][m] == del
      requires Placed(hashFcn, was.list, was.chains) && Counted(was.buckets, was.chains)
      requires was.noexpand == (was.ineffExpands > 1)
      requires !was.noexpand ==> AllBounded(was.buckets, was.idealChainMaxlen)
      requires Bloomed(was.list) && was.numItems == |was.list|
      requires list == RemoveAt(was.list, i) && numItems == was.numItems - 1
      requires chains == was.chains[b := RemoveAt(was.chains[b], m)]
      requires buckets[..] == was.buckets[b := Bucket(At(chains[b], 0), was.buckets[b].count - 1,
                                                      was.buckets[b].expandMult)]
      requires noexpand == was.noexpand && ineffExpands == was.ineffExpands
      requires idealChainMaxlen == was.idealChainMaxlen
      requires Sized() && BucketsLinked(buckets[..], chains, all)
      ensures TableOk(list)
    {
      hide Placed, BucketsLinked, Distinct, Pow2, RemoveAt;
      PlacedRemove(hashFcn, was.list, was.chains, i, b, m);
      PlacedFacts(hashFcn, was.list, was.chains, i);
      PlacedFacts(hashFcn, list, chains, 0);
      RemoveAtLength(was.list, i);
      RemoveAtLength(was.chains[b], m);
      RemoveAtMembers(was.list, i);
      Narrow(buckets[..], chains, all, Members());
    }

    /** What `DeleteHH` needs to delete an item of a table in order. */
    lemma ReadyToDelete(del: Entry) returns (i: nat, b: nat, m: nat)
      requires Valid() && del in list
      ensures i == IndexOf(list, del) && b == Spot(hashFcn, del, numBuckets)
      ensures m < |chains[b]| && chains[b][m] == del && Removable(del, i, m)
      ensures del in chains[b] && m == IndexOf(chains[b], del)
    {
      hide Policy, Bloomed, BucketsLinked, AppLinked, Distinct, Spot, Placed, Hashed;
      i, b := IndexOf(list, del), Spot(hashFcn, del, numBuckets);
      PlacedFacts(hashFcn, list, chains, i);
      m := IndexOf(chains[b], del);
    }

    /** `del` is in the list and in the bucket its key selects. */
    ghost predicate Holds(st: TableState, del: Entry) {
      && del in st.list && 0 < |st.chains| == |st.buckets| && st.numItems > 0
      && var b := Spot(hashFcn, del, |st.chains|);
         del in st.chains[b] && st.buckets[b].count > 0
    }

    /** The whole state that deleting an item leaves. */
    ghost function Removed(st: TableState, del: Entry): TableState
      requires Holds(st, del)
    {
      if |st.list| == 1 then Freed(st)
      else
        var b := Spot(hashFcn, del, |st.chains|);
        var l, c := Without(st.list, del), Without(st.chains[b], del);
        st.(list := l, head := At(l, 0), tail := Last(l), chains := st.chains[b := c],
            numItems := st.numItems - 1,
            buckets := st.buckets[b := Bucket(At(c, 0), st.buckets[b].count - 1, st.buckets[b].expandMult)])
    }

    lemma DeletedIsRemoved(del: Entry, i: nat, b: nat, m: nat)
      requires Removable(del, i, m) && del in list && i == IndexOf(list, del)
      requires b == Spot(hashFcn, del, numBuckets) && m < |chains[b]|
      requires del in chains[b] && m == IndexOf(chains[b], del)
      ensures Holds(State(), del)
      ensures Removed(State(), del) == if |list| > 1 then Deleted(del, i, m) else Freed(State())
    {
      hide BucketsLinked, Hashed, ListOk, Deletable, Pow2, IndexOf;
    }

    /** HASH_DELETE: removes `del` from both structures. */
    method Delete(del: Entry)
      requires Valid() && del in list
      modifies this, buckets, list`next, list`prev, list`hhPrev, list`hhNext
      ensures Valid() && list == Without(old(list), del)
      ensures Holds(old(State()), del) && State() == Removed(old(State()), del)
      ensures head == null <==> old(|list|) == 1
      ensures head != null ==> buckets == old(buckets) && bloomBv == old(bloomBv)
      ensures head == null ==> fresh(buckets) && fresh(bloomBv)
    {
      hide Placed, Bloomed, BucketsLinked, ListOk, Spot, AllBounded, Removable, Pow2, Holds, Removed;
      ghost var was, all := State(), Members();
      ghost var i, b, m := ReadyToDelete(del);
      DeletedIsRemoved(del, i, b, m);
      LoneGone(list, del);
      DeleteHH(del, i, m);
      if was.list != [del] {
        StillHashed(was.list, i);
        TableAfterDelete(was, del, i, b, m, all);
      }
    }

    lemma LoneGone(s: seq<Entry>, e: Entry)
      requires e in s
      ensures |Without(s, e)| == |s| - 1 && (|s| == 1 ==> s == [e] && Without(s, e) == [])
    {
    }

    lemma StillHashed(was: seq<Entry>, i: nat)
      requires i < |was| && list == RemoveAt(was, i)
      requires forall e {:trigger e in was} | e in was :: e.hashv == hashFcn(e.key)
      ensures Hashes()
    {
      assert forall e | e in list :: e in was;
    }

    /** Reordering the list does not matter to the rest of the table. */
    lemma Resorted(was: seq<Entry>, all: set<Entry>)
      requires Distinct(list) && |list| == |was| && forall e :: e in list <==> e in was
      requires all == (set e | e in was) && Sized() && BucketsLinked(buckets[..], chains, all)
      requires Counted(buckets[..], chains) && Placed(hashFcn, was, chains)
      requires Policy() && Bloomed(was) && numItems == |was|
      ensures TableOk(list)
    {
      hide BucketsLinked, Placed, Pow2, AllBounded, Sized;
      PlacedPermuted(hashFcn, was, list, chains);
      assert Members() == all;
    }

    /** HASH_SRT: sorts the application-order list; the chains stay as they are. */
    method Sort(cmp: (Entry, Entry) -> int)
      requires Valid() && StableSorting.OrderedBy(cmp, Members())
      modifies this`head, this`tail, this`list, list`next, list`prev
      ensures Valid() && list == StableSorting.StableSort(cmp, old(list))
      ensures State() == old(State()).(head := head, tail := tail, list := list)
    {
      if head != null {
        SortItems(cmp);
      }
    }

    method SortItems(cmp: (Entry, Entry) -> int)
      requires Valid() && head != null && StableSorting.OrderedBy(cmp, Members())
      modifies this`head, this`tail, this`list, list`next, list`prev
      ensures Valid() && head != null && list == StableSorting.StableSort(cmp, old(list))
    {
      hide Sized, BucketsLinked, Counted, Placed, Policy, Bloomed, AppLinked, Distinct;
      hide StableSorting.StableSort, StableSorting.OrderedBy;
      ghost var was, all := list, Members();
      head, tail, list := MergeSort.SortList(head, cmp, list);
      StableSorting.SortMembers(cmp, was);
      Resorted(was, all);
    }

    /** HASH_CLEAR: frees the table without touching the items. */
    method Clear()
      requires Valid()
      modifies this
      ensures Valid() && list == [] && head == null
      ensures State() == if old(head) == null then old(State()) else Freed(old(State()))
      ensures (buckets == old(buckets) || fresh(buckets)) && (bloomBv == old(bloomBv) || fresh(bloomBv))
    {
      hide ListOk, Hashes, TableOk;
      if head != null {
        hide State, Freed;
        FreeTable();
        FreedFacts(old(State()));
      }
    }

    lemma FreedFacts(was: TableState)
      requires State() == Freed(was)
      ensures head == null && list == [] && chains == []
    {
    }

    /** HASH_BLOOM_TEST: whether the filter lets a search for this hash value through. */
    method BloomTest(hashval: nat) returns (pass: bool)
      requires Valid() && head != null
      ensures forall e {:trigger e in list} | e in list && hashFcn(e.key) == hashval :: pass
      ensures !bloomOn ==> pass
    {
      pass := true;
      if bloomOn {
        MaskIsMod(hashval, bloomNbits);
        pass := bloomBv[BitAnd(hashval, Pow2(bloomNbits) - 1)];
      }
    }

    /** HASH_FIND_IN_BKT. */
    method FindInBkt(hd: Entry?, key: Key, hashval: nat, ghost c: seq<Entry>) returns (out: Entry?)
      requires ChainLinked(hd, c) && hashval == hashFcn(key)
      requires forall i {:trigger c[i]} | 0 <= i < |c| :: c[i].hashv == hashFcn(c[i].key)
      ensures out == First(c, key)
    {
      out := hd;
      ghost var k := 0;
      while out != null
        invariant 0 <= k <= |c| && out == At(c, k)
        invariant forall i | 0 <= i < k :: c[i].key != key
        decreases |c| - k
      {
        if out.hashv == hashval && |out.key| == |key| {
          if out.key == key {
            break;
          }
        }
        out := out.hhNext;
        k := k + 1;
      }
      FirstAt(c, key, k);
    }

    /** What a search for `key` returns: the first such item of its chain. */
    ghost function Found(key: Key): Entry?
      requires head != null ==> Sized()
      reads this
    {
      if head == null then null else Lookup(hashFcn, chains, key)
    }

    /** The first match in the one chain searched decides about the whole table. */
    lemma FoundIsMember(key: Key)
      requires Valid()
      ensures head != null ==> Sized()
      ensures Found(key) == null <==> forall e | e in list :: e.key != key
      ensures Found(key) != null ==> Found(key) in list && Found(key).key == key
      ensures UniqueKeys(list) ==>
                Found(key) == if key in KeyMap(list) then KeyMap(list)[key] else null
    {
      if head != null {
        var c := chains[hashFcn(key) % numBuckets];
        FirstIsFirst(c, key);
        assert forall i {:trigger c[i]} | 0 <= i < |c| :: c[i] in list;
        forall e | e in list && e.key == key ensures e in c {
          var i :| 0 <= i < |list| && list[i] == e;
          assert list[i] in chains[Spot(hashFcn, list[i], |chains|)];
        }
      }
      if UniqueKeys(list) {
        KeyMapRepresents(list);
        var m := KeyMap(list);
        assert key in m ==> m[key] in list && m[key].key == key;
      }
    }

    /** What a search finds in a state. */
    ghost function FoundIn(st: TableState, key: Key): Entry? {
      if st.head == null || st.chains == [] then null else Lookup(hashFcn, st.chains, key)
    }

    /** What a search finds after an addition: as before, and the new item under its own key,
        exactly unless the table has grown. If it has, the result for another key stays exactly
        if at most one item has that key, and the new item is found exactly if its key is new. */
    lemma AdditionFinds(now: TableState, add: Entry, was: TableState, key: Key)
      requires Took(now, add, was) && now.head != null && add !in was.list
      requires if was.head == null then was.list == [] else Placed(hashFcn, was.list, was.chains)
      ensures !Fills(Base(was), add) ==> FoundIn(now, key) == if key == add.key then add else FoundIn(was, key)
      ensures Fills(Base(was), add) && key != add.key ==>
                (FoundIn(now, key) == FoundIn(was, key) <==> HeldOnce(was.list, key))
      ensures Fills(Base(was), add) && key == add.key ==>
                (FoundIn(now, key) == add <==> forall e | e in was.list :: e.key != key)
      ensures Fills(Base(was), add) ==>
                FoundIn(now, key) == Oldest(Base(was).chains[hashFcn(key) % |Base(was).chains|], key)
                || (key == add.key && FoundIn(now, key) == add)
    {
      hide Placed, Fills, Redistributed, Rated, Excess, CeilDiv, HeldOnce, First, Oldest, BucketHeads;
      hide EmptyBuckets, NoBits;
      var base := Base(was);
      var n, b := |base.chains|, Spot(hashFcn, add, |base.chains|);
      var pushed, c := base.chains[b := [add] + base.chains[b]], base.chains[hashFcn(key) % n];
      if was.head == null {
        EmptyPlaced(hashFcn, INITIAL_NUM_BUCKETS);
      }
      assert Placed(hashFcn, was.list, base.chains);
      PushedFinds(add, base.chains[b], key);
      ExpansionFinds(hashFcn, pushed, key);
      HeldInChain(hashFcn, was.list, base.chains, key);
      HeldOnceInChain(hashFcn, was.list, base.chains, key);
      ChainDistinct(hashFcn, was.list, base.chains, key);
      FirstIsOldestIff(c, key);
      EmptyFinds(c, key);
    }

    /** HASH_FIND, with or without the Bloom filter. */
    method Find(key: Key) returns (out: Entry?)
      requires Valid()
      ensures head != null ==> Sized()
      ensures out == Found(key)
      ensures out == null <==> forall e | e in list :: e.key != key
      ensures out != null ==> out in list && out.key == key
      ensures UniqueKeys(list) ==> out == if key in KeyMap(list) then KeyMap(list)[key] else null
    {
      out := null;
      FoundIsMember(key);
      if head != null {
        var hashval := hashFcn(key);
        MaskIsMod(hashval, log2NumBuckets);
        var b := BitAnd(hashval, numBuckets - 1);
        var pass := BloomTest(hashval);
        if pass {
          out := FindInBkt(buckets[b].hhHead, key, hashval, chains[b]);
        }
      }
    }

    /** HASH_FSCK's walk along one chain. */
    method CheckChain(hd: Entry?, ghost c: seq<Entry>) returns (count: nat, ok: bool)
      requires ChainLinked(hd, c)
      ensures ok && count == |c|
    {
      count, ok := 0, true;
      var thh := hd;
      var prev: Entry? := null;
      while thh != null
        invariant ok && count <= |c| && thh == At(c, count) && prev == At(c, count - 1)
        decreases |c| - count
      {
        if prev != thh.hhPrev {
          ok := false;
        }
        count := count + 1;
        prev := thh;
        thh := thh.hhNext;
      }
    }

    /** HASH_FSCK's walk along the application-order list. */
    method CheckList() returns (count: nat, ok: bool)
      requires ListOk()
      ensures ok && count == |list|
    {
      count, ok := 0, true;
      var thh := head;
      var prev: Entry? := null;
      while thh != null
        invariant ok && count <= |list| && thh == At(list, count) && prev == At(list, count - 1)
        decreases |list| - count
      {
        if prev != thh.prev {
          ok := false;
        }
        count := count + 1;
        prev := thh;
        thh := thh.next;
      }
    }

    /** HASH_FSCK: the table's own integrity check never finds fault with a valid table. */
    method Fsck() returns (ok: bool)
      requires Valid()
      ensures ok
    {
      hide Placed, BucketsLinked, Policy, Bloomed, AppLinked, Distinct;
      ok := true;
      if head != null {
        TotalIsListLength(hashFcn, list, chains);
        var i, count := 0, 0;
        while i < numBuckets
          invariant 0 <= i <= numBuckets && ok && count == TotalLength(chains[..i])
        {
          ChainAt(buckets[..], chains, Members(), i);
          var bktCount, good := CheckChain(buckets[i].hhHead, chains[i]);
          assert chains[..i + 1][..i] == chains[..i];
          count := count + bktCount;
          ok := ok && good && buckets[i].count == bktCount;
          i := i + 1;
        }
        assert chains[..i] == chains;
        ok := ok && count == numItems;
        var appCount, fine := CheckList();
        ok := ok && fine && appCount == numItems;
      }
    }

    /** The bucket of `add` is at the (possibly delayed) threshold as it is. */
    ghost predicate IsFull(st: TableState, add: Entry) {
      && 0 < |st.buckets|
      && var bkt := st.buckets[Spot(hashFcn, add, |st.buckets|)];
         bkt.count >= (bkt.expandMult + 1) * CAPACITY_THRESH
    }

    /** Whether a replacement finds the memory it needs: as an addition when there is nothing to
        take out; for a new table when the only item is taken out; otherwise for an expansion
        if the bucket, which loses one item and gains one, is full. */
    ghost predicate ReplaceFits(st: TableState, add: Entry, made: MakeOutcome, allocOk: bool) {
      if forall e | e in st.list :: e.key != add.key then MemorySuffices(st, add, made, allocOk)
      else if |st.list| == 1 then NewTableFits(made)
      else allocOk || st.noexpand || !IsFull(st, add)
    }

    lemma AbsentFits(st: TableState, add: Entry, made: MakeOutcome, allocOk: bool)
      requires forall e | e in st.list :: e.key != add.key
      ensures ReplaceFits(st, add, made, allocOk) == MemorySuffices(st, add, made, allocOk)
    {
      hide MemorySuffices;
    }

    /** The guards of a replacement are those of the addition that follows the deletion. */
    lemma RemovedFits(st: TableState, del: Entry, add: Entry, made: MakeOutcome, allocOk: bool)
      requires Holds(st, del) && del.key == add.key
      ensures ReplaceFits(st, add, made, allocOk) == MemorySuffices(Removed(st, del), add, made, allocOk)
      ensures |st.list| > 1 ==> Removed(st, del).noexpand == st.noexpand && Removed(st, del).numBuckets == st.numBuckets
    {
      LoneGone(st.list, del);
      hide NewTableFits, Without;
      var l := Without(st.list, del);
      assert |st.list| > 1 ==> At(l, 0) == l[0];
    }

    /** HASH_REPLACE: takes out the item under the same key, if any, and appends `add`. */
    method Replace(add: Entry, made: MakeOutcome, allocOk: bool)
      returns (replaced: Entry?, oomed: bool)
      requires Valid() && (add in list ==> (head != null ==> Sized()) && Found(add.key) == add)
      modifies this, buckets, bloomBv, list`next, list`prev, list`hhPrev, list`hhNext
      modifies add`hashv, add`next, add`prev, add`hhPrev, add`hhNext
      ensures Valid() && old(head != null ==> Sized()) && replaced == old(Found(add.key))
      ensures replaced != null ==> replaced in old(list) && replaced.key == add.key
      ensures replaced == null ==> forall e | e in old(list) :: e.key != add.key
      ensures oomed == !ReplaceFits(old(State()), add, made, allocOk)
      ensures oomed ==> (list == old(list) <==> replaced == null)
      ensures replaced != null ==> Holds(old(State()), replaced)
      ensures var rest := if replaced == null then old(State()) else Removed(old(State()), replaced);
              if oomed then State() == rest else list == rest.list + [add] && Took(State(), add, rest)
      ensures var rest := if replaced == null then old(list) else Without(old(list), replaced);
              list == if oomed then rest else rest + [add]
      ensures old(head != null && noexpand && (|list| > 1 || Found(add.key) == null)) ==>
                noexpand && numBuckets == old(numBuckets)
      ensures (buckets == old(buckets) || fresh(buckets)) && (bloomBv == old(bloomBv) || fresh(bloomBv))
    {
      hide ListOk, Hashes, TableOk, Distinct, Took, Holds, Removed, MemorySuffices, ReplaceFits;
      ghost var was := State();
      replaced := Find(add.key);
      if replaced != null {
        StillAbsent(add, replaced);
        LoneGone(list, replaced);
        Delete(replaced);
        RemovedFits(was, replaced, add, made, allocOk);
      } else {
        AbsentFits(was, add, made, allocOk);
      }
      oomed := Add(add, made, allocOk);
    }

    /** HASH_REPLACE_INORDER: the same, with `add` placed where the comparator wants it. */
    method ReplaceInorder(add: Entry, made: MakeOutcome, allocOk: bool, cmp: (Entry, Entry) -> int)
      returns (replaced: Entry?, oomed: bool)
      requires Valid() && (add in list ==> (head != null ==> Sized()) && Found(add.key) == add)
      modifies this, buckets, bloomBv, list`next, list`prev, list`hhPrev, list`hhNext
      modifies add`hashv, add`next, add`prev, add`hhPrev, add`hhNext
      ensures Valid() && old(head != null ==> Sized()) && replaced == old(Found(add.key))
      ensures replaced != null ==> replaced in old(list) && replaced.key == add.key
      ensures replaced == null ==> forall e | e in old(list) :: e.key != add.key
      ensures oomed == !ReplaceFits(old(State()), add, made, allocOk)
      ensures oomed ==> (list == old(list) <==> replaced == null)
      ensures replaced != null ==> Holds(old(State()), replaced)
      ensures var rest := if replaced == null then old(State()) else Removed(old(State()), replaced);
              if oomed then State() == rest
              else list == StableSorting.Insert(cmp, rest.list, add) && Took(State(), add, rest)
      ensures var rest := if replaced == null then old(list) else Without(old(list), replaced);
              list == if oomed then rest else StableSorting.Insert(cmp, rest, add)
      ensures old(head != null && noexpand && (|list| > 1 || Found(add.key) == null)) ==>
                noexpand && numBuckets == old(numBuckets)
      ensures (buckets == old(buckets) || fresh(buckets)) && (bloomBv == old(bloomBv) || fresh(bloomBv))
    {
      hide ListOk, Hashes, TableOk, Distinct, Took, Holds, Removed, MemorySuffices, ReplaceFits, StableSorting.Insert;
      ghost var was := State();
      replaced := Find(add.key);
      if replaced != null {
        StillAbsent(add, replaced);
        LoneGone(list, replaced);
        Delete(replaced);
        RemovedFits(was, replaced, add, made, allocOk);
      } else {
        AbsentFits(was, add, made, allocOk);
      }
      oomed := AddInorder(add, made, allocOk, cmp);
    }

    lemma StillAbsent(add: Entry, replaced: Entry)
      requires ListOk() && replaced in list && (add in list ==> replaced == add)
      ensures add !in Without(list, replaced)
      ensures forall e | e in Without(list, replaced) :: e in list
    {
      RemoveAtMembers(list, IndexOf(list, replaced));
    }

    /** What HASH_ITER relies on: the list can be followed from `head`. */
    lemma Links()
      requires Valid()
      ensures head == At(list, 0) && NextClosed(list) && Distinct(list)
    {
    }
  }
}
