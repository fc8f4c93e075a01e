/** What becomes of an address of more than 16 characters that is added again and again: its
    first 16 characters are stored each time, and looking these up answers the latest device
    type until the table expands, and the first one from then on. */
module SubdevDuplicates {
  import opened Entries
  import opened Chains
  import opened Buckets
  import opened Lookups
  import opened UtHash
  import opened Subdev
  import SubdevSpec

  /** The items `s`, all under `key`, make up the table; the latest is first in their chain. */
  ghost predicate Piled(t: HashTable, st: TableState, s: seq<Entry>, key: Key) {
    && st.list == s && (forall i {:trigger s[i]} | 0 <= i < |s| :: s[i].key == key)
    && if s == [] then st.head == null
       else
         && st.head != null && !st.noexpand && |st.chains| == |st.buckets| == INITIAL_NUM_BUCKETS
         && var b := t.hashFcn(key) % INITIAL_NUM_BUCKETS;
            && st.buckets[b].count == |s| && st.buckets[b].expandMult == 0 && |st.chains[b]| == |s|
            && forall i {:trigger st.chains[b][i]} | 0 <= i < |s| :: st.chains[b][i] == s[|s| - 1 - i]
  }

  /** The tenth item of a chain makes the table expand, and none before it. */
  lemma PileFills(t: HashTable, st: TableState, s: seq<Entry>, x: Entry)
    requires Piled(t, st, s, x.key) && |s| < CAPACITY_THRESH
    ensures t.Fills(t.Base(st), x) <==> |s| == CAPACITY_THRESH - 1
  {
  }

  lemma PileGrows(t: HashTable, now: TableState, x: Entry, st: TableState, s: seq<Entry>)
    requires Piled(t, st, s, x.key) && |s| < CAPACITY_THRESH - 1
    requires t.Took(now, x, st) && now.list == s + [x] && now.head != null
    ensures Piled(t, now, s + [x], x.key)
  {
    PileFills(t, st, s, x);
    hide HashTable.Fills, HashTable.GrownFrom;
  }

  lemma PileFound(t: HashTable, st: TableState, s: seq<Entry>, key: Key)
    requires Piled(t, st, s, key) && s != []
    ensures t.FoundIn(st, key) == s[|s| - 1]
    ensures Oldest(st.chains[t.hashFcn(key) % |st.chains|], key) == s[0]
  {
    var c := st.chains[t.hashFcn(key) % |st.chains|];
    assert c[0] == s[|s| - 1] && c[|c| - 1] == s[0];
  }

  lemma TableFacts(t: HashTable, key: Key)
    requires t.Valid()
    ensures t.head != null ==> t.Sized() && Placed(t.hashFcn, t.list, t.chains)
    ensures t.Found(key) == t.FoundIn(t.State(), key) && t.State().list == t.list && t.State().head == t.head
    ensures t.State().chains == t.chains && (t.list != [] ==> t.head != null) && (t.list == [] ==> t.head == null)
  {
  }

  lemma PileExpands(t: HashTable, now: TableState, x: Entry, st: TableState, s: seq<Entry>)
    requires Piled(t, st, s, x.key) && |s| == CAPACITY_THRESH - 1 && x !in s
    requires t.Took(now, x, st) && now.head != null && Placed(t.hashFcn, st.list, st.chains)
    ensures t.FoundIn(now, x.key) == s[0]
  {
    hide HashTable.Took, Placed, HashTable.FoundIn, Oldest;
    PileFills(t, st, s, x);
    PileFound(t, st, s, x.key);
    t.AdditionFinds(now, x, st, x.key);
    assert s[0] in s;
  }

  /** One more addition of an address that is stored cut. */
  method AddAgain(d: SubdevHash, long: Key, value: nat, ghost s: seq<Entry>)
    requires d.Valid() && Piled(d.table, d.table.State(), s, Stored(long)) && |s| < CAPACITY_THRESH
    requires Stored(long) != long && forall i {:trigger s[i]} | 0 <= i < |s| :: s[i].kind == i + 1
    requires value == |s| + 1
    modifies d`trace, d.table, d.table.buckets, d.table.bloomBv
    modifies d.table.list`next, d.table.list`prev, d.table.list`hhPrev, d.table.list`hhNext, d.table.list`kind
    ensures d.Valid() && |d.table.list| == |s| + 1 && d.table.list[..|s|] == s && fresh(d.table.list[|s|])
    ensures forall i {:trigger d.table.list[i]} | 0 <= i <= |s| ::
              d.table.list[i].key == Stored(long) && d.table.list[i].kind == i + 1
    ensures d.table.buckets == old(d.table.buckets) || fresh(d.table.buckets)
    ensures d.table.bloomBv == old(d.table.bloomBv) || fresh(d.table.bloomBv)
    ensures |s| < CAPACITY_THRESH - 1 ==> Piled(d.table, d.table.State(), d.table.list, Stored(long))
    ensures |s| == CAPACITY_THRESH - 1 ==>
              (d.table.head != null ==> d.table.Sized()) && d.table.Found(Stored(long)) == s[0]
  {
    hide SubdevHash.Valid, HashTable.Valid, HashTable.Took, HashTable.Sized, HashTable.Found, HashTable.FoundIn;
    hide HashTable.State, Placed, Stored;
    ghost var was, t := d.table.State(), SubdevSpec.Table(d);
    TableFacts(t, Stored(long));
    SubdevSpec.NothingFound(d, long);
    var ret := d.Add(long, value, true, true);
    ghost var x := d.table.list[|s|];
    ghost var t' := SubdevSpec.Table(d);
    TableFacts(t', Stored(long));
    if |s| < CAPACITY_THRESH - 1 {
      PileGrows(t, d.table.State(), x, was, s);
    } else {
      PileExpands(t, d.table.State(), x, was, s);
    }
  }

  lemma EmptyPile(d: SubdevHash, key: Key)
    requires d.Valid() && d.table.list == []
    ensures Piled(d.table, d.table.State(), d.table.list, key)
  {
    TableFacts(SubdevSpec.Table(d), key);
  }

  lemma PiledFound(d: SubdevHash, key: Key)
    requires d.Valid() && d.table.list != [] && Piled(d.table, d.table.State(), d.table.list, key)
    ensures d.table.head != null ==> d.table.Sized()
    ensures d.table.Found(key) == d.table.list[|d.table.list| - 1]
  {
    TableFacts(SubdevSpec.Table(d), key);
    PileFound(d.table, d.table.State(), d.table.list, key);
  }

  /** Ten additions of one address of 17 characters with the types 1 to 10: after nine, a lookup
      of the 16 characters that are stored answers type 9; after the tenth it answers type 1. */
  method LookupChanges(hashFcn: HashFcn) returns (d: SubdevHash, before: nat, after: nat)
    ensures d.Valid() && |d.table.list| == 10 && before == 9 && after == 1
    ensures forall i {:trigger d.table.list[i]} | 0 <= i < 10 ::
              d.table.list[i].key == "0123456789abcdef" && d.table.list[i].kind == i + 1
  {
    hide SubdevHash.Valid, HashTable.Valid, HashTable.Sized, HashTable.Found, HashTable.State, Stored, Piled;
    hide HashTable.Took, HashTable.FoundIn, Placed;
    d := new SubdevHash(hashFcn, false, 0);
    var long, short := "0123456789abcdefg", "0123456789abcdef";
    SubdevSpec.LongIsCut(long);
    EmptyPile(d, short);
    for k := 0 to 9
      invariant d.Valid() && |d.table.list| == k && fresh(d.table.buckets) && fresh(d.table.bloomBv)
      invariant forall i {:trigger d.table.list[i]} | 0 <= i < k ::
                  fresh(d.table.list[i]) && d.table.list[i].kind == i + 1
      invariant Piled(d.table, d.table.State(), d.table.list, short)
    {
      AddAgain(d, long, k + 1, d.table.list);
    }
    PiledFound(d, short);
    before := d.Find(short, true);
    AddAgain(d, long, 10, d.table.list);
    after := d.Find(short, true);
  }
}
