/** The sub-device table over the hash table does what the sequential operations say that the
    shared table's interleavings are explained by, and what becomes of addresses that are too
    long to be stored. */
module SubdevSpec {
  import opened Entries
  import opened Chains
  import opened KeyMaps
  import opened UtHash
  import opened Subdev
  import Spec = SubdevSystem

  ghost function CellOf(e: Entry): Spec.Cell
    reads e`kind, e`flag
  {
    Spec.Cell(e.key, e.kind, e.flag)
  }

  /** The table's contents: addresses, device types and marks in application order. */
  ghost function Cells(list: seq<Entry>): (r: seq<Spec.Cell>)
    reads list`kind, list`flag
    ensures |r| == |list|
    ensures forall i {:trigger r[i]} | 0 <= i < |r| :: r[i] == CellOf(list[i])
  {
    if list == [] then [] else Cells(list[..|list| - 1]) + [CellOf(list[|list| - 1])]
  }

  /** The hash table finds an address where it is in the list. */
  lemma FoundWhere(t: HashTable, a: Key)
    requires t.Valid() && UniqueKeys(t.list)
    ensures t.head != null ==> t.Sized()
    ensures var e := t.Found(a);
            if e == null then Spec.Where(Cells(t.list), a) == |t.list|
            else e in t.list && e.key == a && Spec.Where(Cells(t.list), a) == IndexOf(t.list, e)
  {
    t.FoundIsMember(a);
    var items := Cells(t.list);
    var w := Spec.Where(items, a);
    var e := t.Found(a);
    hide HashTable.Valid, HashTable.Found, HashTable.Sized, KeyMap;
    if e == null {
      assert forall i | 0 <= i < |items| :: t.list[i] in t.list && items[i].address != a;
    } else {
      assert items[IndexOf(t.list, e)].address == a;
    }
  }

  /** The lists and contents before and after an operation, as `Subdev` describes it. */
  lemma AddedCells(before: seq<Spec.Cell>, after: seq<Spec.Cell>, a: Key, v: nat)
    requires Spec.Where(before, a) == |before| && after == before + [Spec.Cell(a, v, false)]
    ensures (after, Spec.Code(0)) == Spec.Apply(before, Spec.AddOp(a, v))
  {
  }

  /** Performs one operation of the sequential specification, with all the memory it needs. */
  method Perform(d: SubdevHash, op: Spec.Op) returns (result: Spec.Result)
    requires d.Valid() && UniqueKeys(d.table.list) && (op.KeysOp? ==> op.rows > 0)
    requires op.AddOp? ==> |op.address| <= Spec.MAX_ADDRESS
    modifies d`trace, d`freed, d.table, d.table.buckets, d.table.bloomBv
    modifies d.table.list`next, d.table.list`prev, d.table.list`hhPrev, d.table.list`hhNext, d.table.list`kind
    modifies d.table.list`flag
    ensures d.Valid() && UniqueKeys(d.table.list)
    ensures (Cells(d.table.list), result) == Spec.Apply(old(Cells(d.table.list)), op)
    ensures (d.table.buckets == old(d.table.buckets) || fresh(d.table.buckets))
         && (d.table.bloomBv == old(d.table.bloomBv) || fresh(d.table.bloomBv))
    ensures forall e | e in d.table.list :: e in old(d.table.list) || fresh(e)
  {
    hide *;
    match op {
      case AddOp(a, v) => result := PerformAdd(d, a, v);
      case DeleteOp(a) => result := PerformDelete(d, a);
      case DeleteAllOp => result := PerformDeleteAll(d);
      case FindOp(a) => result := PerformFind(d, a);
      case MarkOp(a) => result := PerformMark(d, a);
      case SweepOp => result := PerformSweep(d);
      case KeysOp(kind, rows) => result := PerformKeys(d, kind, rows);
    }
  }

  /** Performs a whole run: contents and answers are those of the sequential specification. */
  method PerformAll(d: SubdevHash, ops: seq<Spec.Op>) returns (results: seq<Spec.Result>)
    requires d.Valid() && UniqueKeys(d.table.list) && forall i | 0 <= i < |ops| :: Spec.Fitting(ops[i])
    modifies d`trace, d`freed, d.table, d.table.buckets, d.table.bloomBv
    modifies d.table.list`next, d.table.list`prev, d.table.list`hhPrev, d.table.list`hhNext, d.table.list`kind
    modifies d.table.list`flag, d.table.list`hashv
    ensures d.Valid() && UniqueKeys(d.table.list)
    ensures Cells(d.table.list) == Spec.After(old(Cells(d.table.list)), ops)
    ensures Spec.Answers(old(Cells(d.table.list)), ops, results)
  {
    hide SubdevHash.Valid, UniqueKeys, Cells, Spec.Apply;
    results := [];
    for i := 0 to |ops|
      invariant d.Valid() && UniqueKeys(d.table.list) && |results| == i
      invariant d.table.buckets == old(d.table.buckets) || fresh(d.table.buckets)
      invariant d.table.bloomBv == old(d.table.bloomBv) || fresh(d.table.bloomBv)
      invariant forall j {:trigger d.table.list[j]} | 0 <= j < |d.table.list| ::
                  d.table.list[j] in old(d.table.list) || fresh(d.table.list[j])
      invariant Cells(d.table.list) == Spec.After(old(Cells(d.table.list)), ops[..i])
      invariant Spec.Answers(old(Cells(d.table.list)), ops[..i], results)
    {
      AfterSnoc(old(Cells(d.table.list)), ops, i);
      ghost var was := d.table.list;
      var result := Perform(d, ops[i]);
      forall j {:trigger d.table.list[j]} | 0 <= j < |d.table.list|
        ensures d.table.list[j] in old(d.table.list) || fresh(d.table.list[j])
      {
        var e := d.table.list[j];
        assert e in d.table.list;
        if e in was {
          var k :| 0 <= k < |was| && was[k] == e;
        }
      }
      AnswersSnoc(old(Cells(d.table.list)), ops, results, i, result);
      results := results + [result];
    }
    assert ops[..|ops|] == ops;
  }

  lemma AfterSnoc(items: seq<Spec.Cell>, ops: seq<Spec.Op>, i: nat)
    requires i < |ops|
    ensures Spec.After(items, ops[..i + 1]) == Spec.Apply(Spec.After(items, ops[..i]), ops[i]).0
  {
    assert ops[..i + 1][..i] == ops[..i];
  }

  lemma AnswersSnoc(items: seq<Spec.Cell>, ops: seq<Spec.Op>, results: seq<Spec.Result>, i: nat, result: Spec.Result)
    requires i < |ops| && Spec.Answers(items, ops[..i], results)
    requires result == Spec.Apply(Spec.After(items, ops[..i]), ops[i]).1
    ensures Spec.Answers(items, ops[..i + 1], results + [result])
  {
    forall j | 0 <= j < i + 1
      ensures (results + [result])[j] == Spec.Apply(Spec.After(items, ops[..i + 1][..j]), ops[..i + 1][j]).1
    {
      assert ops[..i + 1][..j] == ops[..j] && (j < i ==> ops[..i][..j] == ops[..j]);
    }
  }

  method PerformDeleteAll(d: SubdevHash) returns (result: Spec.Result)
    requires d.Valid()
    modifies d`freed, d.table, d.table.buckets, d.table.bloomBv
    modifies d.table.list`next, d.table.list`prev, d.table.list`hhPrev, d.table.list`hhNext
    ensures d.Valid() && UniqueKeys(d.table.list)
    ensures (Cells(d.table.list), result) == Spec.Apply(old(Cells(d.table.list)), Spec.DeleteAllOp)
    ensures (d.table.buckets == old(d.table.buckets) || fresh(d.table.buckets))
         && (d.table.bloomBv == old(d.table.bloomBv) || fresh(d.table.bloomBv))
    ensures forall e | e in d.table.list :: e in old(d.table.list) || fresh(e)
  {
    hide SubdevHash.Valid, HashTable.Valid;
    d.DeleteAll(true);
    result := Spec.Code(0);
  }

  method PerformFind(d: SubdevHash, a: Key) returns (result: Spec.Result)
    requires d.Valid() && UniqueKeys(d.table.list)
    ensures (Cells(d.table.list), result) == Spec.Apply(Cells(d.table.list), Spec.FindOp(a))
  {
    hide SubdevHash.Valid, HashTable.Valid, HashTable.Found, HashTable.Sized, UniqueKeys;
    FoundWhere(Table(d), a);
    var kind := d.Find(a, true);
    result := Spec.Kind(kind);
  }

  method PerformMark(d: SubdevHash, a: Key) returns (result: Spec.Result)
    requires d.Valid() && UniqueKeys(d.table.list)
    modifies d`trace, d.table.list`flag
    ensures d.Valid() && d.table.list == old(d.table.list)
    ensures (Cells(d.table.list), result) == Spec.Apply(old(Cells(d.table.list)), Spec.MarkOp(a))
  {
    hide SubdevHash.Valid, HashTable.Valid, HashTable.Found, HashTable.Sized, UniqueKeys, IndexOf, Cells;
    ghost var was, before, e := d.table.list, Cells(d.table.list), Found(d, a);
    FoundWhere(Table(d), a);
    var kind := d.FindEx(a, true);
    result := Spec.Kind(kind);
    ghost var after := Cells(d.table.list);
    if e == null {
      assert after == before;
    } else {
      OtherEntries(was, e);
      assert after == before[IndexOf(was, e) := before[IndexOf(was, e)].(flag := true)];
    }
  }

  /** The marks of a valid table say what its trace says. */
  lemma {:induction false} UnmarkedCells(trace: seq<Event>, s: seq<Entry>)
    requires forall e | e in s :: e.flag == Marked(trace, e)
    ensures Unmarked(trace, s) == Spec.Unmarked(Cells(s))
  {
    if s != [] {
      var init := s[..|s| - 1];
      UnmarkedCells(trace, init);
      assert Cells(s)[..|s| - 1] == Cells(init);
    }
  }

  lemma MarksAreTraced(d: SubdevHash)
    requires d.Valid()
    ensures forall e | e in d.table.list :: e.flag == Marked(d.trace, e)
  {
  }

  method PerformSweep(d: SubdevHash) returns (result: Spec.Result)
    requires d.Valid() && UniqueKeys(d.table.list)
    modifies d`trace, d.table.list`flag
    ensures d.Valid() && d.table.list == old(d.table.list)
    ensures (Cells(d.table.list), result) == Spec.Apply(old(Cells(d.table.list)), Spec.SweepOp)
  {
    hide SubdevHash.Valid, HashTable.Valid, UniqueKeys, Cells, Marked, Unmarked, Spec.Unmarked;
    ghost var before := Cells(d.table.list);
    MarksAreTraced(d);
    UnmarkedCells(d.trace, d.table.list);
    var reported := d.Iterator(true);
    result := Spec.Keys(reported);
    assert Cells(d.table.list) == Spec.Cleared(before, |before|);
  }

  lemma {:induction false} OfKindCells(kind: nat, s: seq<Entry>)
    ensures OfKind(kind, s) == Spec.OfKind(kind, Cells(s))
  {
    if s != [] {
      var init := s[..|s| - 1];
      OfKindCells(kind, init);
      assert Cells(s)[..|s| - 1] == Cells(init);
    }
  }

  /** The C strings in the first `n` rows. */
  method Texts(out: array<AddressRow>, n: nat) returns (keys: seq<Key>)
    requires n <= out.Length && forall i | 0 <= i < n :: TextOf(out[i]).Ends?
    ensures |keys| == n && forall i | 0 <= i < n :: TextOf(out[i]) == Ends(keys[i])
  {
    keys := [];
    for i := 0 to n
      invariant |keys| == i && forall j | 0 <= j < i :: TextOf(out[j]) == Ends(keys[j])
    {
      keys := keys + [TextOf(out[i]).chars];
    }
  }

  method PerformKeys(d: SubdevHash, kind: nat, rows: nat) returns (result: Spec.Result)
    requires d.Valid() && rows > 0
    ensures d.Valid() && (Cells(d.table.list), result) == Spec.Apply(Cells(d.table.list), Spec.KeysOp(kind, rows))
  {
    hide SubdevHash.Valid, HashTable.Valid, Cells, OfKind, Spec.OfKind;
    var out := new AddressRow[rows](_ => AddressRow("", '\0'));
    var n := d.GetKeys(kind, out, rows, true);
    OfKindCells(kind, d.table.list);
    ghost var all := OfKind(kind, d.table.list);
    assert all[..|all|] == all;
    var keys := Texts(out, n);
    assert keys == all[..n];
    result := Spec.Keys(keys);
  }

  /** The hash table of a valid sub-device table. */
  ghost function Table(d: SubdevHash): HashTable
    requires d.Valid()
    reads d, d.table, d.table.buckets, d.table.bloomBv
    reads d.table.list`hashv, d.table.list`next, d.table.list`prev, d.table.list`hhPrev, d.table.list`hhNext
    reads d.table.list`flag
    ensures Table(d) == d.table && d.table.Valid()
  {
    d.table
  }

  method PerformAdd(d: SubdevHash, a: Key, v: nat) returns (result: Spec.Result)
    requires d.Valid() && UniqueKeys(d.table.list) && |a| <= Spec.MAX_ADDRESS
    modifies d`trace, d.table, d.table.buckets, d.table.bloomBv
    modifies d.table.list`next, d.table.list`prev, d.table.list`hhPrev, d.table.list`hhNext, d.table.list`kind
    ensures d.Valid() && UniqueKeys(d.table.list)
    ensures (Cells(d.table.list), result) == Spec.Apply(old(Cells(d.table.list)), Spec.AddOp(a, v))
    ensures (d.table.buckets == old(d.table.buckets) || fresh(d.table.buckets))
         && (d.table.bloomBv == old(d.table.bloomBv) || fresh(d.table.bloomBv))
    ensures forall e | e in d.table.list :: e in old(d.table.list) || fresh(e)
  {
    hide SubdevHash.Valid, HashTable.Valid, HashTable.Found, HashTable.Sized, UniqueKeys, KeyMap, IndexOf;
    hide Cells, Spec.Apply, Spec.Where;
    ghost var was, before, e := d.table.list, Cells(d.table.list), Found(d, a);
    FoundWhere(Table(d), a);
    var ret := d.Add(a, v, true, true);
    result := Spec.Code(ret);
    ghost var after := Cells(d.table.list);
    if e == null {
      NewAddress(was, before, a);
      assert after == before + [Spec.Cell(a, v, false)];
      AddedCells(before, after, a, v);
    } else {
      OtherEntries(was, e);
      assert after == before[IndexOf(was, e) := before[IndexOf(was, e)].(kind := v)];
      StoredCells(before, after, a, v, IndexOf(was, e));
    }
  }

  lemma StoredCells(before: seq<Spec.Cell>, after: seq<Spec.Cell>, a: Key, v: nat, k: nat)
    requires k == Spec.Where(before, a) < |before| && after == before[k := before[k].(kind := v)]
    ensures (after, Spec.Code(0)) == Spec.Apply(before, Spec.AddOp(a, v))
  {
  }

  ghost function Found(d: SubdevHash, a: Key): Entry?
    requires d.Valid()
    reads d, d.table, d.table.buckets, d.table.bloomBv
    reads d.table.list`hashv, d.table.list`next, d.table.list`prev, d.table.list`hhPrev, d.table.list`hhNext
    reads d.table.list`flag
    ensures (d.table.head != null ==> d.table.Sized()) && Found(d, a) == d.table.Found(a)
  {
    d.table.Found(a)
  }

  lemma NewAddress(s: seq<Entry>, cells: seq<Spec.Cell>, a: Key)
    requires UniqueKeys(s) && |cells| == |s| && Spec.Where(cells, a) == |cells|
    requires forall i | 0 <= i < |s| :: cells[i].address == s[i].key
    ensures forall x: Entry {:trigger s + [x]} | x.key == a :: UniqueKeys(s + [x])
  {
  }

  lemma OtherEntries(s: seq<Entry>, e: Entry)
    requires UniqueKeys(s) && e in s
    ensures forall i {:trigger s[i]} | 0 <= i < |s| && i != IndexOf(s, e) :: s[i] != e
  {
  }

  method PerformDelete(d: SubdevHash, a: Key) returns (result: Spec.Result)
    requires d.Valid() && UniqueKeys(d.table.list)
    modifies d`freed, d.table, d.table.buckets, d.table.bloomBv
    modifies d.table.list`next, d.table.list`prev, d.table.list`hhPrev, d.table.list`hhNext
    ensures d.Valid() && UniqueKeys(d.table.list)
    ensures (Cells(d.table.list), result) == Spec.Apply(old(Cells(d.table.list)), Spec.DeleteOp(a))
    ensures (d.table.buckets == old(d.table.buckets) || fresh(d.table.buckets))
         && (d.table.bloomBv == old(d.table.bloomBv) || fresh(d.table.bloomBv))
    ensures forall e | e in d.table.list :: e in old(d.table.list) || fresh(e)
  {
    hide SubdevHash.Valid, HashTable.Valid, HashTable.Found, HashTable.Sized, UniqueKeys, KeyMap, IndexOf;
    hide Cells, Without, Spec.Apply, Spec.Where;
    ghost var was, before, e := d.table.list, Cells(d.table.list), Found(d, a);
    FoundWhere(Table(d), a);
    var ret := d.Delete(a, true);
    result := Spec.Code(ret);
    assert Cells(was) == before;
    if e != null {
      RemoveErases(was, e);
      RemovedCells(was, e);
      RemovedApply(before, Cells(d.table.list), a, IndexOf(was, e));
    } else {
      MissedApply(before, a);
    }
  }

  lemma RemovedCells(s: seq<Entry>, e: Entry)
    requires e in s
    ensures var k, cells := IndexOf(s, e), Cells(s);
            Cells(Without(s, e)) == cells[..k] + cells[k + 1..]
  {
  }

  lemma RemovedApply(before: seq<Spec.Cell>, after: seq<Spec.Cell>, a: Key, k: nat)
    requires k < |before| && k == Spec.Where(before, a) && after == before[..k] + before[k + 1..]
    ensures (after, Spec.Code(0)) == Spec.Apply(before, Spec.DeleteOp(a))
  {
  }

  lemma MissedApply(before: seq<Spec.Cell>, a: Key)
    requires Spec.Where(before, a) == |before|
    ensures (before, Spec.Code(-1)) == Spec.Apply(before, Spec.DeleteOp(a))
  {
  }

  // ----- addresses of more than 16 characters ---------------------------------------------------

  /** An address that has been added is found exactly if it was short enough to be stored whole. */
  lemma AddedIsFoundIff(d: SubdevHash, a: Key, x: Entry)
    requires d.Valid() && x in d.table.list && x.key == Stored(a)
    ensures d.table.head != null ==> d.table.Sized()
    ensures d.table.Found(a) != null <==> |a| < ADDRESS_MAX_LEN
  {
    d.table.FoundIsMember(a);
  }

  /** Adding an address that is not found keeps the stored addresses unique exactly if what is
      stored of it is not there yet; for one that is stored whole this is always so. */
  lemma AddKeepsUniqueIff(s: seq<Entry>, a: Key, x: Entry)
    requires UniqueKeys(s) && x.key == Stored(a) && forall e | e in s :: e.key != a
    ensures UniqueKeys(s + [x]) <==> forall e | e in s :: e.key != Stored(a)
    ensures |a| < ADDRESS_MAX_LEN ==> UniqueKeys(s + [x])
  {
    var t := s + [x];
    assert t[|s|] == x;
    if e :| e in s && e.key == Stored(a) {
      var i := IndexOf(s, e);
      assert t[i] == e;
    }
  }

  /** An address of 17 characters: its first addition succeeds but it is not found, and so the
      second addition stores the same 16 characters once more. */
  method LongAddressExample(hashFcn: HashFcn) returns (d: SubdevHash, kind: nat)
    ensures d.Valid() && kind == 65535 && |d.table.list| == 2
    ensures d.table.list[0].key == d.table.list[1].key == "0123456789abcdef"
  {
    hide *;
    d := new SubdevHash(hashFcn, false, 0);
    var long := "0123456789abcdefg";
    LongIsCut(long);
    NothingFound(d, long);
    var ret := d.Add(long, 1, true, true);
    NothingFound(d, long);
    kind := d.Find(long, true);
    ret := d.Add(long, 1, true, true);
  }

  lemma LongIsCut(long: Key)
    requires long == "0123456789abcdefg"
    ensures Stored(long) == "0123456789abcdef" != long
  {
    assert |long| == 17 && long[..16] == "0123456789abcdef";
  }

  lemma NothingFound(d: SubdevHash, a: Key)
    requires d.Valid() && forall e | e in d.table.list :: e.key != a
    ensures (d.table.head != null ==> d.table.Sized()) && d.table.Found(a) == null
  {
    d.table.FoundIsMember(a);
  }
}
