/** Whole runs of hash table operations: any sequence of them keeps the table valid, leaves the
    application-order list its list semantics gives, and refines a map from keys to items. */
module TableRuns {
  import opened Entries
  import opened Chains
  import opened KeyMaps
  import opened UtHash
  import AppList
  import opened StableSorting

  /** One operation. Additions of a key that is there already are left out, as callers look
      the key up first; `made` and `allocOk` say which allocations succeed. */
  datatype Op =
    | AppendNew(e: Entry, made: MakeOutcome, allocOk: bool)
    | InOrderNew(e: Entry, made: MakeOutcome, allocOk: bool)
    | ReplaceBy(e: Entry, made: MakeOutcome, allocOk: bool)
    | ReplaceInOrder(e: Entry, made: MakeOutcome, allocOk: bool)
    | DeleteKey(key: Key)
    | SortAll
    | ClearAll

  ghost predicate HasKey(s: seq<Entry>, key: Key) {
    exists e :: e in s && e.key == key
  }

  ghost function Under(s: seq<Entry>, key: Key): (e: Entry)
    requires HasKey(s, key)
    ensures e in s && e.key == key
  {
    var e :| e in s && e.key == key;
    e
  }

  ghost function Cleared(s: seq<Entry>, key: Key): seq<Entry> {
    if HasKey(s, key) then Without(s, Under(s, key)) else s
  }

  /** What an operation makes of the list; `ok` says whether it found the memory it needed. */
  ghost function OnList(cmp: (Entry, Entry) -> int, s: seq<Entry>, op: Op, ok: bool): seq<Entry> {
    match op
    case AppendNew(e, _, _) => if HasKey(s, e.key) || !ok then s else s + [e]
    case InOrderNew(e, _, _) => if HasKey(s, e.key) || !ok then s else Insert(cmp, s, e)
    case ReplaceBy(e, _, _) => Cleared(s, e.key) + (if ok then [e] else [])
    case ReplaceInOrder(e, _, _) => if ok then Insert(cmp, Cleared(s, e.key), e) else Cleared(s, e.key)
    case DeleteKey(key) => Cleared(s, key)
    case SortAll => StableSort(cmp, s)
    case ClearAll => []
  }

  /** What it makes of the map. */
  ghost function OnMap(m: map<Key, Entry>, op: Op, ok: bool): map<Key, Entry> {
    match op
    case AppendNew(e, _, _) => if e.key in m || !ok then m else m[e.key := e]
    case InOrderNew(e, _, _) => if e.key in m || !ok then m else m[e.key := e]
    case ReplaceBy(e, _, _) => if ok then m[e.key := e] else m - {e.key}
    case ReplaceInOrder(e, _, _) => if ok then m[e.key := e] else m - {e.key}
    case DeleteKey(key) => m - {key}
    case SortAll => m
    case ClearAll => map[]
  }

  ghost function RunList(cmp: (Entry, Entry) -> int, s: seq<Entry>, ops: seq<Op>, oks: seq<bool>): seq<Entry>
    requires |ops| == |oks|
  {
    if ops == [] then s
    else OnList(cmp, RunList(cmp, s, ops[..|ops| - 1], oks[..|ops| - 1]), ops[|ops| - 1], oks[|ops| - 1])
  }

  ghost function RunMap(m: map<Key, Entry>, ops: seq<Op>, oks: seq<bool>): map<Key, Entry>
    requires |ops| == |oks|
  {
    if ops == [] then m
    else OnMap(RunMap(m, ops[..|ops| - 1], oks[..|ops| - 1]), ops[|ops| - 1], oks[|ops| - 1])
  }

  ghost predicate Brings(op: Op, all: set<Entry>) {
    match op
    case AppendNew(e, _, _) => e in all
    case InOrderNew(e, _, _) => e in all
    case ReplaceBy(e, _, _) => e in all
    case ReplaceInOrder(e, _, _) => e in all
    case _ => true
  }

  // ----- the list semantics refines the map semantics ----------------------------------------

  lemma KeyInMap(s: seq<Entry>, key: Key)
    requires UniqueKeys(s)
    ensures HasKey(s, key) <==> key in KeyMap(s)
    ensures HasKey(s, key) ==> KeyMap(s)[key] == Under(s, key)
  {
    KeyMapRepresents(s);
  }

  lemma AppendIsInsertAt(s: seq<Entry>, e: Entry)
    ensures InsertAt(s, |s|, e) == s + [e]
  {
  }

  lemma ClearedErases(s: seq<Entry>, key: Key)
    requires UniqueKeys(s)
    ensures UniqueKeys(Cleared(s, key)) && KeyMap(Cleared(s, key)) == KeyMap(s) - {key}
    ensures !HasKey(Cleared(s, key), key)
    ensures forall e | e in Cleared(s, key) :: e in s
  {
    KeyInMap(s, key);
    hide KeyMap, Without;
    if HasKey(s, key) {
      RemoveErases(s, Under(s, key));
      UniqueKeysDistinct(s);
      WithoutMembers(s, Under(s, key));
    }
    KeyInMap(Cleared(s, key), key);
  }

  lemma WithoutMembers(s: seq<Entry>, e: Entry)
    requires Distinct(s) && e in s
    ensures forall x | x in Without(s, e) :: x in s
  {
    RemoveAtMembers(s, IndexOf(s, e));
  }

  lemma InsertAtPlace(cmp: (Entry, Entry) -> int, s: seq<Entry>, e: Entry) returns (k: nat)
    ensures k <= |s| && Insert(cmp, s, e) == InsertAt(s, k, e)
  {
    k := AppList.Place(cmp, s, e);
    AppList.PlaceIsInsert(cmp, s, e);
  }

  lemma SortedItems(cmp: (Entry, Entry) -> int, s: seq<Entry>)
    ensures forall e | e in StableSort(cmp, s) :: e in s
    ensures forall e | e in s :: e in StableSort(cmp, s)
  {
    var t := StableSort(cmp, s);
    SortIsPermutation(cmp, s);
    forall e | e in t ensures e in s {
      assert e in multiset(t);
      assert e in multiset(s);
    }
    forall e | e in s ensures e in t {
      assert e in multiset(s);
      assert e in multiset(t);
    }
  }

  lemma SortedSameMap(cmp: (Entry, Entry) -> int, s: seq<Entry>)
    requires UniqueKeys(s)
    ensures UniqueKeys(StableSort(cmp, s)) && KeyMap(StableSort(cmp, s)) == KeyMap(s)
  {
    hide KeyMap;
    var t := StableSort(cmp, s);
    SortedItems(cmp, s);
    SortIsPermutation(cmp, s);
    UniqueKeysDistinct(s);
    DistinctPermuted(s, t);
    UniqueKeysSubset(s, t);
    SameItemsSameMap(s, t);
  }

  lemma {:induction false} DistinctCounts(s: seq<Entry>)
    ensures Distinct(s) <==> forall e :: multiset(s)[e] <= 1
  {
    if s != [] {
      var init, x := s[..|s| - 1], s[|s| - 1];
      DistinctCounts(init);
      assert s == init + [x];
      if Distinct(s) {
        assert x !in init;
        assert multiset(init)[x] == 0;
      } else if Distinct(init) {
        assert exists i :: 0 <= i < |init| && init[i] == x;
        assert x in multiset(init);
        assert multiset(s)[x] >= 2;
      } else {
        var e :| multiset(init)[e] > 1;
        assert multiset(s)[e] > 1;
      }
    }
  }

  lemma DistinctPermuted(s: seq<Entry>, t: seq<Entry>)
    requires Distinct(s) && multiset(t) == multiset(s)
    ensures Distinct(t)
  {
    DistinctCounts(s);
    DistinctCounts(t);
  }

  /** One operation on the list is one operation on the map. */
  lemma OnListRefines(cmp: (Entry, Entry) -> int, s: seq<Entry>, op: Op, ok: bool)
    requires UniqueKeys(s)
    ensures UniqueKeys(OnList(cmp, s, op, ok))
    ensures KeyMap(OnList(cmp, s, op, ok)) == OnMap(KeyMap(s), op, ok)
  {
    hide UniqueKeys, KeyMap, InsertAt, Cleared;
    match op
    case AppendNew(e, _, _) =>
      KeyInMap(s, e.key);
      if !HasKey(s, e.key) {
        AddUpdates(s, |s|, e);
        AppendIsInsertAt(s, e);
      }
    case InOrderNew(e, _, _) =>
      KeyInMap(s, e.key);
      if !HasKey(s, e.key) {
        var k := InsertAtPlace(cmp, s, e);
        AddUpdates(s, k, e);
      }
    case ReplaceBy(e, _, _) =>
      ClearedErases(s, e.key);
      var rest := Cleared(s, e.key);
      AddUpdates(rest, |rest|, e);
      AppendIsInsertAt(rest, e);
      assert rest + [] == rest;
      assert (KeyMap(s) - {e.key})[e.key := e] == KeyMap(s)[e.key := e];
    case ReplaceInOrder(e, _, _) =>
      ClearedErases(s, e.key);
      var rest := Cleared(s, e.key);
      var k := InsertAtPlace(cmp, rest, e);
      AddUpdates(rest, k, e);
      assert (KeyMap(s) - {e.key})[e.key := e] == KeyMap(s)[e.key := e];
    case DeleteKey(key) => ClearedErases(s, key);
    case SortAll => SortedSameMap(cmp, s);
    case ClearAll => NothingYet(cmp);
  }

  /** Every run on the list is that run on the map. */
  lemma {:induction false} RunRefines(cmp: (Entry, Entry) -> int, s: seq<Entry>, ops: seq<Op>, oks: seq<bool>)
    requires |ops| == |oks| && UniqueKeys(s)
    ensures UniqueKeys(RunList(cmp, s, ops, oks))
    ensures KeyMap(RunList(cmp, s, ops, oks)) == RunMap(KeyMap(s), ops, oks)
  {
    hide OnList, OnMap;
    if ops != [] {
      var n := |ops| - 1;
      RunRefines(cmp, s, ops[..n], oks[..n]);
      OnListRefines(cmp, RunList(cmp, s, ops[..n], oks[..n]), ops[n], oks[n]);
    }
  }

  // ----- the table does what the list semantics says ------------------------------------------

  /** The list that stays in `all` whatever one operation does. */
  lemma StaysWithin(cmp: (Entry, Entry) -> int, s: seq<Entry>, op: Op, ok: bool, all: set<Entry>)
    requires UniqueKeys(s) && Brings(op, all) && forall e | e in s :: e in all
    ensures forall e | e in OnList(cmp, s, op, ok) :: e in all
  {
    hide UniqueKeys, InsertAt, Cleared;
    match op
    case AppendNew(_, _, _) =>
    case InOrderNew(e, _, _) =>
      var k := InsertAtPlace(cmp, s, e);
      InsertedMembers(s, k, e);
    case ReplaceBy(e, _, _) => ClearedErases(s, e.key);
    case ReplaceInOrder(e, _, _) =>
      ClearedErases(s, e.key);
      var k := InsertAtPlace(cmp, Cleared(s, e.key), e);
      InsertedMembers(Cleared(s, e.key), k, e);
    case DeleteKey(key) => ClearedErases(s, key);
    case SortAll =>
      SortedItems(cmp, s);
    case ClearAll =>
  }

  lemma FoundIsUnder(t: HashTable, key: Key)
    requires t.Valid() && UniqueKeys(t.list)
    ensures t.head != null ==> t.Sized()
    ensures t.Found(key) == if HasKey(t.list, key) then Under(t.list, key) else null
  {
    hide HashTable.Valid, HashTable.Found, UniqueKeys, KeyMap;
    t.FoundIsMember(key);
    KeyInMap(t.list, key);
  }

  /** Whether an operation finds the memory it needs. */
  ghost predicate Enough(t: HashTable, st: TableState, op: Op) {
    match op
    case AppendNew(e, made, allocOk) => HasKey(st.list, e.key) || t.MemorySuffices(st, e, made, allocOk)
    case InOrderNew(e, made, allocOk) => HasKey(st.list, e.key) || t.MemorySuffices(st, e, made, allocOk)
    case ReplaceBy(e, made, allocOk) => t.ReplaceFits(st, e, made, allocOk)
    case ReplaceInOrder(e, made, allocOk) => t.ReplaceFits(st, e, made, allocOk)
    case _ => true
  }

  /** Every allocation the operation may ask for succeeds. */
  predicate AllMemory(op: Op) {
    op.DeleteKey? || op.SortAll? || op.ClearAll? || (op.made.AllMade? && op.allocOk)
  }

  lemma AllMemoryIsEnough(t: HashTable, st: TableState, op: Op)
    requires AllMemory(op)
    ensures Enough(t, st, op)
  {
  }

  /** The item under `key`, if there is one, is also in the bucket that is searched for it. */
  ghost predicate Findable(t: HashTable, was: TableState, key: Key) {
    HasKey(was.list, key) ==> t.Holds(was, Under(was.list, key))
  }

  /** The state without the item under `key`, if there is one. */
  ghost function TakenOut(t: HashTable, was: TableState, key: Key): TableState
    requires Findable(t, was, key)
  {
    if HasKey(was.list, key) then t.Removed(was, Under(was.list, key)) else was
  }

  ghost predicate Replaces(t: HashTable, was: TableState, e: Entry, ok: bool, now: TableState) {
    && Findable(t, was, e.key)
    && if ok then t.Took(now, e, TakenOut(t, was, e.key)) else now == TakenOut(t, was, e.key)
  }

  /** What an operation makes of the whole state: links, chains, buckets, counters and filter. */
  ghost predicate Moves(t: HashTable, cmp: (Entry, Entry) -> int, was: TableState, op: Op, ok: bool, now: TableState) {
    && ok == Enough(t, was, op) && now.list == OnList(cmp, was.list, op, ok)
    && match op
       case AppendNew(e, _, _) => if HasKey(was.list, e.key) || !ok then now == was else t.Took(now, e, was)
       case InOrderNew(e, _, _) => if HasKey(was.list, e.key) || !ok then now == was else t.Took(now, e, was)
       case ReplaceBy(e, _, _) => Replaces(t, was, e, ok, now)
       case ReplaceInOrder(e, _, _) => Replaces(t, was, e, ok, now)
       case DeleteKey(key) => Findable(t, was, key) && now == TakenOut(t, was, key)
       case ClearAll => now == if was.head == null then was else t.Freed(was)
       case SortAll => now == was.(head := now.head, tail := now.tail, list := now.list)
  }

  /** Performs one operation on a table. */
  method Perform(t: HashTable, op: Op, cmp: (Entry, Entry) -> int, ghost all: set<Entry>) returns (ok: bool)
    requires t.Valid() && UniqueKeys(t.list) && OrderedBy(cmp, all) && Brings(op, all)
    requires forall e | e in t.list :: e in all
    modifies t, t.buckets, t.bloomBv, all`hashv, all`next, all`prev, all`hhPrev, all`hhNext
    ensures t.Valid() && t.list == OnList(cmp, old(t.list), op, ok)
    ensures ok == Enough(t, old(t.State()), op) && Moves(t, cmp, old(t.State()), op, ok, t.State())
    ensures (t.buckets == old(t.buckets) || fresh(t.buckets)) && (t.bloomBv == old(t.bloomBv) || fresh(t.bloomBv))
  {
    hide HashTable.Valid, UniqueKeys, KeyMap, InsertAt, Without, Distinct, OrderedBy;
    hide HashTable.Took, HashTable.Found, HashTable.Sized, HashTable.MemorySuffices, HashTable.ReplaceFits;
    hide HashTable.Holds, HashTable.Removed;
    ok := true;
    match op {
      case AppendNew(e, made, allocOk) =>
        FoundIsUnder(t, e.key);
        var f := t.Find(e.key);
        if f == null {
          var oomed := t.Add(e, made, allocOk);
          ok := !oomed;
        }
      case InOrderNew(e, made, allocOk) =>
        FoundIsUnder(t, e.key);
        var f := t.Find(e.key);
        if f == null {
          var oomed := t.AddInorder(e, made, allocOk, cmp);
          ok := !oomed;
        }
      case ReplaceBy(e, made, allocOk) =>
        ok := PerformReplace(t, e, made, allocOk);
        assert t.list == OnList(cmp, old(t.list), op, ok);
      case ReplaceInOrder(e, made, allocOk) =>
        ok := PerformReplaceInOrder(t, e, made, allocOk, cmp);
        assert t.list == OnList(cmp, old(t.list), op, ok);
      case DeleteKey(key) =>
        FoundIsUnder(t, key);
        var f := t.Find(key);
        if f != null {
          t.Delete(f);
        }
      case SortAll =>
        Narrower(cmp, t.list, all);
        t.Sort(cmp);
      case ClearAll =>
        t.Clear();
    }
  }

  method PerformReplace(t: HashTable, e: Entry, made: MakeOutcome, allocOk: bool) returns (ok: bool)
    requires t.Valid() && UniqueKeys(t.list)
    modifies t, t.buckets, t.bloomBv, t.list`next, t.list`prev, t.list`hhPrev, t.list`hhNext
    modifies e`hashv, e`next, e`prev, e`hhPrev, e`hhNext
    ensures t.Valid() && t.list == Cleared(old(t.list), e.key) + (if ok then [e] else [])
    ensures ok == t.ReplaceFits(old(t.State()), e, made, allocOk)
    ensures Replaces(t, old(t.State()), e, ok, t.State())
    ensures (t.buckets == old(t.buckets) || fresh(t.buckets)) && (t.bloomBv == old(t.bloomBv) || fresh(t.bloomBv))
  {
    hide HashTable.Valid, UniqueKeys, Without, HashTable.Took, HashTable.Found, HashTable.Sized;
    hide HashTable.ReplaceFits, HashTable.Holds, HashTable.Removed;
    FoundIsUnder(t, e.key);
    UnderItself(t.list, e);
    var replaced, oomed := t.Replace(e, made, allocOk);
    ok := !oomed;
  }

  method PerformReplaceInOrder(t: HashTable, e: Entry, made: MakeOutcome, allocOk: bool, cmp: (Entry, Entry) -> int)
    returns (ok: bool)
    requires t.Valid() && UniqueKeys(t.list)
    modifies t, t.buckets, t.bloomBv, t.list`next, t.list`prev, t.list`hhPrev, t.list`hhNext
    modifies e`hashv, e`next, e`prev, e`hhPrev, e`hhNext
    ensures t.Valid()
    ensures t.list == if ok then Insert(cmp, Cleared(old(t.list), e.key), e) else Cleared(old(t.list), e.key)
    ensures ok == t.ReplaceFits(old(t.State()), e, made, allocOk)
    ensures Replaces(t, old(t.State()), e, ok, t.State())
    ensures (t.buckets == old(t.buckets) || fresh(t.buckets)) && (t.bloomBv == old(t.bloomBv) || fresh(t.bloomBv))
  {
    hide HashTable.Valid, UniqueKeys, Without, HashTable.Took, HashTable.Found, HashTable.Sized;
    hide HashTable.ReplaceFits, HashTable.Holds, HashTable.Removed, Insert;
    FoundIsUnder(t, e.key);
    UnderItself(t.list, e);
    var replaced, oomed := t.ReplaceInorder(e, made, allocOk, cmp);
    ok := !oomed;
  }

  lemma UnderItself(s: seq<Entry>, e: Entry)
    requires UniqueKeys(s)
    ensures e in s ==> HasKey(s, e.key) && Under(s, e.key) == e
  {
    if e in s {
      KeyMapRepresents(s);
      KeyInMap(s, e.key);
    }
  }

  lemma Narrower(cmp: (Entry, Entry) -> int, s: seq<Entry>, all: set<Entry>)
    requires OrderedBy(cmp, all) && forall e | e in s :: e in all
    ensures OrderedBy(cmp, set e | e in s)
  {
  }

  ghost predicate Headed(st: TableState) {
    st.head == At(st.list, 0)
  }

  /** `states` are the states a run goes through, `oks` what its operations answer. */
  ghost predicate Trace(t: HashTable, cmp: (Entry, Entry) -> int, ops: seq<Op>, oks: seq<bool>,
                        states: seq<TableState>) {
    && |oks| == |ops| && |states| == |ops| + 1
    && (forall i {:trigger states[i]} | 0 <= i <= |ops| :: Headed(states[i]))
    && forall i {:trigger ops[i]} {:trigger oks[i]} | 0 <= i < |ops| ::
         Moves(t, cmp, states[i], ops[i], oks[i], states[i + 1])
  }

  /** Performs a whole run on a table that was empty at first: the table stays valid, every
      operation does all that it should and fails exactly when memory is short, the list is
      that of the run, and the table stands for the map of the run. */
  method PerformAll(t: HashTable, ops: seq<Op>, cmp: (Entry, Entry) -> int, ghost all: set<Entry>)
    returns (oks: seq<bool>, ghost states: seq<TableState>)
    requires t.Valid() && t.list == [] && OrderedBy(cmp, all)
    requires forall i | 0 <= i < |ops| :: Brings(ops[i], all)
    modifies t, t.buckets, t.bloomBv, all`hashv, all`next, all`prev, all`hhPrev, all`hhNext
    ensures t.Valid() && |oks| == |ops| && t.list == RunList(cmp, [], ops, oks)
    ensures UniqueKeys(t.list) && KeyMap(t.list) == RunMap(map[], ops, oks)
    ensures Trace(t, cmp, ops, oks, states) && states[0] == old(t.State()) && states[|ops|] == t.State()
    ensures forall i | 0 <= i < |ops| && AllMemory(ops[i]) :: oks[i]
  {
    hide HashTable.Valid, HashTable.State, KeyMap, UniqueKeys, OnList, OnMap, OrderedBy, Brings;
    hide Moves, Enough, AllMemory, Trace;
    oks, states := [], [t.State()];
    NothingYet(cmp);
    StateList(t);
    TraceStarts(t, cmp, t.State());
    for i := 0 to |ops|
      invariant |oks| == i == |states| - 1 && t.Valid() && t.list == RunList(cmp, [], ops[..i], oks)
      invariant UniqueKeys(t.list) && forall e | e in t.list :: e in all
      invariant t.buckets == old(t.buckets) || fresh(t.buckets)
      invariant t.bloomBv == old(t.bloomBv) || fresh(t.bloomBv)
      invariant Trace(t, cmp, ops[..i], oks, states) && states[0] == old(t.State()) && states[i] == t.State()
      invariant forall j | 0 <= j < i && AllMemory(ops[j]) :: oks[j]
    {
      ghost var was := t.list;
      var ok := Perform(t, ops[i], cmp, all);
      if AllMemory(ops[i]) {
        AllMemoryIsEnough(t, states[i], ops[i]);
      }
      StaysWithin(cmp, was, ops[i], ok, all);
      OnListRefines(cmp, was, ops[i], ok);
      RunSnoc(cmp, [], ops, oks, i, ok);
      StateList(t);
      TraceSnoc(t, cmp, ops, oks, states, i, ok, t.State());
      oks, states := oks + [ok], states + [t.State()];
    }
    assert ops[..|ops|] == ops;
    RunRefines(cmp, [], ops, oks);
  }

  lemma StateList(t: HashTable)
    requires t.Valid()
    ensures t.State().list == t.list && Headed(t.State()) && (t.list == [] ==> t.head == null)
  {
  }

  lemma TraceStarts(t: HashTable, cmp: (Entry, Entry) -> int, st: TableState)
    requires Headed(st)
    ensures Trace(t, cmp, [], [], [st])
  {
  }

  lemma TraceSnoc(t: HashTable, cmp: (Entry, Entry) -> int, ops: seq<Op>, oks: seq<bool>, states: seq<TableState>,
                  i: nat, ok: bool, now: TableState)
    requires i < |ops| && Trace(t, cmp, ops[..i], oks, states) && Headed(now)
    requires Moves(t, cmp, states[i], ops[i], ok, now)
    ensures Trace(t, cmp, ops[..i + 1], oks + [ok], states + [now])
  {
    hide Moves, Headed;
    var os, ks, ss := ops[..i + 1], oks + [ok], states + [now];
    forall j | 0 <= j < i + 1 ensures Moves(t, cmp, ss[j], os[j], ks[j], ss[j + 1]) {
      assert j < i ==> ops[..i][j] == os[j] && oks[j] == ks[j];
    }
  }

  /** A replacement that finds no memory for a new table has taken the old item out already. */
  method LostInReplacement(hashFcn: HashFcn, bloomOn: bool, bloomNbits: nat, made: MakeOutcome)
    returns (t: HashTable, replaced: Entry?, oomed: bool)
    requires made.TableFails? || made.BucketsFail? || (made.BloomFails? && bloomOn)
    ensures t.Valid() && oomed && replaced != null && t.head == null && t.list == []
  {
    hide *;
    t := new HashTable(hashFcn, bloomOn, bloomNbits);
    var e := new Entry("a", 1);
    var f := new Entry("a", 2);
    StateList(t);
    LoneFacts(t, t.State(), e, f, made);
    oomed := t.Add(e, AllMade, true);
    StateList(t);
    LoneFacts(t, t.State(), e, f, made);
    t.FoundIsMember("a");
    replaced, oomed := t.Replace(f, made, true);
    StateList(t);
  }

  lemma LoneFacts(t: HashTable, st: TableState, e: Entry, f: Entry, made: MakeOutcome)
    requires e.key == f.key
    requires made.TableFails? || made.BucketsFail? || (made.BloomFails? && t.bloomOn)
    ensures t.MemorySuffices(st, e, AllMade, true) && Without([e], e) == [] && [] + [e] == [e]
    ensures st.list == [e] ==> st.list[0] in st.list && !t.ReplaceFits(st, f, made, true)
  {
    hide HashTable.Fills;
    if st.list == [e] {
      assert st.list[0].key == f.key;
    }
  }

  // ----- growth stays inhibited -----------------------------------------------------------------

  /** The operation takes out the only item, and with it frees the table, or clears it. */
  ghost predicate Frees(st: TableState, op: Op) {
    match op
    case DeleteKey(key) => |st.list| == 1 && HasKey(st.list, key)
    case ReplaceBy(e, _, _) => |st.list| == 1 && HasKey(st.list, e.key)
    case ReplaceInOrder(e, _, _) => |st.list| == 1 && HasKey(st.list, e.key)
    case ClearAll => true
    case _ => false
  }

  ghost predicate Inhibited(st: TableState) {
    st.head != null && st.noexpand
  }

  lemma TakenOutInhibited(t: HashTable, was: TableState, key: Key, rest: TableState)
    requires Findable(t, was, key) && rest == TakenOut(t, was, key) && Inhibited(was)
    requires !(|was.list| == 1 && HasKey(was.list, key))
    ensures Inhibited(rest) && rest.numBuckets == was.numBuckets
  {
    if HasKey(was.list, key) {
      t.LoneGone(was.list, Under(was.list, key));
    }
    hide Without;
  }

  lemma TookInhibited(t: HashTable, now: TableState, e: Entry, was: TableState)
    requires t.Took(now, e, was) && Inhibited(was)
    ensures now.noexpand && now.numBuckets == was.numBuckets
  {
  }

  lemma MoveInhibited(t: HashTable, cmp: (Entry, Entry) -> int, was: TableState, op: Op, ok: bool, now: TableState)
    requires Moves(t, cmp, was, op, ok, now) && Headed(was) && Headed(now)
    requires Inhibited(was) && !Frees(was, op)
    ensures Inhibited(now) && now.numBuckets == was.numBuckets
  {
    hide HashTable.Took, TakenOut, Findable, Enough, Cleared, Insert;
    match op
    case AppendNew(e, _, _) =>
      if now != was {
        TookInhibited(t, now, e, was);
      }
    case InOrderNew(e, _, _) =>
      if now != was {
        TookInhibited(t, now, e, was);
        var k := InsertAtPlace(cmp, was.list, e);
      }
    case ReplaceBy(e, _, _) =>
      var rest := TakenOut(t, was, e.key);
      TakenOutInhibited(t, was, e.key, rest);
      if ok {
        TookInhibited(t, now, e, rest);
      }
    case ReplaceInOrder(e, _, _) =>
      var rest := TakenOut(t, was, e.key);
      TakenOutInhibited(t, was, e.key, rest);
      if ok {
        TookInhibited(t, now, e, rest);
        var k := InsertAtPlace(cmp, Cleared(was.list, e.key), e);
      }
    case DeleteKey(key) => TakenOutInhibited(t, was, key, now);
    case SortAll =>
      SortedItems(cmp, was.list);
      assert was.list[0] in now.list;
  }

  /** Once growth is inhibited the number of buckets stays, whatever is done, until the table
      is freed. */
  lemma {:induction false} StaysInhibited(t: HashTable, cmp: (Entry, Entry) -> int, ops: seq<Op>, oks: seq<bool>,
                                          states: seq<TableState>, i: nat, j: nat)
    requires Trace(t, cmp, ops, oks, states) && i <= j <= |ops| && Inhibited(states[i])
    requires forall k | i <= k < j :: !Frees(states[k], ops[k])
    ensures Inhibited(states[j]) && states[j].numBuckets == states[i].numBuckets
    decreases j
  {
    hide Moves, Frees, Inhibited, Headed;
    if i < j {
      StaysInhibited(t, cmp, ops, oks, states, i, j - 1);
      MoveInhibited(t, cmp, states[j - 1], ops[j - 1], oks[j - 1], states[j]);
    }
  }

  lemma NothingYet(cmp: (Entry, Entry) -> int)
    ensures RunList(cmp, [], [], []) == [] && UniqueKeys([]) && KeyMap([]) == map[]
  {
  }

  lemma RunSnoc(cmp: (Entry, Entry) -> int, s: seq<Entry>, ops: seq<Op>, oks: seq<bool>, i: nat, ok: bool)
    requires i < |ops| && |oks| == i
    ensures RunList(cmp, s, ops[..i + 1], oks + [ok])
         == OnList(cmp, RunList(cmp, s, ops[..i], oks), ops[i], ok)
  {
    assert ops[..i + 1][..i] == ops[..i] && (oks + [ok])[..i] == oks;
  }

  // ----- in-order additions and the sort --------------------------------------------------------

  ghost function AllOk(n: nat): (oks: seq<bool>)
    ensures |oks| == n && forall i | 0 <= i < n :: oks[i]
  {
    seq(n, _ => true)
  }

  function InOrderOps(s: seq<Entry>): (ops: seq<Op>)
    ensures |ops| == |s| && forall i | 0 <= i < |s| :: ops[i] == InOrderNew(s[i], AllMade, true)
  {
    seq(|s|, i requires 0 <= i < |s| => InOrderNew(s[i], AllMade, true))
  }

  function AppendOps(s: seq<Entry>): (ops: seq<Op>)
    ensures |ops| == |s| && forall i | 0 <= i < |s| :: ops[i] == AppendNew(s[i], AllMade, true)
  {
    seq(|s|, i requires 0 <= i < |s| => AppendNew(s[i], AllMade, true))
  }

  /** Adding items in order gives the list that appending them and then sorting gives. */
  lemma InOrderIsAppendThenSort(cmp: (Entry, Entry) -> int, s: seq<Entry>)
    requires UniqueKeys(s)
    ensures RunList(cmp, [], InOrderOps(s), AllOk(|s|))
         == RunList(cmp, [], AppendOps(s) + [SortAll], AllOk(|s| + 1))
         == StableSort(cmp, s)
  {
    hide *;
    InOrderGives(cmp, s, |s|);
    AppendGives(cmp, s, |s|);
    WholeRun(s, InOrderOps(s), AppendOps(s));
    SortLast(cmp, AppendOps(s));
  }

  /** Adds the items of `s` in order to a table that was empty. */
  method BuildInOrder(t: HashTable, s: seq<Entry>, cmp: (Entry, Entry) -> int, ghost all: set<Entry>)
    requires t.Valid() && t.list == [] && UniqueKeys(s)
    requires OrderedBy(cmp, all) && forall e | e in s :: e in all
    modifies t, t.buckets, t.bloomBv, all`hashv, all`next, all`prev, all`hhPrev, all`hhNext
    ensures t.Valid() && t.list == StableSort(cmp, s)
  {
    hide HashTable.Valid, UniqueKeys, KeyMap, OrderedBy, RunList, RunMap, StableSort, Trace;
    var oks, states := PerformAll(t, InOrderOps(s), cmp, all);
    assert oks == AllOk(|s|);
    InOrderIsAppendThenSort(cmp, s);
  }

  /** Appends the items of `s` to a table that was empty and sorts it. */
  method BuildThenSort(t: HashTable, s: seq<Entry>, cmp: (Entry, Entry) -> int, ghost all: set<Entry>)
    requires t.Valid() && t.list == [] && UniqueKeys(s)
    requires OrderedBy(cmp, all) && forall e | e in s :: e in all
    modifies t, t.buckets, t.bloomBv, all`hashv, all`next, all`prev, all`hhPrev, all`hhNext
    ensures t.Valid() && t.list == StableSort(cmp, s)
  {
    hide HashTable.Valid, UniqueKeys, KeyMap, OrderedBy, RunList, RunMap, StableSort, Trace;
    var oks, states := PerformAll(t, AppendOps(s) + [SortAll], cmp, all);
    assert oks == AllOk(|s| + 1);
    InOrderIsAppendThenSort(cmp, s);
  }

  lemma WholeRun(s: seq<Entry>, a: seq<Op>, b: seq<Op>)
    requires |a| == |b| == |s|
    ensures s[..|s|] == s && a[..|s|] == a && b[..|s|] == b
  {
  }

  lemma SortLast(cmp: (Entry, Entry) -> int, ops: seq<Op>)
    ensures RunList(cmp, [], ops + [SortAll], AllOk(|ops| + 1)) == StableSort(cmp, RunList(cmp, [], ops, AllOk(|ops|)))
  {
    hide RunList, StableSort;
    var all, n := ops + [SortAll], |ops|;
    assert all[..n + 1] == all && all[..n] == ops && AllOk(n + 1) == AllOk(n) + [true];
    RunSnoc(cmp, [], all, AllOk(n), n, true);
  }

  lemma {:induction false} InOrderGives(cmp: (Entry, Entry) -> int, s: seq<Entry>, k: nat)
    requires UniqueKeys(s) && k <= |s|
    ensures RunList(cmp, [], InOrderOps(s)[..k], AllOk(k)) == StableSort(cmp, s[..k])
  {
    if k > 0 {
      InOrderGives(cmp, s, k - 1);
      SortedItems(cmp, s[..k - 1]);
      NewKey(s, k - 1);
      assert s[..k][..k - 1] == s[..k - 1];
      assert InOrderOps(s)[..k][..k - 1] == InOrderOps(s)[..k - 1] && AllOk(k)[..k - 1] == AllOk(k - 1);
    }
  }

  lemma {:induction false} AppendGives(cmp: (Entry, Entry) -> int, s: seq<Entry>, k: nat)
    requires UniqueKeys(s) && k <= |s|
    ensures RunList(cmp, [], AppendOps(s)[..k], AllOk(k)) == s[..k]
  {
    if k > 0 {
      AppendGives(cmp, s, k - 1);
      NewKey(s, k - 1);
      assert AppendOps(s)[..k][..k - 1] == AppendOps(s)[..k - 1] && AllOk(k)[..k - 1] == AllOk(k - 1);
    }
  }

  lemma NewKey(s: seq<Entry>, k: nat)
    requires UniqueKeys(s) && k < |s|
    ensures !HasKey(s[..k], s[k].key)
  {
  }
}
