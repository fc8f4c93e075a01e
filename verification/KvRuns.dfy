/** What the file means as a map, over runs of operations, and where it stops being one. */
module KvRuns {
  import opened ByteStrings
  import opened KvRows

  predicate Occupied(it: Item) {
    it.valueLen != 0
  }

  ghost function KeyOf(it: Item): Bytes {
    CString(it.key)
  }

  ghost function ValueOf(it: Item): Bytes
    requires ItemOk(it)
  {
    it.value[..it.valueLen]
  }

  /** Occupied slots come first, and under different keys. */
  ghost predicate RowGood(r: Row) {
    && RowOk(r) && RowFits(r)
    && (Occupied(r[1]) ==> Occupied(r[0]) && KeyOf(r[0]) != KeyOf(r[1]))
  }

  /** The map a row stands for; of two slots under one key the first counts. */
  ghost function RowMap(r: Row): map<Bytes, Bytes>
    requires RowOk(r)
  {
    var m := if Occupied(r[1]) then map[KeyOf(r[1]) := ValueOf(r[1])] else map[];
    if Occupied(r[0]) then m[KeyOf(r[0]) := ValueOf(r[0])] else m
  }

  /** No key is a proper prefix of another. */
  ghost predicate PrefixFree(keys: set<Bytes>) {
    forall a, b | a in keys && b in keys && a <= b :: a == b
  }

  /** Among prefix-free keys the scan's comparison is equality. */
  lemma MatchesIsEqual(it: Item, key: Bytes, keys: set<Bytes>)
    requires ItemOk(it) && Occupied(it) && IsKey(key)
    requires PrefixFree(keys) && key in keys && KeyOf(it) in keys
    ensures Matches(it, key) <==> KeyOf(it) == key
  {
    MatchesIsPrefix(it, key);
  }

  /** Where the scan stops, in terms of whole keys. */
  lemma StopByKey(r: Row, key: Bytes, keys: set<Bytes>)
    requires RowGood(r) && IsKey(key)
    requires PrefixFree(keys) && key in keys && RowMap(r).Keys <= keys
    ensures Stop(r, key, 0) == (if !Occupied(r[0]) || KeyOf(r[0]) == key then 0
                                else if !Occupied(r[1]) || KeyOf(r[1]) == key then 1 else ROW_SIZE)
  {
    if Occupied(r[0]) {
      assert KeyOf(r[0]) in RowMap(r);
      MatchesIsEqual(r[0], key, keys);
    }
    if Occupied(r[1]) {
      assert KeyOf(r[1]) in RowMap(r);
      MatchesIsEqual(r[1], key, keys);
    }
  }

  /** The slot that set has written: a good item for its key and value. */
  lemma WrittenItem(it: Item, key: Bytes, value: Bytes)
    requires ItemOk(it) && IsKey(key) && 0 < |value| <= VAL_LEN
    requires Occupied(it) ==> KeyOf(it) == key
    ensures Fits(it)
    ensures var it' := if Occupied(it) then Updated(it, value) else Stored(it, key, value);
            ItemOk(it') && Fits(it') && Occupied(it') && KeyOf(it') == key && ValueOf(it') == value
  {
    StoredOk(key, value);
    if Occupied(it) {
      UpdatedOk(it, value);
    }
  }

  /** Set on a row is map update; it fails exactly when two other keys fill the row. */
  lemma PutRefines(r: Row, key: Bytes, value: Bytes, keys: set<Bytes>)
    requires RowGood(r) && IsKey(key) && 0 < |value| <= VAL_LEN
    requires PrefixFree(keys) && key in keys && RowMap(r).Keys <= keys
    ensures PutRow(r, key, value) == None <==> key !in RowMap(r) && |RowMap(r)| == ROW_SIZE
    ensures PutRow(r, key, value).Some? ==>
              var r' := PutRow(r, key, value).value;
              RowGood(r') && RowMap(r') == RowMap(r)[key := value]
  {
    hide Stop, Stored, Updated, KeyOf, ValueOf, ItemOk, Fits, PrefixFree, RowMap;
    FullForOthers(r, key);
    StopByKey(r, key, keys);
    var j := Stop(r, key, 0);
    if j < ROW_SIZE {
      WrittenItem(r[j], key, value);
      WrittenRow(r, j, if Occupied(r[j]) then Updated(r[j], value) else Stored(r[j], key, value), key, value);
    }
  }

  lemma WrittenRow(r: Row, j: nat, it: Item, key: Bytes, value: Bytes)
    requires RowGood(r) && j < ROW_SIZE && (Occupied(r[j]) ==> KeyOf(r[j]) == key)
    requires j == 1 ==> Occupied(r[0]) && KeyOf(r[0]) != key
    requires j == 0 && Occupied(r[1]) ==> Occupied(r[0])
    requires ItemOk(it) && Fits(it) && Occupied(it) && KeyOf(it) == key && ValueOf(it) == value
    ensures RowGood(r[j := it]) && RowMap(r[j := it]) == RowMap(r)[key := value]
  {
    hide KeyOf, ValueOf, ItemOk, Fits;
  }

  /** Two other keys fill the row. */
  lemma FullForOthers(r: Row, key: Bytes)
    requires RowGood(r)
    ensures key !in RowMap(r) && |RowMap(r)| == ROW_SIZE <==>
              Occupied(r[0]) && Occupied(r[1]) && KeyOf(r[0]) != key && KeyOf(r[1]) != key
  {
    hide KeyOf, ValueOf, ItemOk, Fits;
  }

  /** Get on a row is map lookup. */
  lemma GetRefines(r: Row, key: Bytes, keys: set<Bytes>)
    requires RowGood(r) && IsKey(key)
    requires PrefixFree(keys) && key in keys && RowMap(r).Keys <= keys
    ensures GetRow(r, key) == if key in RowMap(r) then Some(RowMap(r)[key]) else None
  {
    if Occupied(r[0]) {
      assert KeyOf(r[0]) in RowMap(r);
      MatchesIsEqual(r[0], key, keys);
    }
    if Occupied(r[1]) {
      assert KeyOf(r[1]) in RowMap(r);
      MatchesIsEqual(r[1], key, keys);
    }
  }

  /** Del on a row, in terms of whole keys. */
  lemma RmByKey(r: Row, key: Bytes, keys: set<Bytes>)
    requires RowGood(r) && IsKey(key)
    requires PrefixFree(keys) && key in keys && RowMap(r).Keys <= keys
    ensures RmRow(r, key, 0) == (if Occupied(r[0]) && KeyOf(r[0]) == key then r[0 := EMPTY_ITEM]
                                 else if Occupied(r[1]) && KeyOf(r[1]) == key then r[1 := EMPTY_ITEM]
                                 else r)
  {
    if Occupied(r[0]) {
      assert KeyOf(r[0]) in RowMap(r);
      MatchesIsEqual(r[0], key, keys);
    }
    if Occupied(r[1]) {
      assert KeyOf(r[1]) in RowMap(r);
      MatchesIsEqual(r[1], key, keys);
    }
  }

  /** Del on a row is map removal, and leaves a row that is a map again if and only if it
      does not empty the first slot in front of an occupied second one. */
  lemma RmRefines(r: Row, key: Bytes, keys: set<Bytes>)
    requires RowGood(r) && IsKey(key)
    requires PrefixFree(keys) && key in keys && RowMap(r).Keys <= keys
    ensures RowOk(RmRow(r, key, 0)) && RowMap(RmRow(r, key, 0)) == RowMap(r) - {key}
    ensures RowGood(RmRow(r, key, 0)) <==> !(Occupied(r[1]) && KeyOf(r[0]) == key)
  {
    hide KeyOf, ValueOf, ItemOk, Fits, RmRow, PrefixFree;
    RmRowOk(r, key, 0);
    RmByKey(r, key, keys);
    if Occupied(r[0]) && KeyOf(r[0]) == key {
      ErasedRow(r, 0, key);
    } else if Occupied(r[1]) && KeyOf(r[1]) == key {
      ErasedRow(r, 1, key);
    } else {
      assert key !in RowMap(r);
    }
  }

  lemma ErasedRow(r: Row, j: nat, key: Bytes)
    requires RowGood(r) && j < ROW_SIZE && Occupied(r[j]) && KeyOf(r[j]) == key
    ensures RowOk(r[j := EMPTY_ITEM]) && RowMap(r[j := EMPTY_ITEM]) == RowMap(r) - {key}
    ensures RowGood(r[j := EMPTY_ITEM]) <==> !(Occupied(r[1]) && j == 0)
  {
    hide KeyOf, ValueOf;
    assert Fits(EMPTY_ITEM) && !Occupied(EMPTY_ITEM);
  }

  // ----- where a file is not a map ---------------------------------------------------

  /** After del of the first of two keys, get no longer finds the second, and only then. */
  lemma DelHidesIffHole(r: Row, key: Bytes, keys: set<Bytes>)
    requires RowGood(r) && IsKey(key)
    requires PrefixFree(keys) && key in keys && RowMap(r).Keys <= keys
    requires forall k | k in RowMap(r) :: IsKey(k)
    ensures RowOk(RmRow(r, key, 0))
    ensures (forall k | k in RowMap(r) && k != key ::
               GetRow(RmRow(r, key, 0), k) == Some(RowMap(r)[k]))
       <==> !(Occupied(r[1]) && KeyOf(r[0]) == key)
  {
    var r' := RmRow(r, key, 0);
    RmRefines(r, key, keys);
    if Occupied(r[1]) && KeyOf(r[0]) == key {
      RmByKey(r, key, keys);
      assert KeyOf(r[1]) in RowMap(r) && GetRow(r', KeyOf(r[1])) == None;
    } else {
      forall k | k in RowMap(r) && k != key ensures GetRow(r', k) == Some(RowMap(r)[k]) {
        GetRefines(r', k, keys);
        assert k in RowMap(r');
      }
    }
  }

  /** Set under a proper prefix of a stored key overwrites the longer key's value. */
  lemma PrefixOverwrites(r: Row, key: Bytes, value: Bytes)
    requires RowGood(r) && IsKey(key) && 0 < |value| <= VAL_LEN
    requires Occupied(r[0]) && key < KeyOf(r[0]) && IsKey(KeyOf(r[0]))
    ensures PutRow(r, key, value).Some?
    ensures var r' := PutRow(r, key, value).value;
            RowGood(r') && KeyOf(r'[0]) == KeyOf(r[0]) && GetRow(r', KeyOf(r[0])) == Some(value)
  {
    MatchesIsPrefix(r[0], key);
    MatchesIsPrefix(r[0], KeyOf(r[0]));
    UpdatedOk(r[0], value);
  }

  // ----- runs --------------------------------------------------------------------------

  datatype Op = SetOp(key: Bytes, value: Bytes) | DelOp(key: Bytes) | EmptyOp

  type Rows = s: seq<Row> | |s| == COL_SIZE witness seq(COL_SIZE, _ => [EMPTY_ITEM, EMPTY_ITEM])

  function EmptyRows(): Rows {
    seq(COL_SIZE, _ => [EMPTY_ITEM, EMPTY_ITEM])
  }

  function Cut(value: Bytes): Bytes {
    if |value| > VAL_LEN then value[..VAL_LEN] else value
  }

  ghost predicate RowsOk(s: Rows) {
    forall i {:trigger s[i]} | 0 <= i < COL_SIZE :: RowOk(s[i]) && RowFits(s[i])
  }

  ghost predicate OpOk(op: Op) {
    op.EmptyOp? || IsKey(op.key)
  }

  /** One operation on the rows of the file. */
  ghost function Step(s: Rows, op: Op): Rows
    requires RowsOk(s) && OpOk(op)
  {
    match op
    case SetOp(key, value) =>
      if value == [] || PutRow(s[HashGen(key)], key, Cut(value)).None? then s
      else s[HashGen(key) := PutRow(s[HashGen(key)], key, Cut(value)).value]
    case DelOp(key) => s[HashGen(key) := RmRow(s[HashGen(key)], key, 0)]
    case EmptyOp => EmptyRows()
  }

  lemma StepOk(s: Rows, op: Op)
    requires RowsOk(s) && OpOk(op)
    ensures RowsOk(Step(s, op))
  {
    match op
    case SetOp(key, value) =>
      if value != [] {
        PutRowOk(s[HashGen(key)], key, Cut(value));
      }
    case DelOp(key) => RmRowOk(s[HashGen(key)], key, 0);
    case EmptyOp => assert Fits(EMPTY_ITEM);
  }

  /** The part of a map that belongs in row `i`. */
  ghost function InRow(m: map<Bytes, Bytes>, i: nat): map<Bytes, Bytes> {
    map k | k in m && HashGen(k) == i :: m[k]
  }

  /** The same operation on a map with room for two keys per row. */
  ghost function MapStep(m: map<Bytes, Bytes>, op: Op): map<Bytes, Bytes> {
    match op
    case SetOp(key, value) =>
      if value != [] && (key in m || |InRow(m, HashGen(key))| < ROW_SIZE) then m[key := Cut(value)]
      else m
    case DelOp(key) => m - {key}
    case EmptyOp => map[]
  }

  /** The rows stand for the map. */
  ghost predicate Refines(s: Rows, m: map<Bytes, Bytes>) {
    && RowsOk(s)
    && forall i {:trigger s[i]} | 0 <= i < COL_SIZE :: RowGood(s[i]) && RowMap(s[i]) == InRow(m, i)
  }

  /** No key is a proper prefix of another in the same row. */
  ghost predicate PrefixFreeRows(keys: set<Bytes>) {
    forall a, b | a in keys && b in keys && HashGen(a) == HashGen(b) && a <= b :: a == b
  }

  ghost function KeysOfRow(keys: set<Bytes>, i: nat): set<Bytes> {
    set k | k in keys && HashGen(k) == i
  }

  /** Set and emptying are always allowed; del only of the last occupied slot of a row. */
  ghost predicate Allowed(s: Rows, op: Op, keys: set<Bytes>) {
    match op
    case SetOp(key, _) => IsKey(key) && key in keys
    case DelOp(key) =>
      && IsKey(key) && key in keys
      && var r := s[HashGen(key)];
         !(Occupied(r[1]) && KeyOf(r[0]) == key)
    case EmptyOp => true
  }

  lemma InRowUpdate(m: map<Bytes, Bytes>, key: Bytes, value: Bytes, i: nat)
    ensures InRow(m[key := value], i) == if HashGen(key) == i then InRow(m, i)[key := value] else InRow(m, i)
    ensures InRow(m - {key}, i) == if HashGen(key) == i then InRow(m, i) - {key} else InRow(m, i)
  {
  }

  /** Changing one row and the map's part of it alike keeps the refinement. */
  lemma RowChanged(s: Rows, m: map<Bytes, Bytes>, i: nat, r: Row, m': map<Bytes, Bytes>)
    requires Refines(s, m) && i < COL_SIZE && RowGood(r) && RowMap(r) == InRow(m', i)
    requires forall j: nat | j != i :: InRow(m', j) == InRow(m, j)
    ensures Refines(s[i := r], m')
  {
    hide RowMap, InRow;
  }

  /** The part of the keys and of the map in one row. */
  lemma RowKeys(s: Rows, m: map<Bytes, Bytes>, keys: set<Bytes>, i: nat)
    requires Refines(s, m) && PrefixFreeRows(keys) && m.Keys <= keys && i < COL_SIZE
    ensures RowGood(s[i]) && RowMap(s[i]) == InRow(m, i)
    ensures PrefixFree(KeysOfRow(keys, i)) && RowMap(s[i]).Keys <= KeysOfRow(keys, i)
  {
    hide RowMap;
  }

  lemma SetRefines(s: Rows, m: map<Bytes, Bytes>, key: Bytes, value: Bytes, keys: set<Bytes>)
    requires Refines(s, m) && PrefixFreeRows(keys) && m.Keys <= keys && IsKey(key) && key in keys
    ensures Refines(Step(s, SetOp(key, value)), MapStep(m, SetOp(key, value)))
  {
    hide PutRow, RowMap, InRow, RowGood, PrefixFree, PrefixFreeRows, Refines;
    var i := HashGen(key);
    RowKeys(s, m, keys, i);
    RowsOkOfRefines(s, m);
    if value != [] {
      PutRefines(s[i], key, Cut(value), KeysOfRow(keys, i));
      InRowMember(m, key);
      AtMostTwo(s[i]);
      var r := PutRow(s[i], key, Cut(value));
      if r.Some? {
        var m' := m[key := Cut(value)];
        forall j: nat ensures InRow(m', j) == if j == i then InRow(m, j)[key := Cut(value)] else InRow(m, j) {
          InRowUpdate(m, key, Cut(value), j);
        }
        RowChanged(s, m, i, r.value, m');
      }
    }
  }

  lemma AtMostTwo(r: Row)
    requires RowGood(r)
    ensures |RowMap(r)| <= ROW_SIZE
  {
    hide KeyOf, ValueOf, ItemOk, Fits;
  }

  lemma InRowMember(m: map<Bytes, Bytes>, key: Bytes)
    ensures key in InRow(m, HashGen(key)) <==> key in m
  {
  }

  lemma RowsOkOfRefines(s: Rows, m: map<Bytes, Bytes>)
    requires Refines(s, m)
    ensures RowsOk(s)
  {
  }

  lemma DelRefines(s: Rows, m: map<Bytes, Bytes>, key: Bytes, keys: set<Bytes>)
    requires Refines(s, m) && PrefixFreeRows(keys) && m.Keys <= keys && Allowed(s, DelOp(key), keys)
    ensures Refines(Step(s, DelOp(key)), MapStep(m, DelOp(key)))
  {
    hide RmRow, RowMap, InRow, RowGood, PrefixFree, PrefixFreeRows, Refines;
    var i := HashGen(key);
    RowKeys(s, m, keys, i);
    RowsOkOfRefines(s, m);
    RmRefines(s[i], key, KeysOfRow(keys, i));
    forall j: nat ensures InRow(m - {key}, j) == if j == i then InRow(m, j) - {key} else InRow(m, j) {
      InRowUpdate(m, key, [], j);
    }
    RowChanged(s, m, i, RmRow(s[i], key, 0), m - {key});
  }

  /** An empty file stands for the empty map. */
  lemma EmptyRefines()
    ensures Refines(EmptyRows(), map[])
  {
    assert Fits(EMPTY_ITEM);
    forall i | 0 <= i < COL_SIZE ensures RowMap(EmptyRows()[i]) == InRow(map[], i) {
    }
  }

  /** One allowed operation keeps the refinement. */
  lemma StepRefines(s: Rows, m: map<Bytes, Bytes>, op: Op, keys: set<Bytes>)
    requires Refines(s, m) && PrefixFreeRows(keys) && m.Keys <= keys && Allowed(s, op, keys)
    ensures OpOk(op) && Refines(Step(s, op), MapStep(m, op)) && MapStep(m, op).Keys <= keys
  {
    match op
    case SetOp(key, value) => SetRefines(s, m, key, value, keys);
    case DelOp(key) => DelRefines(s, m, key, keys);
    case EmptyOp => EmptyRefines();
  }

  /** A get answers from the map, and a set fails exactly when two other keys fill the row. */
  lemma AnswersRefine(s: Rows, m: map<Bytes, Bytes>, key: Bytes, value: Bytes, keys: set<Bytes>)
    requires Refines(s, m) && PrefixFreeRows(keys) && m.Keys <= keys && IsKey(key) && key in keys
    requires value != []
    ensures GetRow(s[HashGen(key)], key) == if key in m then Some(m[key]) else None
    ensures PutRow(s[HashGen(key)], key, Cut(value)) == None
       <==> key !in m && |InRow(m, HashGen(key))| == ROW_SIZE
  {
    var i := HashGen(key);
    RowKeys(s, m, keys, i);
    InRowMember(m, key);
    GetRefines(s[i], key, KeysOfRow(keys, i));
    PutRefines(s[i], key, Cut(value), KeysOfRow(keys, i));
  }

  ghost function Run(s: Rows, ops: seq<Op>): (s': Rows)
    requires RowsOk(s) && forall i | 0 <= i < |ops| :: OpOk(ops[i])
    ensures RowsOk(s')
    decreases |ops|
  {
    if ops == [] then s
    else
      StepOk(s, ops[0]);
      Run(Step(s, ops[0]), ops[1..])
  }

  ghost function MapRun(m: map<Bytes, Bytes>, ops: seq<Op>): map<Bytes, Bytes>
    decreases |ops|
  {
    if ops == [] then m else MapRun(MapStep(m, ops[0]), ops[1..])
  }

  /** Every operation of the run is allowed when its turn comes. */
  ghost predicate AllowedRun(s: Rows, ops: seq<Op>, keys: set<Bytes>)
    requires RowsOk(s) && forall i | 0 <= i < |ops| :: OpOk(ops[i])
    decreases |ops|
  {
    if ops == [] then true
    else
      StepOk(s, ops[0]);
      Allowed(s, ops[0], keys) && AllowedRun(Step(s, ops[0]), ops[1..], keys)
  }

  /** Over every allowed run the file is a map with room for two keys per row. */
  lemma {:induction false} RunRefines(s: Rows, m: map<Bytes, Bytes>, ops: seq<Op>, keys: set<Bytes>)
    requires Refines(s, m) && PrefixFreeRows(keys) && m.Keys <= keys
    requires forall i | 0 <= i < |ops| :: OpOk(ops[i])
    requires AllowedRun(s, ops, keys)
    ensures Refines(Run(s, ops), MapRun(m, ops)) && MapRun(m, ops).Keys <= keys
    decreases |ops|
  {
    hide Step, MapStep, Refines, Allowed, PrefixFreeRows;
    if ops != [] {
      RowsOkOfRefines(s, m);
      StepRefines(s, m, ops[0], keys);
      StepOk(s, ops[0]);
      RunRefines(Step(s, ops[0]), MapStep(m, ops[0]), ops[1..], keys);
    }
  }

  // ----- a deleted key stays unreadable ----------------------------------------------------

  ghost predicate Writes(op: Op, i: nat) {
    op.SetOp? && HashGen(op.key) == i
  }

  ghost predicate Missing(s: Rows, key: Bytes)
    requires RowsOk(s)
  {
    |key| < KEY_LEN && GetRow(s[HashGen(key)], key) == None
  }

  lemma MissingStep(s: Rows, key: Bytes, op: Op)
    requires RowsOk(s) && IsKey(key) && Missing(s, key) && OpOk(op) && !Writes(op, HashGen(key))
    ensures RowsOk(Step(s, op)) && Missing(Step(s, op), key)
  {
    StepOk(s, op);
    hide HashGen, PutRow, RmRow, GetRow;
    match op
    case SetOp(_, _) =>
    case DelOp(other) => RmKeepsMissing(s[HashGen(key)], other, key);
    case EmptyOp => MissingInEmpty(key);
  }

  lemma MissingInEmpty(key: Bytes)
    requires IsKey(key)
    ensures RowOk([EMPTY_ITEM, EMPTY_ITEM]) && GetRow([EMPTY_ITEM, EMPTY_ITEM], key) == None
  {
    assert Fits(EMPTY_ITEM);
  }

  /** From any file: once `key` is deleted, get does not find it until a key is set into its
      row, whatever else is set, deleted or emptied. */
  lemma StaysDeleted(s: Rows, key: Bytes, ops: seq<Op>)
    requires RowsOk(s) && IsKey(key)
    requires forall i | 0 <= i < |ops| :: OpOk(ops[i]) && !Writes(ops[i], HashGen(key))
    ensures RowsOk(Step(s, DelOp(key))) && Missing(Run(Step(s, DelOp(key)), ops), key)
  {
    StepOk(s, DelOp(key));
    GetAfterRm(s[HashGen(key)], key);
    StaysMissing(Step(s, DelOp(key)), key, ops);
  }

  lemma {:induction false} StaysMissing(s: Rows, key: Bytes, ops: seq<Op>)
    requires RowsOk(s) && IsKey(key) && Missing(s, key)
    requires forall i | 0 <= i < |ops| :: OpOk(ops[i]) && !Writes(ops[i], HashGen(key))
    ensures Missing(Run(s, ops), key)
    decreases |ops|
  {
    hide Step, Missing, Writes;
    if ops != [] {
      MissingStep(s, key, ops[0]);
      StaysMissing(Step(s, ops[0]), key, ops[1..]);
    }
  }

  // ----- runs that a map would answer differently ------------------------------------

  /** "a" and "01" share a row. */
  lemma SameRow()
    ensures HashGen([97]) == HashGen([48, 49]) && HashGen([46]) == HashGen([46, 64])
    ensures IsKey([97]) && IsKey([48, 49]) && IsKey([46]) && IsKey([46, 64])
  {
    assert HashFrom([97][1..], 97) == 97;
    assert [48, 49][1..] == [49] && [49][1..] == [];
    assert HashFrom([49], 48) == 1633;
    assert [46, 64][1..] == [64] && [64][1..] == [];
    assert HashFrom([64], 46) == 1582;
  }

  /** With `l` set after `k`, and `k` deleted, `l` is not found. */
  ghost predicate HiddenAfterDel(r: Row, k: Bytes, l: Bytes, w: Bytes)
    requires IsKey(k) && IsKey(l) && 0 < |w| <= VAL_LEN
  {
    && RowGood(r) && PutRow(r, l, w).Some?
    && var r' := PutRow(r, l, w).value;
       RowGood(r') && RowOk(RmRow(r', k, 0)) && GetRow(RmRow(r', k, 0), l) == None
  }

  /** Two keys set into an empty row, then the first deleted: the second is not found. */
  lemma HoleInRow(k: Bytes, v: Bytes, l: Bytes, w: Bytes)
    requires IsKey(k) && IsKey(l) && !(k <= l) && !(l <= k)
    requires 0 < |v| <= VAL_LEN && 0 < |w| <= VAL_LEN
    ensures var r0 := [EMPTY_ITEM, EMPTY_ITEM];
            RowGood(r0) && PutRow(r0, k, v).Some? && HiddenAfterDel(PutRow(r0, k, v).value, k, l, w)
  {
    var r0, keys := [EMPTY_ITEM, EMPTY_ITEM], {k, l};
    assert Fits(EMPTY_ITEM);
    StoredOk(k, v);
    StoredOk(l, w);
    PutRefines(r0, k, v, keys);
    var r1: Row := [Stored(EMPTY_ITEM, k, v), EMPTY_ITEM];
    assert PutRow(r0, k, v).value == r1;
    PutRefines(r1, l, w, keys);
    StopByKey(r1, l, keys);
    var r2 := PutRow(r1, l, w).value;
    assert r2 == [r1[0], Stored(EMPTY_ITEM, l, w)];
    RmRefines(r2, k, keys);
    RmByKey(r2, k, keys);
  }

  /** A run after which a key that was set and never deleted is no longer found. */
  lemma HoleRun(k: Bytes, v: Bytes, l: Bytes, w: Bytes)
    requires IsKey(k) && IsKey(l) && !(k <= l) && !(l <= k) && HashGen(k) == HashGen(l)
    requires 0 < |v| <= VAL_LEN && 0 < |w| <= VAL_LEN
    ensures var ops := [SetOp(k, v), SetOp(l, w), DelOp(k)];
            && RowsOk(EmptyRows()) && (forall i | 0 <= i < |ops| :: OpOk(ops[i]))
            && GetRow(Run(EmptyRows(), ops)[HashGen(l)], l) == None
            && l in MapRun(map[], ops)
  {
    hide PutRow, RmRow, GetRow, HashGen, Refines, RowGood, MapRun, Run;
    EmptyRefines();
    HoleInRow(k, v, l, w);
    RowsOkOfRefines(EmptyRows(), map[]);
    RunOfThree(EmptyRows(), SetOp(k, v), SetOp(l, w), DelOp(k));
    HoleMap(k, v, l, w);
  }

  lemma HoleMap(k: Bytes, v: Bytes, l: Bytes, w: Bytes)
    requires k != l && v != [] && w != []
    ensures l in MapRun(map[], [SetOp(k, v), SetOp(l, w), DelOp(k)])
  {
    var o1, o2, o3 := SetOp(k, v), SetOp(l, w), DelOp(k);
    assert [o1, o2, o3][1..] == [o2, o3] && [o2, o3][1..] == [o3] && [o3][1..] == [];
    assert InRow(map[], HashGen(k)) == map[];
    var m := map[k := Cut(v)];
    assert MapStep(map[], o1) == m;
    assert InRow(m, HashGen(l)) == m || InRow(m, HashGen(l)) == map[];
    var m' := MapStep(m, o2);
    assert l in m' && l in MapStep(m', o3);
    assert MapRun(MapStep(m', o3), []) == MapStep(m', o3);
    assert MapRun(m', [o3]) == MapStep(m', o3);
    assert MapRun(m, [o2, o3]) == MapStep(m', o3);
  }

  /** There are keys for such a run: "a" and "01" share a row. */
  lemma HoleExample(v: Bytes, w: Bytes)
    requires 0 < |v| <= VAL_LEN && 0 < |w| <= VAL_LEN
    ensures var ops := [SetOp([97], v), SetOp([48, 49], w), DelOp([97])];
            && RowsOk(EmptyRows()) && (forall i | 0 <= i < |ops| :: OpOk(ops[i]))
            && GetRow(Run(EmptyRows(), ops)[HashGen([48, 49])], [48, 49]) == None
            && [48, 49] in MapRun(map[], ops)
  {
    SameRow();
    var k: Bytes, l: Bytes := [97], [48, 49];
    assert k[0] == 97 && l[0] == 48;
    hide *;
    HoleRun(k, v, l, w);
  }

  lemma RunOfThree(s: Rows, o1: Op, o2: Op, o3: Op)
    requires RowsOk(s) && OpOk(o1) && OpOk(o2) && OpOk(o3)
    ensures RowsOk(Step(s, o1)) && RowsOk(Step(Step(s, o1), o2))
    ensures Run(s, [o1, o2, o3]) == Step(Step(Step(s, o1), o2), o3)
  {
    hide Step;
    StepOk(s, o1);
    StepOk(Step(s, o1), o2);
    StepOk(Step(Step(s, o1), o2), o3);
    assert [o1, o2, o3][1..] == [o2, o3] && [o2, o3][1..] == [o3] && [o3][1..] == [];
    var s3 := Step(Step(Step(s, o1), o2), o3);
    assert Run(s3, []) == s3;
    assert Run(Step(Step(s, o1), o2), [o3]) == s3;
    assert Run(Step(s, o1), [o2, o3]) == s3;
  }

  /** A run in which setting a key changes what get returns for another key that it is a
      proper prefix of. */
  lemma PrefixRun(k: Bytes, v: Bytes, l: Bytes, w: Bytes)
    requires IsKey(k) && IsKey(l) && l < k && HashGen(k) == HashGen(l)
    requires 0 < |v| <= VAL_LEN && 0 < |w| <= VAL_LEN
    ensures var ops := [SetOp(k, v), SetOp(l, w)];
            && RowsOk(EmptyRows()) && (forall i | 0 <= i < |ops| :: OpOk(ops[i]))
            && GetRow(Run(EmptyRows(), ops)[HashGen(k)], k) == Some(w)
            && k in MapRun(map[], ops) && MapRun(map[], ops)[k] == v
  {
    hide PutRow, RmRow, GetRow, HashGen, Refines, RowGood, MapRun, Run, PrefixFree;
    EmptyRefines();
    RowsOkOfRefines(EmptyRows(), map[]);
    PrefixInRow(k, v, l, w);
    RunOfTwo(EmptyRows(), SetOp(k, v), SetOp(l, w));
    PrefixMap(k, v, l, w);
  }

  lemma PrefixInRow(k: Bytes, v: Bytes, l: Bytes, w: Bytes)
    requires IsKey(k) && IsKey(l) && l < k
    requires 0 < |v| <= VAL_LEN && 0 < |w| <= VAL_LEN
    ensures var r0 := [EMPTY_ITEM, EMPTY_ITEM];
            && RowFits(r0) && PutRow(r0, k, v).Some?
            && var r1 := PutRow(r0, k, v).value;
               RowGood(r1) && PutRow(r1, l, w).Some?
               && RowGood(PutRow(r1, l, w).value) && GetRow(PutRow(r1, l, w).value, k) == Some(w)
  {
    assert Fits(EMPTY_ITEM);
    StoredOk(k, v);
    var r1: Row := [Stored(EMPTY_ITEM, k, v), EMPTY_ITEM];
    assert PutRow([EMPTY_ITEM, EMPTY_ITEM], k, v).value == r1;
    PrefixOverwrites(r1, l, w);
  }

  lemma PrefixMap(k: Bytes, v: Bytes, l: Bytes, w: Bytes)
    requires k != l && 0 < |v| <= VAL_LEN && w != []
    ensures var m := MapRun(map[], [SetOp(k, v), SetOp(l, w)]); k in m && m[k] == v
  {
    var o1, o2 := SetOp(k, v), SetOp(l, w);
    assert [o1, o2][1..] == [o2] && [o2][1..] == [];
    assert InRow(map[], HashGen(k)) == map[];
    var m := map[k := v];
    assert MapStep(map[], o1) == m;
    assert MapRun(MapStep(m, o2), []) == MapStep(m, o2);
    assert MapRun(m, [o2]) == MapStep(m, o2);
  }

  /** There are keys for such a run: "." and ".@" share a row. */
  lemma PrefixExample(v: Bytes, w: Bytes)
    requires 0 < |v| <= VAL_LEN && 0 < |w| <= VAL_LEN
    ensures var ops := [SetOp([46, 64], v), SetOp([46], w)];
            && RowsOk(EmptyRows()) && (forall i | 0 <= i < |ops| :: OpOk(ops[i]))
            && GetRow(Run(EmptyRows(), ops)[HashGen([46, 64])], [46, 64]) == Some(w)
            && [46, 64] in MapRun(map[], ops) && MapRun(map[], ops)[[46, 64]] == v
  {
    SameRow();
    var k: Bytes, l: Bytes := [46, 64], [46];
    assert l < k;
    hide *;
    PrefixRun(k, v, l, w);
  }

  lemma RunOfTwo(s: Rows, o1: Op, o2: Op)
    requires RowsOk(s) && OpOk(o1) && OpOk(o2)
    ensures RowsOk(Step(s, o1))
    ensures Run(s, [o1, o2]) == Step(Step(s, o1), o2)
  {
    hide Step;
    StepOk(s, o1);
    StepOk(Step(s, o1), o2);
    assert [o1, o2][1..] == [o2] && [o2][1..] == [];
    var s2 := Step(Step(s, o1), o2);
    assert Run(s2, []) == s2;
    assert Run(Step(s, o1), [o2]) == s2;
  }
}
