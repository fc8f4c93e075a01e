/** What the scans' prefix comparison means when some keys are prefixes of others, and exactly
    when set, get and del still treat a row as a map. The rows are all that set and del can
    leave: also those whose first slot is free while the second is not, and those that store
    one key twice. */
module KvPrefixes {
  import opened ByteStrings
  import opened KvRows
  import opened KvRuns

  /** A slot that a scan for `key` takes for a match. */
  ghost predicate Extends(it: Item, key: Bytes) {
    Occupied(it) && key <= KeyOf(it)
  }

  /** A free slot in front of an occupied one: no scan gets past it. */
  ghost predicate Hole(r: Row) {
    !Occupied(r[0]) && Occupied(r[1])
  }

  lemma MatchesIffExtends(it: Item, key: Bytes)
    requires ItemOk(it) && Occupied(it) && IsKey(key)
    ensures Fits(it) && (Matches(it, key) <==> Extends(it, key))
  {
    MatchesIsPrefix(it, key);
  }

  lemma RowMatches(r: Row, key: Bytes)
    requires RowOk(r) && IsKey(key)
    ensures RowFits(r)
    ensures forall j {:trigger r[j]} | 0 <= j < ROW_SIZE && Occupied(r[j]) :: Matches(r[j], key) <==> Extends(r[j], key)
  {
    RowOkFits(r);
    forall j {:trigger r[j]} | 0 <= j < ROW_SIZE && Occupied(r[j]) ensures Matches(r[j], key) <==> Extends(r[j], key) {
      MatchesIffExtends(r[j], key);
    }
  }

  /** Where the scan stops: at the first match or free slot. */
  lemma StopsAt(r: Row, key: Bytes)
    requires RowOk(r) && IsKey(key)
    ensures RowFits(r)
    ensures Stop(r, key, 0) == (if !Occupied(r[0]) || Extends(r[0], key) then 0
                                else if !Occupied(r[1]) || Extends(r[1], key) then 1 else ROW_SIZE)
  {
    hide KeyOf, ItemOk, Matches, Extends;
    RowMatches(r, key);
  }

  /** Get returns the value of the first stored key that begins with the key asked for, unless
      it lies behind a hole. */
  lemma GetIsFirstExtension(r: Row, key: Bytes)
    requires RowOk(r) && IsKey(key)
    ensures GetRow(r, key) == (if Extends(r[0], key) then Some(ValueOf(r[0]))
                               else if Extends(r[1], key) && !Hole(r) then Some(ValueOf(r[1])) else None)
  {
    StopsAt(r, key);
  }

  /** The first stored key that begins with `key` and is not behind a hole, if there is one,
      is `key`. */
  ghost predicate FirstIsExact(r: Row, key: Bytes) {
    && (Extends(r[0], key) ==> KeyOf(r[0]) == key)
    && (!Extends(r[0], key) && Extends(r[1], key) && !Hole(r) ==> KeyOf(r[1]) == key)
  }

  /** The first slot holds a longer key that begins with `key`, and the second one `key` itself
      with the same value. */
  ghost predicate Coincides(r: Row, key: Bytes)
    requires RowOk(r)
  {
    && Extends(r[0], key) && KeyOf(r[0]) != key
    && Occupied(r[1]) && KeyOf(r[1]) == key && ValueOf(r[1]) == ValueOf(r[0])
  }

  /** Get on a row is map lookup exactly when the first stored key it meets that begins with the
      key is the key itself and nothing is stored under the key behind a hole, or when two slots
      happen to hold the same value. */
  lemma GetIsLookupIff(r: Row, key: Bytes)
    requires RowOk(r) && IsKey(key)
    ensures GetRow(r, key) == (if key in RowMap(r) then Some(RowMap(r)[key]) else None) <==>
              (FirstIsExact(r, key) && (Hole(r) ==> KeyOf(r[1]) != key)) || Coincides(r, key)
  {
    GetIsFirstExtension(r, key);
    KeyExtendsItself(r, key);
    hide KeyOf, ValueOf, ItemOk, Stop, Matches;
  }

  // ----- set -----------------------------------------------------------------------------------

  /** Set on a row is map update, or fails when other keys fill both slots, for every value
      exactly when the first stored key it meets that begins with the key is the key itself. */
  lemma SetIsUpdateIff(r: Row, key: Bytes)
    requires RowOk(r) && IsKey(key)
    ensures FirstIsExact(r, key)
       <==> forall v | 0 < |v| <= VAL_LEN :: SetIsUpdate(r, key, v)
  {
    if FirstIsExact(r, key) {
      forall v | 0 < |v| <= VAL_LEN ensures SetIsUpdate(r, key, v) {
        ExactSetUpdates(r, key, v);
      }
    } else {
      var j := if Extends(r[0], key) then 0 else 1;
      var v: Bytes := if ValueOf(r[j]) == [0] then [1] else [0];
      InexactSetMisses(r, key, j, v);
    }
  }

  ghost predicate SetIsUpdate(r: Row, key: Bytes, v: Bytes)
    requires RowOk(r) && IsKey(key) && 0 < |v| <= VAL_LEN
  {
    RowOkFits(r);
    var p := PutRow(r, key, v);
    if p.None? then Occupied(r[0]) && Occupied(r[1]) && key !in RowMap(r)
    else RowOk(p.value) && RowMap(p.value) == RowMap(r)[key := v]
  }

  lemma ExactSetUpdates(r: Row, key: Bytes, v: Bytes)
    requires RowOk(r) && IsKey(key) && 0 < |v| <= VAL_LEN && FirstIsExact(r, key)
    ensures SetIsUpdate(r, key, v)
  {
    StopsAt(r, key);
    KeyExtendsItself(r, key);
    PutRowOk(r, key, v);
    hide Stop, Stored, Updated, KeyOf, ValueOf, ItemOk, Fits, RowMap;
    var j := Stop(r, key, 0);
    if j < ROW_SIZE {
      WrittenItem(r[j], key, v);
      WrittenMap(r, j, if Occupied(r[j]) then Updated(r[j], v) else Stored(r[j], key, v), key, v);
    } else {
      NotStored(r, key);
    }
  }

  lemma KeyExtendsItself(r: Row, key: Bytes)
    ensures forall j {:trigger r[j]} | 0 <= j < ROW_SIZE :: Occupied(r[j]) && KeyOf(r[j]) == key ==> Extends(r[j], key)
  {
  }

  lemma NotStored(r: Row, key: Bytes)
    requires RowOk(r) && forall j {:trigger r[j]} | 0 <= j < ROW_SIZE :: Occupied(r[j]) ==> KeyOf(r[j]) != key
    ensures key !in RowMap(r)
  {
  }

  /** A slot that is written where no slot before it has the key. */
  lemma WrittenMap(r: Row, j: nat, it: Item, key: Bytes, v: Bytes)
    requires RowOk(r) && j < ROW_SIZE && (Occupied(r[j]) ==> KeyOf(r[j]) == key)
    requires j == 1 ==> Occupied(r[0]) && KeyOf(r[0]) != key
    requires ItemOk(it) && Occupied(it) && KeyOf(it) == key && ValueOf(it) == v
    ensures RowOk(r[j := it]) && RowMap(r[j := it]) == RowMap(r)[key := v]
  {
    hide KeyOf, ValueOf, ItemOk, Fits;
  }

  /** Set under a proper prefix of the first key it meets writes that key's slot. */
  lemma InexactSetMisses(r: Row, key: Bytes, j: nat, v: Bytes)
    requires RowOk(r) && IsKey(key) && 0 < |v| <= VAL_LEN && j < ROW_SIZE
    requires Extends(r[j], key) && KeyOf(r[j]) != key
    requires j == 1 ==> !Extends(r[0], key) && !Hole(r)
    requires ValueOf(r[j]) != v
    ensures !SetIsUpdate(r, key, v)
  {
    StopsAt(r, key);
    PutRowOk(r, key, v);
    var r', k := PutRow(r, key, v).value, KeyOf(r[j]);
    assert r' == r[j := Updated(r[j], v)];
    assert j == 1 ==> KeyOf(r[0]) != k;
    hide Stop, Updated, KeyOf, ValueOf, ItemOk, Fits;
    assert KeyOf(r'[j]) == k && ValueOf(r'[j]) == v by { SlotWritten(r[j], v); }
    assert k in RowMap(r) && RowMap(r)[k] == ValueOf(r[j]);
    assert k in RowMap(r') && RowMap(r')[k] == v;
  }

  lemma SlotWritten(it: Item, v: Bytes)
    requires ItemOk(it) && Occupied(it) && 0 < |v| <= VAL_LEN
    ensures var it' := Updated(it, v);
            ItemOk(it') && Occupied(it') && KeyOf(it') == KeyOf(it) && ValueOf(it') == v
  {
    UpdatedOk(it, v);
  }

  /** Set keeps a row without hole and duplicate so. It fills a hole, and then the row stores
      one key twice exactly if the key is the one behind the hole. */
  lemma SetKeepsGood(r: Row, key: Bytes, v: Bytes)
    requires RowOk(r) && IsKey(key) && 0 < |v| <= VAL_LEN
    ensures RowFits(r)
    ensures PutRow(r, key, v).Some? ==>
              (RowGood(PutRow(r, key, v).value) <==> if Hole(r) then KeyOf(r[1]) != key else RowGood(r))
  {
    StopsAt(r, key);
    KeyExtendsItself(r, key);
    var j := Stop(r, key, 0);
    if j < ROW_SIZE {
      var it := if Occupied(r[j]) then Updated(r[j], v) else Stored(r[j], key, v);
      if Occupied(r[j]) {
        SlotWritten(r[j], v);
      } else {
        WrittenItem(r[j], key, v);
      }
      hide Stop, Stored, Updated, KeyOf, ItemOk, Fits;
      assert PutRow(r, key, v).value == r[j := it];
    }
  }

  // ----- del -----------------------------------------------------------------------------------

  /** The map without the keys that begin with `key`. */
  ghost function WithoutExtensions(m: map<Bytes, Bytes>, key: Bytes): map<Bytes, Bytes> {
    map k | k in m && !(key <= k) :: m[k]
  }

  /** Del on a row removes every key that begins with the key, but nothing behind a hole. */
  lemma DelRemovesExtensions(r: Row, key: Bytes)
    requires RowOk(r) && IsKey(key)
    ensures RowFits(r) && RowOk(RmRow(r, key, 0))
    ensures RowMap(RmRow(r, key, 0)) == if Hole(r) then RowMap(r) else WithoutExtensions(RowMap(r), key)
  {
    RowOkFits(r);
    RmRowOk(r, key, 0);
    RmExtensions(r, key);
    hide KeyOf, ValueOf, ItemOk, RmRow;
    if !Hole(r) {
      assert Fits(EMPTY_ITEM) && !Occupied(EMPTY_ITEM);
      ErasedMap(r, RmRow(r, key, 0), key);
    }
  }

  lemma RmExtensions(r: Row, key: Bytes)
    requires RowOk(r) && IsKey(key)
    ensures RowFits(r)
    ensures RmRow(r, key, 0) == if Hole(r) then r else [if Extends(r[0], key) then EMPTY_ITEM else r[0],
                                                        if Extends(r[1], key) then EMPTY_ITEM else r[1]]
  {
    RowMatches(r, key);
  }

  lemma ErasedMap(r: Row, r': Row, key: Bytes)
    requires RowOk(r) && RowOk(r') && !Occupied(EMPTY_ITEM)
    requires r' == [if Extends(r[0], key) then EMPTY_ITEM else r[0], if Extends(r[1], key) then EMPTY_ITEM else r[1]]
    ensures RowMap(r') == WithoutExtensions(RowMap(r), key)
  {
    hide KeyOf, ValueOf, ItemOk, Fits;
  }

  /** Del on a row is map removal exactly when no other stored key begins with the key, or, in
      a row with a hole, when the key is not stored. */
  lemma DelIsRemovalIff(r: Row, key: Bytes)
    requires RowOk(r) && IsKey(key)
    ensures RowFits(r) && RowOk(RmRow(r, key, 0))
    ensures RowMap(RmRow(r, key, 0)) == RowMap(r) - {key} <==>
              if Hole(r) then key !in RowMap(r) else forall k | k in RowMap(r) && key <= k :: k == key
  {
    DelRemovesExtensions(r, key);
    RemovesOneIff(RowMap(r), key);
    assert key in RowMap(r) ==> key !in RowMap(r) - {key};
    assert key !in RowMap(r) ==> RowMap(r) - {key} == RowMap(r);
  }

  lemma RemovesOneIff(m: map<Bytes, Bytes>, key: Bytes)
    ensures WithoutExtensions(m, key) == m - {key} <==> forall k | k in m && key <= k :: k == key
  {
    var w := WithoutExtensions(m, key);
    if forall k | k in m && key <= k :: k == key {
      forall k ensures k in w <==> k in m - {key} {
      }
      assert w == m - {key};
    } else {
      var k :| k in m && key <= k && k != key;
      assert k !in w && k in m - {key};
    }
  }
}
