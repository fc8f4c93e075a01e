/** The persistent key-value file: a row is read, scanned, changed and written back. */
module KvFile {
  import opened ByteStrings
  import opened KvRows
  import opened KvRuns

  class KvStore {
    var data: Bytes   // the bytes of the file

    /** The file has its full size, or none of it: creating and emptying it may fail
        between setting its size to zero and extending it again. */
    ghost predicate Valid()
      reads this
    {
      data == [] || (|data| == FILE_LEN && AllRowsOk(data))
    }

    ghost function RowOf(key: Bytes): (r: Row)
      requires |data| == FILE_LEN
      reads this
      ensures RowFits(r)
    {
      RowBytesRoundTrip(RowBytes(data, HashGen(key)));
      RowAt(data, HashGen(key))
    }

    /** A new file: all zeros, unless it could not be extended. */
    constructor (truncateOk: bool)
      ensures Valid() && data == if truncateOk then Zeros(FILE_LEN) else []
    {
      data := if truncateOk then Zeros(FILE_LEN) else [];
      new;
      ZeroRows();
    }

    /** The row as the scans see it: two slots in a buffer of their own. */
    method ReadRow(i: nat) returns (kv: array<Item>)
      requires |data| == FILE_LEN && i < COL_SIZE
      ensures fresh(kv) && kv.Length == ROW_SIZE && kv[..] == RowAt(data, i) && RowFits(kv[..])
    {
      var b := RowBytes(data, i);
      RowBytesRoundTrip(b);
      var r := DecodeRow(b);
      kv := new Item[ROW_SIZE](j requires 0 <= j < |r| => r[j]);
      assert kv[..] == r;
    }

    /** Writes a row back; every other row keeps its bytes. */
    method WriteRow(i: nat, kv: array<Item>)
      requires |data| == FILE_LEN && i < COL_SIZE && kv.Length == ROW_SIZE && RowFits(kv[..])
      modifies this
      ensures |data| == FILE_LEN && RowAt(data, i) == kv[..]
      ensures forall j | 0 <= j < COL_SIZE && j != i :: RowBytes(data, j) == old(RowBytes(data, j))
    {
      ghost var was := data;
      var b := EncodeRow([kv[0], kv[1]]);
      assert kv[..] == [kv[0], kv[1]];
      RowRoundTrip([kv[0], kv[1]]);
      forall j | 0 <= j < COL_SIZE ensures RowBytes(Overwrite(was, i, b), j) == if i == j then b else RowBytes(was, j) {
        OverwriteFrame(was, i, b, j);
      }
      data := Overwrite(data, i, b);
    }

    /** Stores a value of at most 128 bytes under a key of at most 95 (longer values are cut):
        updates the first slot whose key starts with `key`, or fills the first free slot. */
    method Set(key: Bytes, value: Bytes, mallocOk: bool, readOk: bool, writeOk: bool) returns (ok: bool)
      requires Valid() && IsKey(key)
      modifies this
      ensures Valid() && |data| == |old(data)|
      ensures var v := if |value| > VAL_LEN then value[..VAL_LEN] else value;
              var i := HashGen(key);
              && (data != [] ==> forall j | 0 <= j < COL_SIZE && j != i ::
                    RowBytes(data, j) == RowBytes(old(data), j))
              && (ok <==> value != [] && mallocOk && readOk && writeOk && old(data) != []
                          && old(PutRow(RowOf(key), key, v)).Some?)
              && (if ok then RowOf(key) == old(PutRow(RowOf(key), key, v)).value else data == old(data))
      ensures old(data) != [] ==> RowsOk(RowsOf(old(data)))
      ensures old(data) != [] && mallocOk && readOk && writeOk ==>
                RowsOf(data) == Step(RowsOf(old(data)), SetOp(key, value))
    {
      hide Step, RowsOf, AllRowsOk;
      ok := false;
      if data != [] {
        RowsOfOk(data);
        SetStep(data, key, value);
      }
      if value == [] {
        return;
      }
      var v := if |value| > VAL_LEN then value[..VAL_LEN] else value;
      var i := HashGen(key);
      if !mallocOk || !readOk || |data| < (i + 1) * ROW_LEN {
        return;
      }
      var kv := ReadRow(i);
      ghost var r: Row := kv[..];
      RowInOrder(data, i);
      PutRowOk(r, key, v);
      var found := PutInto(kv, key, v);
      if !found || !writeOk {
        return;
      }
      WriteRow(i, kv);
      OtherRowsOk(old(data), data, i);
      RowsChanged(old(data), data, i);
      ok := true;
    }

    /** The scan of set. */
    method PutInto(kv: array<Item>, key: Bytes, v: Bytes) returns (ok: bool)
      requires kv.Length == ROW_SIZE && RowFits(kv[..]) && IsKey(key) && 0 < |v| <= VAL_LEN
      modifies kv
      ensures ok == old(PutRow(kv[..], key, v)).Some?
      ensures ok ==> kv[..] == old(PutRow(kv[..], key, v)).value && RowFits(kv[..])
    {
      ghost var r: Row := kv[..];
      var j := 0;
      while kv[j].valueLen != 0
        invariant 0 <= j < ROW_SIZE && kv[..] == r && Stop(r, key, 0) == Stop(r, key, j)
        decreases ROW_SIZE - j
      {
        if Matches(kv[j], key) {
          kv[j] := kv[j].(value := Zeros(VAL_LEN));
          assert Zeros(VAL_LEN)[|v|..] == Zeros(VAL_LEN - |v|);
          kv[j] := kv[j].(value := v + kv[j].value[|v|..], valueLen := |v|);
          break;
        }
        j := j + 1;
        if j == ROW_SIZE {
          ok := false;
          return;
        }
      }
      if kv[j].valueLen == 0 {
        kv[j] := Item(CopyKey(kv[j].key, key), v + kv[j].value[|v|..], |v|);
      }
      ok := true;
      assert kv[..] == r[j := kv[j]];
      assert forall m {:trigger kv[..][m]} | 0 <= m < ROW_SIZE :: Fits(kv[..][m]);
    }

    /** Returns the value stored under a key, cut to the caller's buffer. */
    method Get(key: Bytes, len: int, mallocOk: bool, readOk: bool) returns (ok: bool, value: Bytes)
      requires Valid() && IsKey(key)
      ensures ok <==> len > 0 && mallocOk && readOk && data != [] && GetRow(RowOf(key), key).Some?
      ensures ok ==> var v := GetRow(RowOf(key), key).value;
                     value == if |v| < len then v else v[..len]
    {
      ok, value := false, [];
      var i := HashGen(key);
      if len <= 0 || !mallocOk || !readOk || |data| < (i + 1) * ROW_LEN {
        return;
      }
      var kv := ReadRow(i);
      ghost var r: Row := kv[..];
      assert RowOk(RowAt(data, i));
      var j := 0;
      while kv[j].valueLen != 0
        invariant 0 <= j < ROW_SIZE && kv[..] == r && Stop(r, key, 0) == Stop(r, key, j) && !ok
        decreases ROW_SIZE - j
      {
        assert ItemOk(r[j]);
        if Matches(kv[j], key) {
          var n := if kv[j].valueLen < len then kv[j].valueLen else len;
          ok, value := true, kv[j].value[..n];
          return;
        }
        j := j + 1;
        if j == ROW_SIZE {
          break;
        }
      }
    }

    /** Zeroes every slot that matches a key, up to the first free slot. */
    method Del(key: Bytes, mallocOk: bool, readOk: bool, writeOk: bool) returns (ok: bool)
      requires Valid() && IsKey(key)
      modifies this
      ensures Valid() && |data| == |old(data)|
      ensures var i := HashGen(key);
              && (data != [] ==> forall j | 0 <= j < COL_SIZE && j != i ::
                    RowBytes(data, j) == RowBytes(old(data), j))
              && (ok <==> mallocOk && readOk && writeOk && old(data) != [])
              && (if ok then RowOf(key) == old(RmRow(RowOf(key), key, 0)) else data == old(data))
      ensures old(data) != [] ==> RowsOk(RowsOf(old(data)))
      ensures ok ==> RowsOf(data) == Step(RowsOf(old(data)), DelOp(key))
    {
      hide Step, RowsOf, AllRowsOk;
      ok := false;
      var i := HashGen(key);
      if data != [] {
        RowsOfOk(data);
        DelStep(data, key);
      }
      if !mallocOk || !readOk || |data| < (i + 1) * ROW_LEN {
        return;
      }
      var kv := ReadRow(i);
      ghost var r: Row := kv[..];
      RowInOrder(data, i);
      RmRowOk(r, key, 0);
      RmFrom(kv, key);
      if !writeOk {
        return;
      }
      WriteRow(i, kv);
      OtherRowsOk(old(data), data, i);
      RowsChanged(old(data), data, i);
      ok := true;
    }

    /** The scan of del. */
    method RmFrom(kv: array<Item>, key: Bytes)
      requires kv.Length == ROW_SIZE && RowFits(kv[..]) && IsKey(key)
      modifies kv
      ensures kv[..] == RmRow(old(kv[..]), key, 0) && RowFits(kv[..])
    {
      ghost var r: Row := kv[..];
      var j := 0;
      while kv[j].valueLen != 0
        invariant 0 <= j < ROW_SIZE && RowFits(kv[..])
        invariant RmRow(kv[..], key, j) == RmRow(r, key, 0)
        decreases ROW_SIZE - j
      {
        ghost var before: Row := kv[..];
        if Matches(kv[j], key) {
          kv[j] := EMPTY_ITEM;
          assert kv[..] == before[j := EMPTY_ITEM];
        }
        j := j + 1;
        if j == ROW_SIZE {
          break;
        }
      }
    }

    /** Empties the file: truncates it and extends it again. */
    method Empty(openOk: bool, truncateOk: bool, syncOk: bool) returns (ok: bool)
      requires Valid()
      modifies this
      ensures Valid() && ok == (openOk && truncateOk && syncOk)
      ensures data == if !openOk then old(data) else if truncateOk then Zeros(FILE_LEN) else []
      ensures ok ==> RowsOf(data) == EmptyRows()
    {
      ok := false;
      ZeroRows();
      if openOk {
        data := [];
        if truncateOk {
          data := Zeros(FILE_LEN);
          ok := syncOk;
        }
      }
    }
  }

  /** The rows of a file. */
  ghost function RowsOf(data: Bytes): Rows
    requires |data| == FILE_LEN
  {
    seq(COL_SIZE, i requires 0 <= i < COL_SIZE => RowAt(data, i))
  }

  lemma RowsOfOk(data: Bytes)
    requires |data| == FILE_LEN && AllRowsOk(data)
    ensures RowsOk(RowsOf(data))
  {
    forall i | 0 <= i < COL_SIZE ensures RowOk(RowsOf(data)[i]) && RowFits(RowsOf(data)[i]) {
      RowOkFits(RowAt(data, i));
    }
  }

  /** Rows whose bytes are the same are the same. */
  lemma RowsChanged(was: Bytes, data: Bytes, i: nat)
    requires |was| == FILE_LEN && |data| == FILE_LEN && i < COL_SIZE
    requires forall j | 0 <= j < COL_SIZE && j != i :: RowBytes(data, j) == RowBytes(was, j)
    ensures RowsOf(data) == RowsOf(was)[i := RowAt(data, i)]
  {
  }

  ghost predicate AllRowsOk(data: Bytes)
    requires |data| == FILE_LEN
  {
    forall i {:trigger RowAt(data, i)} | 0 <= i < COL_SIZE :: RowOk(RowAt(data, i))
  }

  lemma ZeroRows()
    ensures AllRowsOk(Zeros(FILE_LEN))
    ensures forall i {:trigger RowAt(Zeros(FILE_LEN), i)} | 0 <= i < COL_SIZE ::
              RowAt(Zeros(FILE_LEN), i) == [EMPTY_ITEM, EMPTY_ITEM]
  {
    var data := Zeros(FILE_LEN);
    forall i | 0 <= i < COL_SIZE ensures RowAt(data, i) == [EMPTY_ITEM, EMPTY_ITEM] {
      var b := RowBytes(data, i);
      assert b == Zeros(ROW_LEN);
      assert b[..ITEM_LEN] == Zeros(ITEM_LEN) && b[ITEM_LEN..] == Zeros(ITEM_LEN);
      assert DecodeItem(Zeros(ITEM_LEN)) == EMPTY_ITEM;
    }
  }

  lemma RowInOrder(data: Bytes, i: nat)
    requires |data| == FILE_LEN && AllRowsOk(data) && i < COL_SIZE
    ensures RowOk(RowAt(data, i))
  {
  }

  lemma SetStep(data: Bytes, key: Bytes, value: Bytes)
    requires |data| == FILE_LEN && RowsOk(RowsOf(data)) && IsKey(key)
    ensures RowFits(RowAt(data, HashGen(key)))
    ensures Step(RowsOf(data), SetOp(key, value))
         == if value == [] || PutRow(RowAt(data, HashGen(key)), key, Cut(value)).None? then RowsOf(data)
            else RowsOf(data)[HashGen(key) := PutRow(RowAt(data, HashGen(key)), key, Cut(value)).value]
  {
    assert RowsOf(data)[HashGen(key)] == RowAt(data, HashGen(key));
  }

  lemma DelStep(data: Bytes, key: Bytes)
    requires |data| == FILE_LEN && RowsOk(RowsOf(data)) && IsKey(key)
    ensures RowFits(RowAt(data, HashGen(key)))
    ensures Step(RowsOf(data), DelOp(key))
         == RowsOf(data)[HashGen(key) := RmRow(RowAt(data, HashGen(key)), key, 0)]
  {
    assert RowsOf(data)[HashGen(key)] == RowAt(data, HashGen(key));
  }

  /** Changing one row, to one that is in order, keeps the file in order. */
  lemma OtherRowsOk(was: Bytes, data: Bytes, i: nat)
    requires |was| == FILE_LEN && |data| == FILE_LEN && i < COL_SIZE
    requires AllRowsOk(was) && RowOk(RowAt(data, i))
    requires forall j | 0 <= j < COL_SIZE && j != i :: RowBytes(data, j) == RowBytes(was, j)
    ensures AllRowsOk(data)
  {
    forall j | 0 <= j < COL_SIZE ensures RowOk(RowAt(data, j)) {
      assert j != i ==> RowAt(data, j) == RowAt(was, j);
    }
  }
}
