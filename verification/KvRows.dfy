/** The rows of the persistent key-value file: two fixed slots each, as bytes and as
    items, and what the three scans of a row do to it. */
module KvRows {
  import opened ByteStrings

  const ROW_SIZE: nat := 2       // slots in a row
  const COL_SIZE: nat := 384     // rows in the file
  const KEY_LEN: nat := 96
  const VAL_LEN: nat := 128
  const ITEM_LEN: nat := 228     // key, value and a four-byte length
  const ROW_LEN: nat := 456
  const FILE_LEN: nat := 175104  // COL_SIZE rows

  /** One slot. */
  datatype Item = Item(key: Bytes, value: Bytes, valueLen: int)

  type Row = r: seq<Item> | |r| == ROW_SIZE witness [Item([], [], 0), Item([], [], 0)]

  ghost predicate Fits(it: Item) {
    |it.key| == KEY_LEN && |it.value| == VAL_LEN && -0x8000_0000 <= it.valueLen < 0x8000_0000
  }

  const EMPTY_ITEM: Item := Item(Zeros(KEY_LEN), Zeros(VAL_LEN), 0)

  // ----- bytes -----------------------------------------------------------------

  /** A little-endian 32-bit two's-complement integer. */
  function Int32(b: Bytes): int
    requires |b| == 4
  {
    var u := (b[0] as int) + 0x100 * ((b[1] as int) + 0x100 * ((b[2] as int) + 0x100 * (b[3] as int)));
    if u < 0x8000_0000 then u else u - 0x1_0000_0000
  }

  function Int32Bytes(n: int): (b: Bytes)
    requires -0x8000_0000 <= n < 0x8000_0000
    ensures |b| == 4
  {
    var u := if n < 0 then n + 0x1_0000_0000 else n;
    var q := u / 0x100;
    var r := q / 0x100;
    [u % 0x100, q % 0x100, r % 0x100, r / 0x100]
  }

  lemma Int32RoundTrip(n: int)
    requires -0x8000_0000 <= n < 0x8000_0000
    ensures Int32(Int32Bytes(n)) == n
  {
    var u := if n < 0 then n + 0x1_0000_0000 else n;
    var q := u / 0x100;
    var r := q / 0x100;
    assert u == u % 0x100 + 0x100 * q && q == q % 0x100 + 0x100 * r;
  }

  lemma Int32BytesRoundTrip(b: Bytes)
    requires |b| == 4
    ensures -0x8000_0000 <= Int32(b) < 0x8000_0000 && Int32Bytes(Int32(b)) == b
  {
    var r := (b[2] as int) + 0x100 * (b[3] as int);
    var q := (b[1] as int) + 0x100 * r;
    var u := (b[0] as int) + 0x100 * q;
    assert u / 0x100 == q && u % 0x100 == b[0];
    assert q / 0x100 == r && q % 0x100 == b[1];
    assert r / 0x100 == b[3] && r % 0x100 == b[2];
  }

  function DecodeItem(b: Bytes): Item
    requires |b| == ITEM_LEN
  {
    Item(b[..KEY_LEN], b[KEY_LEN..KEY_LEN + VAL_LEN], Int32(b[KEY_LEN + VAL_LEN..]))
  }

  function EncodeItem(it: Item): (b: Bytes)
    requires Fits(it)
    ensures |b| == ITEM_LEN
  {
    it.key + it.value + Int32Bytes(it.valueLen)
  }

  lemma ItemRoundTrip(it: Item)
    requires Fits(it)
    ensures DecodeItem(EncodeItem(it)) == it
  {
    var b := EncodeItem(it);
    Int32RoundTrip(it.valueLen);
    assert b[..KEY_LEN] == it.key && b[KEY_LEN..KEY_LEN + VAL_LEN] == it.value;
    assert b[KEY_LEN + VAL_LEN..] == Int32Bytes(it.valueLen);
  }

  lemma ItemBytesRoundTrip(b: Bytes)
    requires |b| == ITEM_LEN
    ensures Fits(DecodeItem(b)) && EncodeItem(DecodeItem(b)) == b
  {
    Int32BytesRoundTrip(b[KEY_LEN + VAL_LEN..]);
    assert b == b[..KEY_LEN] + b[KEY_LEN..KEY_LEN + VAL_LEN] + b[KEY_LEN + VAL_LEN..];
  }

  function DecodeRow(b: Bytes): Row
    requires |b| == ROW_LEN
  {
    [DecodeItem(b[..ITEM_LEN]), DecodeItem(b[ITEM_LEN..])]
  }

  function EncodeRow(r: Row): (b: Bytes)
    requires Fits(r[0]) && Fits(r[1])
    ensures |b| == ROW_LEN
  {
    EncodeItem(r[0]) + EncodeItem(r[1])
  }

  /** Writing a row and reading it back yields the row, and the other way round. */
  lemma RowRoundTrip(r: Row)
    requires Fits(r[0]) && Fits(r[1])
    ensures DecodeRow(EncodeRow(r)) == r
  {
    var b := EncodeRow(r);
    ItemRoundTrip(r[0]);
    ItemRoundTrip(r[1]);
    assert b[..ITEM_LEN] == EncodeItem(r[0]) && b[ITEM_LEN..] == EncodeItem(r[1]);
  }

  lemma RowBytesRoundTrip(b: Bytes)
    requires |b| == ROW_LEN
    ensures Fits(DecodeRow(b)[0]) && Fits(DecodeRow(b)[1]) && EncodeRow(DecodeRow(b)) == b
  {
    ItemBytesRoundTrip(b[..ITEM_LEN]);
    ItemBytesRoundTrip(b[ITEM_LEN..]);
    assert b == b[..ITEM_LEN] + b[ITEM_LEN..];
  }

  /** The bytes of row `i` of a file. */
  function RowBytes(data: Bytes, i: nat): (b: Bytes)
    requires |data| == FILE_LEN && i < COL_SIZE
    ensures |b| == ROW_LEN
  {
    data[i * ROW_LEN..(i + 1) * ROW_LEN]
  }

  function Overwrite(data: Bytes, i: nat, b: Bytes): (data': Bytes)
    requires |data| == FILE_LEN && i < COL_SIZE && |b| == ROW_LEN
    ensures |data'| == FILE_LEN
  {
    data[..i * ROW_LEN] + b + data[(i + 1) * ROW_LEN..]
  }

  /** Rows do not overlap: overwriting one leaves the bytes of every other alone. */
  lemma OverwriteFrame(data: Bytes, i: nat, b: Bytes, j: nat)
    requires |data| == FILE_LEN && i < COL_SIZE && j < COL_SIZE && |b| == ROW_LEN
    ensures RowBytes(Overwrite(data, i, b), j) == if i == j then b else RowBytes(data, j)
  {
    var d := Overwrite(data, i, b);
    forall k | 0 <= k < ROW_LEN
      ensures RowBytes(d, j)[k] == (if i == j then b else RowBytes(data, j))[k]
    {
      assert RowBytes(d, j)[k] == d[j * ROW_LEN + k];
    }
  }

  /** A row of the file, as items. */
  function RowAt(data: Bytes, i: nat): Row
    requires |data| == FILE_LEN && i < COL_SIZE
  {
    DecodeRow(RowBytes(data, i))
  }

  /** Where a slot is in the file: rows of two slots of 228 bytes, each a key of 96 bytes, a value
      of 128 bytes and its length, lowest byte first. */
  lemma SlotLayout(data: Bytes, i: nat, j: nat)
    requires |data| == FILE_LEN && i < COL_SIZE && j < ROW_SIZE
    ensures var at, it := 456 * i + 228 * j, RowAt(data, i)[j];
            && at + 228 <= |data| == 384 * 456
            && it.key == data[at..at + 96] && it.value == data[at + 96..at + 224]
            && var u: int := (data[at + 224] as int) + 256 * (data[at + 225] as int)
                             + 65536 * (data[at + 226] as int) + 16777216 * (data[at + 227] as int);
               it.valueLen == if u < 2147483648 then u else u - 4294967296
  {
    var b, at := RowBytes(data, i), 456 * i + 228 * j;
    if j == 0 {
      Part(data, 456 * i, 456 * i + 456, 0, 228);
      assert RowAt(data, i)[0] == DecodeItem(data[at..at + 228]);
    } else {
      Part(data, 456 * i, 456 * i + 456, 228, 456);
      assert b[228..] == b[228..456];
      assert RowAt(data, i)[1] == DecodeItem(data[at..at + 228]);
    }
    hide RowBytes, RowAt;
    var c := data[at..at + 228];
    Part(data, at, at + 228, 0, 96);
    Part(data, at, at + 228, 96, 224);
    assert c[224..] == data[at + 224..at + 228] by {
      Part(data, at, at + 228, 224, 228);
      assert c[224..] == c[224..228];
    }
  }

  lemma Part(s: Bytes, from: nat, to: nat, a: nat, b: nat)
    requires from + b <= to <= |s| && a <= b
    ensures s[from..to][a..b] == s[from + a..from + b]
  {
    var x, y := s[from..to][a..b], s[from + a..from + b];
    forall k | 0 <= k < b - a ensures x[k] == y[k] {
      assert s[from..to][a + k] == s[from + (a + k)];
    }
    assert x == y;
  }

  // ----- keys and hashing --------------------------------------------------------

  /** A C string of at most 95 bytes. */
  ghost predicate IsKey(key: Bytes) {
    |key| < KEY_LEN && forall i | 0 <= i < |key| :: key[i] != 0
  }

  /** The value of a `char`, which is signed. */
  function CharValue(b: Byte): int {
    if b < 128 then b else b - 256
  }

  function HashFrom(key: Bytes, hash: nat): nat
    decreases |key|
  {
    if key == [] then hash
    else HashFrom(key[1..], (hash * 32 + hash + CharValue(key[0])) % 0x1_0000_0000)
  }

  /** The row of a key. */
  function HashGen(key: Bytes): (i: nat)
    ensures i < COL_SIZE
  {
    HashFrom(key, 0) % COL_SIZE
  }

  // ----- scans of a row ----------------------------------------------------------

  /** The comparison of a stored key: only as many bytes as the sought key has. */
  predicate Matches(it: Item, key: Bytes)
    requires |it.key| == KEY_LEN && |key| <= KEY_LEN
  {
    it.key[..|key|] == key
  }

  ghost predicate RowFits(r: Row) {
    forall j {:trigger r[j]} | 0 <= j < ROW_SIZE :: Fits(r[j])
  }

  /** Where the scan of set and get stops: at the first slot that is empty or matches. */
  ghost function Stop(r: Row, key: Bytes, j: nat): (k: nat)
    requires RowFits(r) && |key| <= KEY_LEN && j <= ROW_SIZE
    ensures j <= k <= ROW_SIZE
    ensures k < ROW_SIZE ==> r[k].valueLen == 0 || Matches(r[k], key)
    ensures forall i | j <= i < k :: r[i].valueLen != 0 && !Matches(r[i], key)
    decreases ROW_SIZE - j
  {
    if j == ROW_SIZE || r[j].valueLen == 0 || Matches(r[j], key) then j
    else Stop(r, key, j + 1)
  }

  /** The key bytes `strncpy` leaves: the key, zeros, and the old last byte. */
  function CopyKey(was: Bytes, key: Bytes): (r: Bytes)
    requires |was| == KEY_LEN && |key| < KEY_LEN
    ensures |r| == KEY_LEN
  {
    key + Zeros(KEY_LEN - 1 - |key|) + was[KEY_LEN - 1..]
  }

  /** The item that set writes into a free slot. */
  function Stored(was: Item, key: Bytes, value: Bytes): Item
    requires |was.key| == KEY_LEN && |was.value| == VAL_LEN && |key| < KEY_LEN && |value| <= VAL_LEN
  {
    Item(CopyKey(was.key, key), value + was.value[|value|..], |value|)
  }

  /** The item that set leaves where it finds the key. */
  function Updated(was: Item, value: Bytes): Item
    requires |value| <= VAL_LEN
  {
    Item(was.key, value + Zeros(VAL_LEN - |value|), |value|)
  }

  /** What set makes of a row; none when the row is full. */
  datatype Option<+T> = None | Some(value: T)

  ghost function PutRow(r: Row, key: Bytes, value: Bytes): Option<Row>
    requires RowFits(r) && |key| < KEY_LEN && 0 < |value| <= VAL_LEN
  {
    var j := Stop(r, key, 0);
    if j == ROW_SIZE then None
    else Some(r[j := if r[j].valueLen == 0 then Stored(r[j], key, value) else Updated(r[j], value)])
  }

  /** What get finds in a row. */
  ghost function GetRow(r: Row, key: Bytes): Option<Bytes>
    requires RowOk(r) && |key| < KEY_LEN
  {
    var j := Stop(r, key, 0);
    if j == ROW_SIZE || r[j].valueLen == 0 then None
    else Some(r[j].value[..r[j].valueLen])
  }

  /** What del makes of a row: every match before the first empty slot is zeroed. */
  ghost function RmRow(r: Row, key: Bytes, j: nat): (r': Row)
    requires RowFits(r) && |key| < KEY_LEN && j <= ROW_SIZE
    ensures RowFits(r')
    ensures forall i | 0 <= i < j :: r'[i] == r[i]
    decreases ROW_SIZE - j
  {
    if j == ROW_SIZE || r[j].valueLen == 0 then r
    else RmRow(if Matches(r[j], key) then r[j := EMPTY_ITEM] else r, key, j + 1)
  }

  // ----- what every reachable row satisfies ---------------------------------------

  /** The C string at the start of a buffer. */
  ghost function CString(b: Bytes): (k: Bytes)
    ensures |k| <= |b| && k == b[..|k|]
    ensures forall i | 0 <= i < |k| :: k[i] != 0
  {
    if b == [] || b[0] == 0 then [] else [b[0]] + CString(b[1..])
  }

  ghost predicate KeyFieldOk(b: Bytes) {
    |b| == KEY_LEN && |CString(b)| < KEY_LEN && b == CString(b) + Zeros(KEY_LEN - |CString(b)|)
  }

  /** A slot is all zero, or holds a zero-padded key and a value of 1 to 128 bytes. */
  ghost predicate ItemOk(it: Item) {
    it == EMPTY_ITEM || (Fits(it) && 0 < it.valueLen <= VAL_LEN && KeyFieldOk(it.key))
  }

  ghost predicate RowOk(r: Row) {
    forall j {:trigger r[j]} | 0 <= j < ROW_SIZE :: ItemOk(r[j])
  }

  lemma RowOkFits(r: Row)
    requires RowOk(r)
    ensures RowFits(r)
  {
  }

  lemma {:induction false} CStringPadded(k: Bytes, n: nat)
    requires forall i | 0 <= i < |k| :: k[i] != 0
    ensures CString(k + Zeros(n)) == k
  {
    var b := k + Zeros(n);
    if k == [] {
      assert n > 0 ==> b[0] == 0;
    } else {
      CStringPadded(k[1..], n);
      assert b[1..] == k[1..] + Zeros(n);
    }
  }

  /** An occupied slot matches `key` exactly when `key` is a prefix of the stored key. */
  lemma MatchesIsPrefix(it: Item, key: Bytes)
    requires Fits(it) && KeyFieldOk(it.key) && IsKey(key)
    ensures Matches(it, key) <==> key <= CString(it.key)
  {
    var k := CString(it.key);
    assert it.key[|k|] == 0;
    assert |key| > |k| ==> it.key[..|key|][|k|] == 0;
  }

  lemma StoredOk(key: Bytes, value: Bytes)
    requires IsKey(key) && 0 < |value| <= VAL_LEN
    ensures var it := Stored(EMPTY_ITEM, key, value);
            ItemOk(it) && CString(it.key) == key && it.value[..|value|] == value && it.valueLen == |value|
  {
    var it := Stored(EMPTY_ITEM, key, value);
    CStringPadded(key, KEY_LEN - |key|);
    assert it.key == key + Zeros(KEY_LEN - |key|);
  }

  lemma UpdatedOk(it: Item, value: Bytes)
    requires ItemOk(it) && it.valueLen != 0 && 0 < |value| <= VAL_LEN
    ensures var it' := Updated(it, value);
            ItemOk(it') && it'.key == it.key && it'.value[..|value|] == value && it'.valueLen == |value|
  {
  }

  /** Set keeps a row in order. */
  lemma PutRowOk(r: Row, key: Bytes, value: Bytes)
    requires RowOk(r) && IsKey(key) && 0 < |value| <= VAL_LEN
    ensures RowFits(r) && (PutRow(r, key, value).Some? ==> RowOk(PutRow(r, key, value).value))
  {
    RowOkFits(r);
    var j := Stop(r, key, 0);
    if j < ROW_SIZE {
      if r[j].valueLen == 0 {
        StoredOk(key, value);
      } else {
        UpdatedOk(r[j], value);
      }
    }
  }

  lemma {:induction false} RmRowOk(r: Row, key: Bytes, j: nat)
    requires RowOk(r) && RowFits(r) && IsKey(key) && j <= ROW_SIZE
    ensures RowOk(RmRow(r, key, j))
    decreases ROW_SIZE - j
  {
    if j < ROW_SIZE && r[j].valueLen != 0 {
      RmRowOk(if Matches(r[j], key) then r[j := EMPTY_ITEM] else r, key, j + 1);
    }
  }

  // ----- laws of one row -------------------------------------------------------------

  /** From every reachable row: what set stores, get returns. */
  lemma GetAfterPut(r: Row, key: Bytes, value: Bytes)
    requires RowOk(r) && RowFits(r) && IsKey(key) && 0 < |value| <= VAL_LEN
    requires PutRow(r, key, value).Some?
    ensures var r' := PutRow(r, key, value).value;
            RowOk(r') && GetRow(r', key) == Some(value)
  {
    PutRowOk(r, key, value);
    var j, r' := Stop(r, key, 0), PutRow(r, key, value).value;
    if r[j].valueLen == 0 {
      StoredOk(key, value);
    } else {
      UpdatedOk(r[j], value);
    }
    assert r'[j].value[..|value|] == value && Matches(r'[j], key);
    StopAt(r', key, j);
  }

  /** The scan stops at `j` when nothing stops it before and something does there. */
  lemma StopAt(r: Row, key: Bytes, j: nat)
    requires RowFits(r) && |key| <= KEY_LEN && j < ROW_SIZE
    requires forall i | 0 <= i < j :: r[i].valueLen != 0 && !Matches(r[i], key)
    requires r[j].valueLen == 0 || Matches(r[j], key)
    ensures Stop(r, key, 0) == j
  {
  }

  /** From every reachable row: what del removes, get does not find. */
  lemma GetAfterRm(r: Row, key: Bytes)
    requires RowOk(r) && RowFits(r) && IsKey(key)
    ensures RowOk(RmRow(r, key, 0)) && GetRow(RmRow(r, key, 0), key) == None
  {
    RmRowOk(r, key, 0);
    RmUnmatched(r, key, 0);
  }

  lemma {:induction false} RmUnmatched(r: Row, key: Bytes, j: nat)
    requires RowOk(r) && RowFits(r) && IsKey(key) && j <= ROW_SIZE
    requires forall i | 0 <= i < j :: r[i].valueLen == 0 || !Matches(r[i], key)
    ensures var r' := RmRow(r, key, j);
            var k := Stop(r', key, 0);
            k < ROW_SIZE ==> r'[k].valueLen == 0
    decreases ROW_SIZE - j
  {
    hide Stop, KeyFieldOk, CString;
    if j < ROW_SIZE && r[j].valueLen != 0 {
      RmUnmatched(if Matches(r[j], key) then r[j := EMPTY_ITEM] else r, key, j + 1);
    }
  }

  /** Del of any key only empties slots, so what get does not find stays not found. */
  lemma RmKeepsMissing(r: Row, other: Bytes, key: Bytes)
    requires RowOk(r) && IsKey(key) && IsKey(other) && GetRow(r, key) == None
    ensures RowFits(r) && RowOk(RmRow(r, other, 0)) && GetRow(RmRow(r, other, 0), key) == None
  {
    RowOkFits(r);
    RmRowOk(r, other, 0);
    RmEmpties(r, other, 0);
    hide RmRow, Matches, ItemOk, Fits;
    assert forall j {:trigger r[j]} | 0 <= j < ROW_SIZE ::
             var it := RmRow(r, other, 0)[j]; it == r[j] || it.valueLen == 0;
  }

  lemma {:induction false} RmEmpties(r: Row, key: Bytes, j: nat)
    requires RowFits(r) && |key| < KEY_LEN && j <= ROW_SIZE
    ensures forall i {:trigger r[i]} | 0 <= i < ROW_SIZE ::
              RmRow(r, key, j)[i] == r[i] || RmRow(r, key, j)[i] == EMPTY_ITEM
    decreases ROW_SIZE - j
  {
    if j < ROW_SIZE && r[j].valueLen != 0 {
      RmEmpties(if Matches(r[j], key) then r[j := EMPTY_ITEM] else r, key, j + 1);
    }
  }
}
