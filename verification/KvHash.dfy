/** What the key hash computes, and keys that are sure to find room. */
module KvHash {
  import opened ByteStrings
  import opened KvRows
  import opened KvRuns
  import opened KvFile

  function Pow33(n: nat): nat {
    if n == 0 then 1 else 33 * Pow33(n - 1)
  }

  /** The sum of the characters, each times the power of 33 of its distance from the end. */
  function PowerSum(key: Bytes): int {
    if key == [] then 0 else Pow33(|key| - 1) * CharValue(key[0]) + PowerSum(key[1..])
  }

  lemma SameRemainder(a: int, b: int, k: int)
    requires a == b + k * 0x1_0000_0000
    ensures a % 0x1_0000_0000 == b % 0x1_0000_0000
  {
  }

  /** One step of the hash, when its remainders are taken only at the end. */
  lemma OneStep(hash: int, c: int, p: int, next: int, k: int, m: int)
    requires hash * 33 + c == k * m + next
    ensures hash * (33 * p) + p * c == next * p + (k * p) * m
  {
    calc {
      hash * (33 * p) + p * c;
    ==
      (hash * 33 + c) * p;
    ==
      (k * m + next) * p;
    ==
      (k * m) * p + next * p;
    ==
      next * p + (k * p) * m;
    }
  }

  /** The hash of the rest of a key, from any value on. */
  lemma {:induction false} HashIsSum(key: Bytes, hash: nat)
    requires hash < 0x1_0000_0000
    ensures HashFrom(key, hash) == (hash * Pow33(|key|) + PowerSum(key)) % 0x1_0000_0000
    decreases |key|
  {
    if key != [] {
      var m, c, p, rest := 0x1_0000_0000, CharValue(key[0]), Pow33(|key| - 1), PowerSum(key[1..]);
      var full := hash * 33 + c;
      var next, k := full % m, full / m;
      HashIsSum(key[1..], next);
      OneStep(hash, c, p, next, k, m);
      SameRemainder(hash * Pow33(|key|) + PowerSum(key), next * p + rest, k * p);
    }
  }

  /** The row of a key is the sum of its characters, weighted by powers of 33, as an unsigned
      32-bit number, modulo the number of rows. */
  lemma RowIsPowerSum(key: Bytes)
    ensures HashGen(key) == PowerSum(key) % 0x1_0000_0000 % 384
  {
    HashIsSum(key, 0);
  }

  /** A key of one character below 128 lies in the row of that number. */
  lemma OneCharacter(c: Byte)
    requires 0 < c < 128
    ensures HashGen([c]) == c && IsKey([c])
  {
    RowIsPowerSum([c]);
    assert Pow33(0) == 1 && [c][1..] == [];
  }

  /** Characters of 128 and more are negative, and a sum below zero wraps around. */
  lemma TwoCharacters(c: Byte, d: Byte)
    requires 128 <= c && 0 < d < 128
    ensures var n: int := 33 * (256 - c as int);
            HashGen([c, d]) == (if d < n then 4294967296 - n + d as int else d - n) % 384
  {
    RowIsPowerSum([c, d]);
    assert [c, d][1..] == [d] && [d][1..] == [];
    assert Pow33(0) == 1 && Pow33(1) == 33;
    assert PowerSum([d]) == Pow33(0) * CharValue(d) == d as int;
    assert PowerSum([c, d]) == Pow33(1) * CharValue(c) + PowerSum([d]);
  }

  ghost predicate Stored(data: Bytes, c: Byte, v: Bytes)
    requires |data| == FILE_LEN && 0 < c < 128
  {
    RowOk(RowAt(data, c)) && GetRow(RowAt(data, c), [c]) == Some(v)
  }

  lemma IntoEmptyRow(key: Bytes, v: Bytes)
    requires IsKey(key) && 0 < |v| <= VAL_LEN
    ensures var r := [EMPTY_ITEM, EMPTY_ITEM];
            && RowFits(r) && PutRow(r, key, v).Some?
            && RowOk(PutRow(r, key, v).value) && GetRow(PutRow(r, key, v).value, key) == Some(v)
  {
    assert Fits(EMPTY_ITEM);
    GetAfterPut([EMPTY_ITEM, EMPTY_ITEM], key, v);
  }

  lemma SameBytesSameRow(was: Bytes, data: Bytes, i: nat)
    requires |was| == |data| == FILE_LEN && i < COL_SIZE && RowBytes(data, i) == RowBytes(was, i)
    ensures RowAt(data, i) == RowAt(was, i)
  {
  }

  /** Different keys of one character each, set into an emptied file, are all stored, and every
      one of them is found again. */
  method SetSingles(cs: seq<Byte>, vs: seq<Bytes>) returns (store: KvStore, found: seq<Bytes>)
    requires |cs| == |vs| && forall i | 0 <= i < |cs| :: 0 < cs[i] < 128 && 0 < |vs[i]| <= 128
    requires forall i, j | 0 <= i < j < |cs| :: cs[i] != cs[j]
    ensures store.Valid() && found == vs
  {
    hide GetRow, PutRow, RowAt, RowBytes, HashGen, KvStore.Valid, RowOk, RowsOf, Step, IsKey;
    store := new KvStore(true);
    ZeroRows();
    AllEmpty(store.data);
    for i := 0 to |cs|
      invariant fresh(store) && store.Valid() && |store.data| == FILE_LEN
      invariant forall c: Byte | 0 < c < 128 ::
                  (c !in cs[..i] ==> RowAt(store.data, c) == [EMPTY_ITEM, EMPTY_ITEM])
      invariant forall j | 0 <= j < i :: Stored(store.data, cs[j], vs[j])
    {
      ghost var was := store.data;
      OneCharacter(cs[i]);
      IntoEmptyRow([cs[i]], vs[i]);
      var ok := store.Set([cs[i]], vs[i], true, true, true);
      assert ok;
      forall c: Byte | 0 < c < 128 && c != cs[i] ensures RowAt(store.data, c) == RowAt(was, c) {
        SameBytesSameRow(was, store.data, c);
      }
    }
    found := [];
    for i := 0 to |cs|
      invariant store.Valid() && |store.data| == FILE_LEN
      invariant forall j | 0 <= j < |cs| :: Stored(store.data, cs[j], vs[j])
      invariant |found| == i && forall j | 0 <= j < i :: found[j] == vs[j]
    {
      OneCharacter(cs[i]);
      var ok, v := store.Get([cs[i]], 129, true, true);
      found := found + [v];
    }
  }

  lemma AllEmpty(data: Bytes)
    requires data == Zeros(FILE_LEN)
    ensures forall c: Byte | 0 < c < 128 :: RowAt(data, c) == [EMPTY_ITEM, EMPTY_ITEM]
  {
    ZeroRows();
  }
}
