/** The application-order list in the heap: append, in-order insertion, unlinking. */
module AppList {
  import opened Entries
  import opened Chains
  import opened StableSorting

  /** Appends `add` behind the tail. */
  method Append(tail: Entry, add: Entry, ghost s: seq<Entry>)
    requires AppLinked(s) && Distinct(s) && tail == Last(s) && add !in s
    modifies s`next, add`next, add`prev
    ensures AppLinked(InsertAt(s, |s|, add))
  {
    ghost var s' := InsertAt(s, |s|, add);
    assert forall i | 0 <= i < |s'| :: s'[i] == if i < |s| then s[i] else add;
    add.next := null;
    add.prev := tail;
    tail.next := add;
  }

  /** The first position whose item must come after `x`. */
  ghost function Place(cmp: (Entry, Entry) -> int, s: seq<Entry>, x: Entry): (k: nat)
    ensures k <= |s|
    ensures forall i | 0 <= i < k :: cmp(s[i], x) <= 0
    ensures k < |s| ==> cmp(s[k], x) > 0
  {
    if s == [] || cmp(s[0], x) > 0 then 0 else 1 + Place(cmp, s[1..], x)
  }

  /** Inserting at that position is one step of the reference sort. */
  lemma {:induction false} PlaceIsInsert(cmp: (Entry, Entry) -> int, s: seq<Entry>, x: Entry)
    ensures InsertAt(s, Place(cmp, s, x), x) == Insert(cmp, s, x)
  {
    if s != [] && cmp(s[0], x) <= 0 {
      PlaceIsInsert(cmp, s[1..], x);
      var k := Place(cmp, s[1..], x);
      assert s == [s[0]] + s[1..];
      assert InsertAt(s, k + 1, x) == [s[0]] + InsertAt(s[1..], k, x);
    }
  }

  /** Walks the list up to the first item that must come after `add`. */
  method FindPlace(head: Entry, add: Entry, cmp: (Entry, Entry) -> int, ghost s: seq<Entry>)
    returns (iter: Entry?)
    requires NextClosed(s) && s != [] && head == s[0]
    ensures iter == At(s, Place(cmp, s, add))
  {
    iter := head;
    ghost var k := 0;
    while iter != null
      invariant 0 <= k <= |s| && iter == At(s, k)
      invariant forall i | 0 <= i < k :: cmp(s[i], add) <= 0
      decreases |s| - k
    {
      if cmp(iter, add) > 0 {
        break;
      }
      iter := iter.next;
      k := k + 1;
    }
    assert k == Place(cmp, s, add);
  }

  /** Links `add` in front of `iter`. */
  method InsertBefore(iter: Entry, add: Entry, head: Entry, ghost s: seq<Entry>, ghost k: nat)
    returns (head': Entry)
    requires AppLinked(s) && Distinct(s) && k < |s| && iter == s[k] && head == s[0] && add !in s
    modifies s`next, s`prev, add`next, add`prev
    ensures AppLinked(InsertAt(s, k, add)) && head' == InsertAt(s, k, add)[0]
  {
    ghost var s' := InsertAt(s, k, add);
    assert forall i | 0 <= i < |s'| ::
        s'[i] == if i < k then s[i] else if i == k then add else s[i - 1];
    head' := head;
    add.next := iter;
    add.prev := iter.prev;
    if add.prev != null {
      add.prev.next := add;
    } else {
      head' := add;
    }
    iter.prev := add;
  }

  /** Unlinks `del` from a list of at least two items; its own links stay. */
  method Unlink(del: Entry, head: Entry, tail: Entry, ghost s: seq<Entry>, ghost i: nat)
    returns (head': Entry, tail': Entry)
    requires AppLinked(s) && Distinct(s) && |s| > 1 && i < |s| && del == s[i]
    requires head == s[0] && tail == Last(s)
    modifies s`next, s`prev
    ensures AppLinked(RemoveAt(s, i))
    ensures head' == At(RemoveAt(s, i), 0) && tail' == Last(RemoveAt(s, i))
    ensures del.next == old(del.next) && del.prev == old(del.prev)
  {
    ghost var s' := RemoveAt(s, i);
    assert forall j | 0 <= j < |s'| :: s'[j] == if j < i then s[j] else s[j + 1];
    head', tail' := head, tail;
    if del == tail {
      tail' := del.prev;
    }
    if del.prev != null {
      del.prev.next := del.next;
    } else {
      head' := del.next;
    }
    if del.next != null {
      del.next.prev := del.prev;
    }
  }
}
