/** The items of the hash table. Each carries an intrusive hash handle with links
    into two structures at once: the application-order list (`prev`, `next`) and
    the chain of one bucket (`hhPrev`, `hhNext`). */
module Entries {

  type Key = string

  class Entry {
    const key: Key
    var kind: nat      // the device type the client stores
    var flag: bool     // the client's topology mark
    var hashv: nat
    var prev: Entry?
    var next: Entry?
    var hhPrev: Entry?
    var hhNext: Entry?

    constructor (key: Key, kind: nat)
      ensures this.key == key && this.kind == kind && !flag
    {
      this.key := key;
      this.kind := kind;
      flag, hashv := false, 0;
      prev, next, hhPrev, hhNext := null, null, null, null;
    }
  }

  /** The item at position `i`, or null outside the sequence. */
  function At(s: seq<Entry>, i: int): Entry? {
    if 0 <= i < |s| then s[i] else null
  }

  function Last(s: seq<Entry>): Entry? {
    At(s, |s| - 1)
  }

  ghost predicate Distinct(s: seq<Entry>) {
    forall i, j | 0 <= i < j < |s| :: s[i] != s[j]
  }

  /** `s` is a null-terminated doubly linked list in application order. */
  ghost predicate AppLinked(s: seq<Entry>)
    reads s`next, s`prev
  {
    PrevLinked(s) && NextClosed(s)
  }

  ghost predicate PrevLinked(s: seq<Entry>)
    reads s`prev
  {
    forall i {:trigger s[i].prev} | 0 <= i < |s| :: s[i].prev == At(s, i - 1)
  }

  ghost predicate NextClosed(s: seq<Entry>)
    reads s`next
  {
    forall i {:trigger s[i].next} | 0 <= i < |s| :: s[i].next == At(s, i + 1)
  }

  /** Like `NextClosed`, but says nothing about where the last item points. */
  ghost predicate NextLinked(s: seq<Entry>)
    reads s`next
  {
    forall i {:trigger s[i].next} | 0 <= i < |s| - 1 :: s[i].next == s[i + 1]
  }
}
