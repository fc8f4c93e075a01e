/** The sub-device address table: one client of the hash table, with its mark-and-sweep
    comparison of the device side's addresses against the cloud side's. */
module Subdev {
  import opened Entries
  import opened Chains
  import opened KeyMaps
  import opened UtHash

  const ADDRESS_MAX_LEN: nat := 17
  const NO_FIND: nat := 65535
  const RET_FAIL: int := -1

  /** A row of a caller's array of addresses: its first 16 characters, of which the zeros at the
      end are left out, and its last byte. */
  datatype AddressRow = AddressRow(chars: Key, last: char)

  datatype Text = Ends(chars: Key) | RunsOn

  /** The C string that starts at a row, unless it runs on behind the row. */
  function TextOf(row: AddressRow): Text {
    if |row.chars| < ADDRESS_MAX_LEN - 1 || row.last == '\0' then Ends(row.chars) else RunsOn
  }

  /** What is stored of an address: at most 16 characters. */
  function Stored(address: Key): Key {
    if |address| < ADDRESS_MAX_LEN then address else address[..ADDRESS_MAX_LEN - 1]
  }

  /** What happened to the table so far, as far as the marks are concerned. */
  datatype Event = Inserted(e: Entry) | Matched(e: Entry) | Swept

  /** Whether `e` was matched after both its insertion and the last sweep. */
  ghost predicate Marked(trace: seq<Event>, e: Entry) {
    trace != [] &&
    var last := trace[|trace| - 1];
    if last == Swept || last == Inserted(e) then false
    else last == Matched(e) || Marked(trace[..|trace| - 1], e)
  }

  /** The addresses a sweep reports: those of the unmarked entries, in list order. */
  ghost function Unmarked(trace: seq<Event>, s: seq<Entry>): seq<Key> {
    if s == [] then []
    else Unmarked(trace, s[..|s| - 1])
         + (if Marked(trace, s[|s| - 1]) then [] else [s[|s| - 1].key])
  }

  /** The addresses of the given device type, in list order. */
  ghost function OfKind(kind: nat, s: seq<Entry>): seq<Key>
    reads s`kind
  {
    if s == [] then []
    else OfKind(kind, s[..|s| - 1]) + (if s[|s| - 1].kind == kind then [s[|s| - 1].key] else [])
  }

  lemma InsertedMarks(trace: seq<Event>, x: Entry)
    ensures !Marked(trace + [Inserted(x)], x)
    ensures forall e {:trigger Marked(trace, e)} | e != x :: Marked(trace + [Inserted(x)], e) == Marked(trace, e)
  {
    assert (trace + [Inserted(x)])[..|trace|] == trace;
  }

  /** Event `k` matched `e`, which has been neither inserted nor swept since. */
  ghost predicate MatchedAt(trace: seq<Event>, e: Entry, k: nat) {
    && k < |trace| && trace[k] == Matched(e)
    && forall j {:trigger trace[j]} | k < j < |trace| :: trace[j] != Swept && trace[j] != Inserted(e)
  }

  lemma MatchedBefore(trace: seq<Event>, e: Entry, k: nat)
    requires trace != []
    ensures var n := |trace| - 1;
            MatchedAt(trace, e, k) <==>
            if k == n then trace[n] == Matched(e)
            else MatchedAt(trace[..n], e, k) && trace[n] != Swept && trace[n] != Inserted(e)
  {
    var n := |trace| - 1;
    assert forall j | 0 <= j < n :: trace[..n][j] == trace[j];
  }

  /** An entry is marked exactly when it was matched and neither inserted nor swept since. */
  lemma {:induction false} MarkedMeans(trace: seq<Event>, e: Entry)
    ensures Marked(trace, e) <==> exists k :: MatchedAt(trace, e, k)
  {
    if trace != [] {
      var n := |trace| - 1;
      MarkedMeans(trace[..n], e);
      if Marked(trace, e) {
        if trace[n] == Matched(e) {
          MatchedBefore(trace, e, n);
        } else {
          var k: nat :| MatchedAt(trace[..n], e, k);
          MatchedBefore(trace, e, k);
        }
      }
      if k: nat :| MatchedAt(trace, e, k) {
        MatchedBefore(trace, e, k);
      }
    }
  }

  class SubdevHash {
    const table: HashTable
    ghost var trace: seq<Event>
    ghost var freed: seq<Entry>    // the entries freed so far, in order

    ghost predicate Valid()
      reads this, table, table.buckets, table.bloomBv
      reads table.list`hashv, table.list`next, table.list`prev, table.list`hhPrev, table.list`hhNext
      reads table.list`flag
    {
      && table.Valid()
      && (forall e {:trigger e in table.list} | e in table.list ::
            e !in freed && e.flag == Marked(trace, e) && |e.key| < ADDRESS_MAX_LEN)
    }

    constructor (hashFcn: HashFcn, bloomOn: bool, bloomNbits: nat)
      ensures Valid() && fresh(table) && table.list == [] && trace == [] && freed == []
      ensures fresh(table.buckets) && fresh(table.bloomBv)
    {
      table := new HashTable(hashFcn, bloomOn, bloomNbits);
      trace, freed := [], [];
    }

    /** Looks an address up; an entry that is found is marked. */
    method FindEx(key: Key, lockOk: bool) returns (kind: nat)
      requires Valid()
      modifies this`trace, table.list`flag
      ensures Valid() && table.State() == old(table.State())
      ensures !lockOk ==> kind == 65535 && trace == old(trace)
      ensures lockOk ==>
        && (table.head != null ==> table.Sized())
        && var e := table.Found(key);
           if e == null then kind == 65535 && trace == old(trace)
           else kind == e.kind && trace == old(trace) + [Matched(e)]
      ensures table.head != null ==> table.Sized()
      ensures forall x | x in table.list ::
                x.flag == (old(x.flag) || (lockOk && x == table.Found(key)))
    {
      hide HashTable.Valid, HashTable.State, HashTable.Found, KeyMap, UniqueKeys, HashTable.Sized;
      table.FoundIsMember(key);
      kind := NO_FIND;
      if lockOk {
        var e := table.Find(key);
        if e != null {
          e.flag := true;
          kind := e.kind;
          trace := trace + [Matched(e)];
        }
      }
    }

    /** Looks an address up without marking it. */
    method Find(key: Key, lockOk: bool) returns (kind: nat)
      requires Valid()
      ensures table.head != null ==> table.Sized()
      ensures kind == if lockOk && table.Found(key) != null then table.Found(key).kind else 65535
    {
      kind := NO_FIND;
      if lockOk {
        var e := table.Find(key);
        if e != null {
          kind := e.kind;
        }
      }
    }

    /** Adds an address, or updates the device type of one that is there. */
    method Add(address: Key, value: nat, mallocOk: bool, lockOk: bool) returns (ret: int)
      requires Valid()
      modifies this`trace, table, table.buckets, table.bloomBv
      modifies table.list`next, table.list`prev, table.list`hhPrev, table.list`hhNext, table.list`kind
      ensures Valid() && old(table.head != null ==> table.Sized()) && freed == old(freed)
      ensures ret == 0 || ret == -1
      ensures var e := old(table.Found(address));
              && (ret == 0 <==> lockOk && (e != null || mallocOk))
              && (ret != 0 || e != null ==> table.State() == old(table.State()) && trace == old(trace))
              && (forall x | x in old(table.list) ::
                    x.kind == if ret == 0 && x == e then value else old(x.kind))
              && (ret == 0 && e == null ==>
                    exists x: Entry :: fresh(x) && x.key == Stored(address) && x.kind == value && !x.flag
                      && table.list == old(table.list) + [x] && trace == old(trace) + [Inserted(x)]
                      && table.Took(table.State(), x, old(table.State())))
      ensures ret != 0 || old(table.Found(address)) != null ==> table.list == old(table.list)
      ensures table.buckets == old(table.buckets) || fresh(table.buckets)
      ensures table.bloomBv == old(table.bloomBv) || fresh(table.bloomBv)
    {
      hide HashTable.Valid, HashTable.State, HashTable.Found, HashTable.Sized, KeyMap, UniqueKeys;
      hide HashTable.Took, HashTable.MemorySuffices, Marked;
      ret := RET_FAIL;
      var e := table.Find(address);
      if e == null {
        if mallocOk {
          var x := new Entry(Stored(address), value);
          if lockOk {
            table.MemoryLasts(table.State(), x);
            var oomed := table.Add(x, AllMade, true);
            trace := trace + [Inserted(x)];
            InsertedMarks(old(trace), x);
            ret := 0;
          }
        }
      } else if lockOk {
        e.kind := value;
        ret := 0;
      }
    }

    /** Deletes an address and frees its entry. */
    method Delete(key: Key, lockOk: bool) returns (ret: int)
      requires Valid()
      modifies this`freed, table, table.buckets, table.bloomBv
      modifies table.list`next, table.list`prev, table.list`hhPrev, table.list`hhNext
      ensures Valid() && old(table.head != null ==> table.Sized()) && trace == old(trace)
      ensures var e := old(table.Found(key));
              if lockOk && e != null then
                && ret == 0 && e in old(table.list) && table.list == Without(old(table.list), e)
                && freed == old(freed) + [e]
              else
                ret == -1 && table.State() == old(table.State()) && freed == old(freed)
      ensures ret != 0 ==> table.list == old(table.list)
      ensures forall x | x in table.list :: x in old(table.list)
      ensures table.buckets == old(table.buckets) || fresh(table.buckets)
      ensures table.bloomBv == old(table.bloomBv) || fresh(table.bloomBv)
    {
      hide HashTable.Valid, HashTable.State, HashTable.Found, HashTable.Sized, KeyMap, UniqueKeys;
      hide HashTable.Holds, HashTable.Removed;
      ret := RET_FAIL;
      var e := table.Find(key);
      if e != null && lockOk {
        ghost var was := table.list;
        table.Links();
        RemoveAtMembers(was, IndexOf(was, e));
        table.Delete(e);
        freed := freed + [e];
        ret := 0;
      }
    }

    /** Deletes and frees everything, front to back. */
    method DeleteAll(lockOk: bool)
      requires Valid()
      modifies this`freed, table, table.buckets, table.bloomBv
      modifies table.list`next, table.list`prev, table.list`hhPrev, table.list`hhNext
      ensures Valid() && trace == old(trace)
      ensures if lockOk then table.list == [] && table.head == null && freed == old(freed) + old(table.list)
              else table.State() == old(table.State()) && freed == old(freed)
      ensures !lockOk ==> table.list == old(table.list)
      ensures table.buckets == old(table.buckets) || fresh(table.buckets)
      ensures table.bloomBv == old(table.bloomBv) || fresh(table.bloomBv)
    {
      hide HashTable.Valid, HashTable.State, Distinct;
      if lockOk {
        ghost var was, k := table.list, 0;
        table.Links();
        var el := table.head;
        var tmp := if table.head != null then table.head.next else null;
        while el != null
          invariant 0 <= k <= |was| && Valid() && table.list == was[k..]
          invariant el == At(was, k) && tmp == At(was, k + 1)
          invariant freed == old(freed) + was[..k]
          invariant table.buckets == old(table.buckets) || fresh(table.buckets)
          invariant table.bloomBv == old(table.bloomBv) || fresh(table.bloomBv)
          decreases |was| - k
        {
          FreeFirst(el, was, k);
          k := k + 1;
          table.Links();
          el := tmp;
          tmp := if tmp != null then tmp.next else null;
        }
        table.Links();
      }
    }

    /** One round of `DeleteAll`: the entry behind the deleted one stays a member. */
    method FreeFirst(el: Entry, ghost was: seq<Entry>, ghost k: nat)
      requires Valid() && k < |was| && el == was[k] && table.list == was[k..]
      modifies this`freed, table, table.buckets, table.bloomBv
      modifies table.list`next, table.list`prev, table.list`hhPrev, table.list`hhNext
      ensures Valid() && table.list == was[k + 1..] && freed == old(freed) + [el]
      ensures table.buckets == old(table.buckets) || fresh(table.buckets)
      ensures table.bloomBv == old(table.bloomBv) || fresh(table.bloomBv)
    {
      hide HashTable.Valid, HashTable.State, HashTable.Holds, HashTable.Removed;
      hide Distinct, RemoveAt, IndexOf, Marked, Without;
      table.Links();
      WithoutFirst(table.list);
      assert table.list[1..] == was[k + 1..];
      table.Delete(el);
      freed := freed + [el];
    }

    /** The sweep: reports every unmarked entry once, in list order, and clears the marks.
        The callback only gets to see the addresses. */
    method Iterator(lockOk: bool) returns (reported: seq<Key>)
      requires Valid()
      modifies this`trace, table.list`flag
      ensures Valid() && table.State() == old(table.State())
      ensures lockOk ==> reported == Unmarked(old(trace), table.list) && trace == old(trace) + [Swept]
      ensures lockOk ==> forall e | e in table.list :: !e.flag
      ensures !lockOk ==> reported == [] && trace == old(trace) && forall e | e in table.list :: e.flag == old(e.flag)
    {
      hide *;
      reported := [];
      if lockOk {
        reported := Sweep();
      }
    }

    /** The sweep, under the lock. */
    method Sweep() returns (reported: seq<Key>)
      requires Valid()
      modifies this`trace, table.list`flag
      ensures Valid() && table.State() == old(table.State())
      ensures reported == Unmarked(old(trace), table.list) && trace == old(trace) + [Swept]
      ensures forall e | e in table.list :: !e.flag
    {
      hide HashTable.Valid, HashTable.State, Distinct, Unmarked, NextClosed;
      table.Links();
      reported := SweepList(table.head, table.list, trace);
      trace := trace + [Swept];
    }

    /** Copies the addresses of one device type into `out`, at most `rows` of them; the last
        byte of a row is never written. */
    method GetKeys(kind: nat, out: array<AddressRow>, rows: nat, lockOk: bool) returns (n: int)
      requires Valid() && 0 < rows <= out.Length
      requires out as object != table.buckets as object && out as object != table.bloomBv as object
      modifies out
      ensures !lockOk ==> n == -1 && out[..] == old(out[..])
      ensures lockOk ==>
        var all := OfKind(kind, table.list);
        && n == (if |all| <= rows then |all| else rows)
        && (forall j | 0 <= j < n ::
              out[j].chars == all[j] && out[j].last == old(out[j].last)
              && TextOf(out[j]) == if |all[j]| == ADDRESS_MAX_LEN - 1 && old(out[j].last) != '\0' then RunsOn
                                   else Ends(all[j]))
        && forall j | n <= j < out.Length :: out[j] == old(out[j])
    {
      hide HashTable.Valid, HashTable.State, Distinct, OfKind, TextOf;
      n := RET_FAIL;
      if lockOk {
        n := 0;
        table.Links();
        ghost var s, k := table.list, 0;
        ghost var all := OfKind(kind, s);
        Listed(kind);
        OfKindNone(kind);
        var el := table.head;
        var tmp := if table.head != null then table.head.next else null;
        while el != null
          invariant 0 <= k <= |s| && el == At(s, k) && tmp == At(s, k + 1)
          invariant 0 <= n < rows && n == |OfKind(kind, s[..k])|
          invariant forall j | 0 <= j < n :: out[j] == AddressRow(OfKind(kind, s[..k])[j], old(out[j].last))
          invariant forall j | n <= j < out.Length :: out[j] == old(out[j])
          decreases |s| - k
        {
          OfKindStep(kind, s, k);
          OfKindPrefix(kind, s, k + 1);
          if el.kind == kind {
            out[n] := out[n].(chars := el.key);
            n := n + 1;
            if n == rows {
              break;
            }
          }
          k := k + 1;
          el := tmp;
          tmp := if tmp != null then tmp.next else null;
        }
        if el == null {
          assert s[..k] == s;
        }
        assert forall j | 0 <= j < n :: out[j] == AddressRow(all[j], old(out[j].last));
        TextsOf(all);
      }
    }

    /** What is listed is short enough to be stored. */
    lemma Listed(kind: nat)
      requires Valid()
      ensures forall j | 0 <= j < |OfKind(kind, table.list)| :: |OfKind(kind, table.list)[j]| < ADDRESS_MAX_LEN
    {
      hide HashTable.Valid, Marked;
      OfKindShort(kind, table.list);
    }
  }

  lemma {:induction false} OfKindShort(kind: nat, s: seq<Entry>)
    requires forall e | e in s :: |e.key| < ADDRESS_MAX_LEN
    ensures forall j | 0 <= j < |OfKind(kind, s)| :: |OfKind(kind, s)[j]| < ADDRESS_MAX_LEN
  {
    if s != [] {
      OfKindShort(kind, s[..|s| - 1]);
      assert s[|s| - 1] in s;
    }
  }

  lemma TextsOf(all: seq<Key>)
    requires forall j | 0 <= j < |all| :: |all[j]| < ADDRESS_MAX_LEN
    ensures forall j, last | 0 <= j < |all| ::
              TextOf(AddressRow(all[j], last))
              == if |all[j]| == ADDRESS_MAX_LEN - 1 && last != '\0' then RunsOn else Ends(all[j])
  {
  }

  /** The loop of the sweep over the list `s`. */
  method SweepList(head: Entry?, ghost s: seq<Entry>, ghost trace: seq<Event>) returns (reported: seq<Key>)
    requires NextClosed(s) && Distinct(s) && head == At(s, 0)
    requires forall e {:trigger e in s} | e in s :: e.flag == Marked(trace, e)
    modifies s`flag
    ensures reported == Unmarked(trace, s) && forall e {:trigger e in s} | e in s :: !e.flag
  {
    hide Distinct, Unmarked, Marked;
    reported := [];
    UnmarkedNone(trace);
    assert forall i {:trigger s[i]} | 0 <= i < |s| :: s[i] in s;
    ghost var k := 0;
    var el := head;
    var tmp := if head != null then head.next else null;
    while el != null
      invariant 0 <= k <= |s| && el == At(s, k) && tmp == At(s, k + 1)
      invariant reported == Unmarked(trace, s[..k])
      invariant forall i {:trigger s[i]} | 0 <= i < |s| ::
                  s[i].flag == if i < k then false else Marked(trace, s[i])
      decreases |s| - k
    {
      UnmarkedStep(trace, s, k);
      DistinctFrom(s, k);
      if el.flag {
        el.flag := false;
      } else {
        reported := reported + [el.key];
      }
      k := k + 1;
      el := tmp;
      tmp := if tmp != null then tmp.next else null;
    }
    assert s[..k] == s;
  }

  lemma UnmarkedNone(trace: seq<Event>)
    ensures Unmarked(trace, []) == []
  {
  }

  lemma UnmarkedStep(trace: seq<Event>, s: seq<Entry>, k: nat)
    requires k < |s|
    ensures Unmarked(trace, s[..k + 1])
         == Unmarked(trace, s[..k]) + (if Marked(trace, s[k]) then [] else [s[k].key])
  {
    assert s[..k + 1][..k] == s[..k];
  }

  lemma DistinctFrom(s: seq<Entry>, k: nat)
    requires Distinct(s) && k < |s|
    ensures forall i {:trigger s[i]} | 0 <= i < |s| && i != k :: s[i] != s[k]
  {
  }

  lemma OfKindNone(kind: nat)
    ensures OfKind(kind, []) == []
  {
  }

  lemma OfKindStep(kind: nat, s: seq<Entry>, k: nat)
    requires k < |s|
    ensures OfKind(kind, s[..k + 1])
         == OfKind(kind, s[..k]) + (if s[k].kind == kind then [s[k].key] else [])
  {
    assert s[..k + 1][..k] == s[..k];
  }

  lemma {:induction false} OfKindPrefix(kind: nat, s: seq<Entry>, k: nat)
    requires k <= |s|
    ensures OfKind(kind, s[..k]) <= OfKind(kind, s)
    decreases |s| - k
  {
    if k < |s| {
      OfKindStep(kind, s, k);
      OfKindPrefix(kind, s, k + 1);
    } else {
      assert s[..k] == s;
    }
  }

  lemma WithoutFirst(s: seq<Entry>)
    requires s != [] && Distinct(s)
    ensures Without(s, s[0]) == s[1..]
    ensures forall e | e in s[1..] :: e in s && e != s[0]
  {
    assert IndexOf(s, s[0]) == 0;
  }
}
