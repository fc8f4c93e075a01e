/** Bucket chains as sequences of items: where an item belongs, what an expansion
    makes of the chains, and the counters the growth policy keeps about them. */
module Chains {
  import opened Bits
  import opened Entries

  type HashFcn = Key -> nat

  /** The bucket of `e` among `n` buckets. */
  function Spot(h: HashFcn, e: Entry, n: nat): (b: nat)
    requires n > 0
    ensures b < n
  {
    h(e.key) % n
  }

  /** Every item is in the chain its hash value selects, once. */
  ghost predicate Hashed(h: HashFcn, chains: seq<seq<Entry>>) {
    && (forall b | 0 <= b < |chains| :: Distinct(chains[b]))
    && (forall b, i {:trigger chains[b][i]} | 0 <= b < |chains| && 0 <= i < |chains[b]| ::
          Spot(h, chains[b][i], |chains|) == b)
  }

  /** List and chains hold the same items, each once. */
  ghost predicate Placed(h: HashFcn, list: seq<Entry>, chains: seq<seq<Entry>>) {
    && |chains| > 0
    && Distinct(list) && Hashed(h, chains)
    && (forall b, i {:trigger chains[b][i]} | 0 <= b < |chains| && 0 <= i < |chains[b]| ::
          chains[b][i] in list)
    && (forall i {:trigger list[i]} | 0 <= i < |list| ::
          list[i] in chains[Spot(h, list[i], |chains|)])
  }

  function RemoveAt(s: seq<Entry>, k: nat): seq<Entry>
    requires k < |s|
  {
    s[..k] + s[k + 1..]
  }

  function InsertAt(s: seq<Entry>, k: nat, e: Entry): seq<Entry>
    requires k <= |s|
  {
    s[..k] + [e] + s[k..]
  }

  /** The position of `e`, and the list without it. */
  ghost function IndexOf(s: seq<Entry>, e: Entry): (i: nat)
    requires e in s
    ensures i < |s| && s[i] == e
  {
    if s[0] == e then 0 else 1 + IndexOf(s[1..], e)
  }

  ghost function Without(s: seq<Entry>, e: Entry): seq<Entry>
    requires e in s
  {
    RemoveAt(s, IndexOf(s, e))
  }

  lemma RemoveAtMembers(s: seq<Entry>, k: nat)
    requires k < |s| && Distinct(s)
    ensures Distinct(RemoveAt(s, k))
    ensures forall e :: e in RemoveAt(s, k) <==> e in s && e != s[k]
  {
    var r := RemoveAt(s, k);
    assert forall i | 0 <= i < |r| :: r[i] == if i < k then s[i] else s[i + 1];
    forall e: Entry ensures e in r <==> e in s && e != s[k] {
      if e in s && e != s[k] {
        var i :| 0 <= i < |s| && s[i] == e;
        assert r[if i < k then i else i - 1] == e;
      }
    }
  }

  lemma RemoveAtLength(s: seq<Entry>, k: nat)
    requires k < |s|
    ensures |RemoveAt(s, k)| == |s| - 1
  {
  }

  lemma DistinctRemoved(s: seq<Entry>, k: nat)
    requires k < |s| && Distinct(s)
    ensures Distinct(RemoveAt(s, k)) && |RemoveAt(s, k)| == |s| - 1
  {
    RemoveAtMembers(s, k);
  }

  lemma RemoveInsert(s: seq<Entry>, k: nat)
    requires k < |s|
    ensures k <= |RemoveAt(s, k)| && InsertAt(RemoveAt(s, k), k, s[k]) == s
  {
  }

  lemma InsertRemove(s: seq<Entry>, k: nat, e: Entry)
    requires k <= |s|
    ensures RemoveAt(InsertAt(s, k, e), k) == s
    ensures forall x {:trigger x in s} | x in s :: x in InsertAt(s, k, e)
  {
  }

  lemma InsertedMembers(s: seq<Entry>, k: nat, e: Entry)
    requires k <= |s|
    ensures forall x | x in InsertAt(s, k, e) :: x in s || x == e
  {
  }

  lemma InsertAtMembers(s: seq<Entry>, k: nat, e: Entry)
    requires k <= |s| && Distinct(s) && e !in s
    ensures Distinct(InsertAt(s, k, e))
    ensures forall x :: x in InsertAt(s, k, e) <==> x in s || x == e
    ensures RemoveAt(InsertAt(s, k, e), k) == s
  {
    var r := InsertAt(s, k, e);
    assert forall i | 0 <= i < |r| :: r[i] == if i < k then s[i] else if i == k then e else s[i - 1];
    forall x: Entry ensures x in r <==> x in s || x == e {
      if x in s {
        var i :| 0 <= i < |s| && s[i] == x;
        assert r[if i < k then i else i + 1] == x;
      }
    }
  }

  /** Adding an item to the list at `k` and to the front of its chain. */
  lemma PlacedAdd(h: HashFcn, list: seq<Entry>, chains: seq<seq<Entry>>, k: nat, e: Entry)
    requires Placed(h, list, chains) && e !in list && k <= |list|
    ensures var b := Spot(h, e, |chains|);
            Placed(h, InsertAt(list, k, e), chains[b := [e] + chains[b]])
  {
    InsertAtMembers(list, k, e);
    var b := Spot(h, e, |chains|);
    var c := [e] + chains[b];
    var cs, l := chains[b := c], InsertAt(list, k, e);
    assert Distinct(c) by {
      assert forall i | 0 <= i < |chains[b]| :: chains[b][i] in list;
    }
    forall i | 0 <= i < |l| ensures l[i] in cs[Spot(h, l[i], |cs|)] {
      assert l[i] in l;
      FoundAfterAdd(h, list, chains, e, l[i]);
    }
    forall b', i | 0 <= b' < |cs| && 0 <= i < |cs[b']|
      ensures cs[b'][i] in l && Spot(h, cs[b'][i], |cs|) == b'
    {
      assert b' == b && i > 0 ==> cs[b'][i] == chains[b][i - 1];
      assert cs[b'][i] in list || cs[b'][i] == e;
    }
  }

  lemma PushedHashed(h: HashFcn, chains: seq<seq<Entry>>, e: Entry)
    requires |chains| > 0 && Hashed(h, chains) && e !in chains[Spot(h, e, |chains|)]
    ensures var b := Spot(h, e, |chains|);
            Hashed(h, chains[b := [e] + chains[b]])
  {
    var b := Spot(h, e, |chains|);
    var c := [e] + chains[b];
    assert forall i | 0 < i < |c| :: c[i] == chains[b][i - 1];
  }

  lemma FoundAfterAdd(h: HashFcn, list: seq<Entry>, chains: seq<seq<Entry>>, e: Entry, x: Entry)
    requires Placed(h, list, chains) && (x in list || x == e)
    ensures var b := Spot(h, e, |chains|);
            x in chains[b := [e] + chains[b]][Spot(h, x, |chains|)]
  {
    var b := Spot(h, e, |chains|);
    if x in list {
      var j :| 0 <= j < |list| && list[j] == x;
      assert x in chains[Spot(h, list[j], |chains|)];
    }
  }

  /** Removing an item from the list and from its chain. */
  lemma PlacedRemove(h: HashFcn, list: seq<Entry>, chains: seq<seq<Entry>>, k: nat, b: nat, m: nat)
    requires Placed(h, list, chains) && k < |list|
    requires b < |chains| && m < |chains[b]| && chains[b][m] == list[k]
    ensures Placed(h, RemoveAt(list, k), chains[b := RemoveAt(chains[b], m)])
  {
    RemoveAtMembers(list, k);
    RemoveAtMembers(chains[b], m);
    var e, l, c := list[k], RemoveAt(list, k), RemoveAt(chains[b], m);
    var cs := chains[b := c];
    forall i | 0 <= i < |l| ensures l[i] in cs[Spot(h, l[i], |cs|)] {
      assert l[i] in l;
      var j :| 0 <= j < |list| && list[j] == l[i];
      assert list[j] in chains[Spot(h, list[j], |chains|)];
    }
    forall b', i | 0 <= b' < |cs| && 0 <= i < |cs[b']|
      ensures cs[b'][i] in l && Spot(h, cs[b'][i], |cs|) == b'
    {
      assert cs[b'][i] in cs[b'];
      assert cs[b'][i] in chains[b'];
      var j :| 0 <= j < |chains[b']| && chains[b'][j] == cs[b'][i];
      assert chains[b'][j] in list;
      assert Spot(h, chains[b'][j], |chains|) == b';
    }
  }

  lemma PlacedPermuted(h: HashFcn, s: seq<Entry>, t: seq<Entry>, chains: seq<seq<Entry>>)
    requires Placed(h, s, chains) && Distinct(t) && forall e :: e in t <==> e in s
    ensures Placed(h, t, chains)
  {
    forall i | 0 <= i < |t| ensures t[i] in chains[Spot(h, t[i], |chains|)] {
      assert t[i] in t;
      var j :| 0 <= j < |s| && s[j] == t[i];
    }
  }

  // ----- counting --------------------------------------------------------------

  ghost function TotalLength(chains: seq<seq<Entry>>): nat {
    if chains == [] then 0
    else TotalLength(chains[..|chains| - 1]) + |chains[|chains| - 1]|
  }

  ghost function Items(s: seq<Entry>): set<Entry> {
    set e | e in s
  }

  ghost function ItemsOf(chains: seq<seq<Entry>>): set<Entry> {
    if chains == [] then {}
    else ItemsOf(chains[..|chains| - 1]) + Items(chains[|chains| - 1])
  }

  lemma {:induction false} DistinctSize(s: seq<Entry>)
    requires Distinct(s)
    ensures |Items(s)| == |s|
  {
    if s != [] {
      var init, e := s[..|s| - 1], s[|s| - 1];
      DistinctSize(init);
      assert s == init + [e];
      assert Items(s) == Items(init) + {e};
    }
  }

  /** The chains seen so far hold exactly the listed items that belong there. */
  lemma {:induction false} ItemsOfMember(h: HashFcn, list: seq<Entry>, chains: seq<seq<Entry>>, k: nat, e: Entry)
    requires Placed(h, list, chains) && k <= |chains|
    ensures e in ItemsOf(chains[..k]) <==> e in list && Spot(h, e, |chains|) < k
  {
    if k > 0 {
      ItemsOfMember(h, list, chains, k - 1, e);
      assert chains[..k][..k - 1] == chains[..k - 1];
      if e in chains[k - 1] {
        var i :| 0 <= i < |chains[k - 1]| && chains[k - 1][i] == e;
        assert chains[k - 1][i] in list;
      }
      if e in list {
        var i :| 0 <= i < |list| && list[i] == e;
        assert list[i] in chains[Spot(h, list[i], |chains|)];
      }
    }
  }

  lemma {:induction false} ItemsOfSize(h: HashFcn, list: seq<Entry>, chains: seq<seq<Entry>>, k: nat)
    requires Placed(h, list, chains) && k <= |chains|
    ensures |ItemsOf(chains[..k])| == TotalLength(chains[..k])
  {
    if k > 0 {
      ItemsOfSize(h, list, chains, k - 1);
      assert chains[..k][..k - 1] == chains[..k - 1];
      DistinctSize(chains[k - 1]);
      var seen, last := ItemsOf(chains[..k - 1]), Items(chains[k - 1]);
      forall e | e in last ensures e !in seen {
        ItemsOfMember(h, list, chains, k - 1, e);
        var i :| 0 <= i < |chains[k - 1]| && chains[k - 1][i] == e;
      }
      assert |seen + last| == |seen| + |last|;
    }
  }

  lemma PlacedDistinct(h: HashFcn, list: seq<Entry>, chains: seq<seq<Entry>>)
    requires Placed(h, list, chains)
    ensures Distinct(list) && |chains| > 0
  {
  }

  /** The bucket counts add up to the number of items in the list. */
  lemma TotalIsListLength(h: HashFcn, list: seq<Entry>, chains: seq<seq<Entry>>)
    requires Placed(h, list, chains)
    ensures TotalLength(chains) == |list|
  {
    hide Placed, ItemsOf, TotalLength, Spot, Distinct;
    var n := |chains|;
    ItemsOfSize(h, list, chains, n);
    PlacedDistinct(h, list, chains);
    DistinctSize(list);
    assert chains[..n] == chains;
    forall e | e in ItemsOf(chains) ensures e in Items(list) {
      ItemsOfMember(h, list, chains, n, e);
    }
    forall e | e in Items(list) ensures e in ItemsOf(chains) {
      ItemsOfMember(h, list, chains, n, e);
    }
    assert ItemsOf(chains) == Items(list);
  }

  // ----- expansion -----------------------------------------------------------

  /** The items of `c` that belong to bucket `j` of `n`, last one first: each item is
      pushed to the front of its new chain. */
  ghost function Moved(h: HashFcn, c: seq<Entry>, j: nat, n: nat): seq<Entry>
    requires n > 0
  {
    if c == [] then []
    else
      var e, r := c[|c| - 1], Moved(h, c[..|c| - 1], j, n);
      if Spot(h, e, n) == j then [e] + r else r
  }

  /** The chains after doubling the number of buckets. */
  ghost function Redistributed(h: HashFcn, chains: seq<seq<Entry>>): (r: seq<seq<Entry>>)
    requires |chains| > 0
    ensures |r| == 2 * |chains|
  {
    seq(2 * |chains|, j requires 0 <= j < 2 * |chains| => Moved(h, chains[OldBucket(j, |chains|)], j, 2 * |chains|))
  }

  /** The bucket, of `n`, whose items go to bucket `j` of `2 * n`. */
  function OldBucket(j: nat, n: nat): nat {
    if j < n then j else j - n
  }

  lemma OldSpot(h: HashFcn, e: Entry, n: nat)
    requires n > 0
    ensures OldBucket(Spot(h, e, 2 * n), n) == Spot(h, e, n)
  {
    SplitBucket(h(e.key), n);
  }

  lemma {:induction false} MovedMember(h: HashFcn, c: seq<Entry>, j: nat, n: nat, e: Entry)
    requires n > 0
    ensures e in Moved(h, c, j, n) <==> e in c && Spot(h, e, n) == j
  {
    if c != [] {
      var init := c[..|c| - 1];
      MovedMember(h, init, j, n, e);
      assert c == init + [c[|c| - 1]];
    }
  }

  lemma {:induction false} MovedDistinct(h: HashFcn, c: seq<Entry>, j: nat, n: nat)
    requires n > 0 && Distinct(c)
    ensures Distinct(Moved(h, c, j, n))
  {
    if c != [] {
      var init, e := c[..|c| - 1], c[|c| - 1];
      MovedDistinct(h, init, j, n);
      MovedMember(h, init, j, n, e);
    }
  }

  lemma HashedRedistributed(h: HashFcn, chains: seq<seq<Entry>>)
    requires |chains| > 0 && Hashed(h, chains)
    ensures Hashed(h, Redistributed(h, chains))
  {
    var n, cs := |chains|, Redistributed(h, chains);
    forall j | 0 <= j < 2 * n ensures Distinct(cs[j]) {
      MovedDistinct(h, chains[OldBucket(j, n)], j, 2 * n);
    }
    forall j, i | 0 <= j < 2 * n && 0 <= i < |cs[j]| ensures Spot(h, cs[j][i], 2 * n) == j {
      MovedMember(h, chains[OldBucket(j, n)], j, 2 * n, cs[j][i]);
      assert cs[j][i] in cs[j];
    }
  }

  /** Doubling the buckets keeps every item, in the bucket where it is looked for. */
  lemma PlacedRedistributed(h: HashFcn, list: seq<Entry>, chains: seq<seq<Entry>>)
    requires Placed(h, list, chains)
    ensures Placed(h, list, Redistributed(h, chains))
  {
    var n, cs := |chains|, Redistributed(h, chains);
    HashedRedistributed(h, chains);
    forall j, i | 0 <= j < 2 * n && 0 <= i < |cs[j]| ensures cs[j][i] in list {
      var e, c := cs[j][i], chains[OldBucket(j, n)];
      MovedMember(h, c, j, 2 * n, e);
      assert e in cs[j];
      var m :| 0 <= m < |c| && c[m] == e;
      assert chains[OldBucket(j, n)][m] in list;
    }
    forall i | 0 <= i < |list| ensures list[i] in cs[Spot(h, list[i], |cs|)] {
      var e := list[i];
      OldSpot(h, e, n);
      MovedMember(h, chains[Spot(h, e, n)], Spot(h, e, 2 * n), 2 * n, e);
    }
  }

  /** `seen` is how far an expansion has got: a prefix of every chain. */
  ghost predicate Prefixes(seen: seq<seq<Entry>>, chains: seq<seq<Entry>>) {
    && |seen| == |chains|
    && forall b {:trigger seen[b]} | 0 <= b < |seen| :: seen[b] <= chains[b]
  }

  ghost function Empty(n: nat): (r: seq<seq<Entry>>)
    ensures |r| == n
  {
    seq(n, _ => [])
  }

  lemma EmptyPlaced(h: HashFcn, n: nat)
    requires n > 0
    ensures Placed(h, [], Empty(n))
  {
  }

  lemma RedistributedEmpty(h: HashFcn, n: nat)
    requires n > 0
    ensures Redistributed(h, Empty(n)) == Empty(2 * n)
  {
  }

  /** One item further, one item more at the front of its new chain. */
  lemma RedistributedStep(h: HashFcn, seen: seq<seq<Entry>>, i: nat, e: Entry)
    requires i < |seen| && Spot(h, e, |seen|) == i
    ensures var r, j := Redistributed(h, seen), Spot(h, e, 2 * |seen|);
            Redistributed(h, seen[i := seen[i] + [e]]) == r[j := [e] + r[j]]
  {
    var n := |seen|;
    var r, j := Redistributed(h, seen), Spot(h, e, 2 * n);
    OldSpot(h, e, n);
    var c := seen[i] + [e];
    assert c[..|c| - 1] == seen[i];
    var r' := Redistributed(h, seen[i := c]);
    forall k | 0 <= k < 2 * n ensures r'[k] == r[j := [e] + r[j]][k] {
    }
  }

  lemma PrefixesHashed(h: HashFcn, seen: seq<seq<Entry>>, chains: seq<seq<Entry>>)
    requires Hashed(h, chains) && Prefixes(seen, chains)
    ensures Hashed(h, seen)
  {
    forall b, i | 0 <= b < |seen| && 0 <= i < |seen[b]| ensures Spot(h, seen[b][i], |seen|) == b {
      assert seen[b][i] == chains[b][i];
    }
  }

  /** The next item to move is in none of the new chains yet. */
  lemma NotYetMoved(h: HashFcn, seen: seq<seq<Entry>>, chains: seq<seq<Entry>>, b: nat, j: nat, i: nat)
    requires Hashed(h, chains) && Prefixes(seen, chains)
    requires b < |chains| && |seen[b]| < |chains[b]|
    requires j < 2 * |chains| && i < |Redistributed(h, seen)[j]|
    ensures Redistributed(h, seen)[j][i] != chains[b][|seen[b]|]
  {
    var n, e := |chains|, chains[b][|seen[b]|];
    var was := OldBucket(j, n);
    MovedMember(h, seen[was], j, 2 * n, Redistributed(h, seen)[j][i]);
    assert Redistributed(h, seen)[j][i] in Redistributed(h, seen)[j];
  }

  // ----- growth policy ---------------------------------------------------------

  const CAPACITY_THRESH: nat := 10

  ghost function Over(n: nat, ideal: nat): nat {
    if n > ideal then n - ideal else 0
  }

  /** The number of items beyond the ideal chain length, over all chains. */
  ghost function Excess(chains: seq<seq<Entry>>, ideal: nat): nat {
    if chains == [] then 0
    else Excess(chains[..|chains| - 1], ideal) + Over(|chains[|chains| - 1]|, ideal)
  }

  lemma {:induction false} ExcessUpdate(chains: seq<seq<Entry>>, j: nat, c: seq<Entry>, ideal: nat)
    requires j < |chains|
    ensures Excess(chains[j := c], ideal) + Over(|chains[j]|, ideal)
         == Excess(chains, ideal) + Over(|c|, ideal)
  {
    var n := |chains| - 1;
    var cs := chains[j := c];
    if j < n {
      ExcessUpdate(chains[..n], j, c, ideal);
      assert cs[..n] == chains[..n][j := c];
    } else {
      assert cs[..n] == chains[..n];
    }
  }

  /** Closed form of the multiplier an expansion gives to a chain of `n` items. */
  ghost function ExpandMult(n: nat, ideal: nat): nat
    requires ideal > 0
  {
    if n <= ideal then 0
    else if n == ideal + 1 then 1
    else if ideal == 1 then n - 1
    else CeilDiv(n, ideal)
  }

  /** One item more: what the expansion loop computes step by step. */
  lemma ExpandMultStep(n: nat, ideal: nat)
    requires ideal > 0
    ensures ExpandMult(n + 1, ideal)
         == if n + 1 > ideal && n + 1 > ExpandMult(n, ideal) * ideal then ExpandMult(n, ideal) + 1
            else ExpandMult(n, ideal)
  {
    if n + 1 > ideal + 1 && ideal > 1 {
      CeilDivBounds(n, ideal);
      var q := ExpandMult(n, ideal);
      assert (q + 1) * ideal == q * ideal + ideal;
      if n == ideal + 1 {
        CeilDivUnique(n + 1, ideal, 2);
      } else if n + 1 > q * ideal {
        CeilDivUnique(n + 1, ideal, q + 1);
      } else {
        CeilDivUnique(n + 1, ideal, q);
      }
    }
  }

  /** The multiplier is the number of ideal chains the items fill, or one less. */
  lemma ExpandMultRange(n: nat, ideal: nat)
    requires ideal > 0
    ensures n <= ideal ==> ExpandMult(n, ideal) == 0
    ensures n > ideal ==> CeilDiv(n, ideal) - 1 <= ExpandMult(n, ideal) <= CeilDiv(n, ideal)
    ensures n <= (ExpandMult(n, ideal) + 1) * ideal
  {
    CeilDivBounds(n, ideal);
    if n == ideal + 1 {
      if ideal == 1 {
        CeilDivUnique(n, ideal, 2);
      } else {
        CeilDivUnique(n, ideal, 2);
      }
    } else if n > ideal && ideal == 1 {
      CeilDivUnique(n, ideal, n);
    } else if n > ideal {
      assert (CeilDiv(n, ideal) + 1) * ideal == CeilDiv(n, ideal) * ideal + ideal;
    }
  }
}
