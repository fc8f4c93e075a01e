/** Stable sorting of sequences by a comparator, as the application-order
    operations of the hash table need it: the one insertion step of an in-order
    add, one merge step of the bottom-up merge sort, and what relates the two. */
module StableSorting {

  /** What a C comparator says: `cmp(a, b) <= 0` when `a` need not come after `b`. */
  predicate Leq<T>(cmp: (T, T) -> int, a: T, b: T) {
    cmp(a, b) <= 0
  }

  /** The comparator is a total preorder on the items of `dom`. */
  ghost predicate OrderedBy<T>(cmp: (T, T) -> int, dom: set<T>) {
    && (forall a, b {:trigger Leq(cmp, a, b)} | a in dom && b in dom :: Leq(cmp, a, b) || Leq(cmp, b, a))
    && (forall a, b, c {:trigger Leq(cmp, a, b), Leq(cmp, b, c)} | a in dom && b in dom && c in dom ::
          Leq(cmp, a, b) && Leq(cmp, b, c) ==> Leq(cmp, a, c))
  }

  ghost predicate Within<T>(s: seq<T>, dom: set<T>) {
    forall i | 0 <= i < |s| :: s[i] in dom
  }

  ghost predicate Sorted<T>(cmp: (T, T) -> int, s: seq<T>) {
    forall i, j | 0 <= i < j < |s| :: Leq(cmp, s[i], s[j])
  }

  /** The items of `s` that the comparator cannot tell from `x`, in order. */
  ghost function Ties<T>(cmp: (T, T) -> int, x: T, s: seq<T>): seq<T> {
    if s == [] then []
    else (if Leq(cmp, x, s[0]) && Leq(cmp, s[0], x) then [s[0]] else []) + Ties(cmp, x, s[1..])
  }

  /** Places `x` before the first item that must come after it. */
  ghost function Insert<T>(cmp: (T, T) -> int, s: seq<T>, x: T): (r: seq<T>)
    ensures |r| == |s| + 1
  {
    if s == [] then [x]
    else if !Leq(cmp, s[0], x) then [x] + s
    else [s[0]] + Insert(cmp, s[1..], x)
  }

  /** Reference definition of a stable sort: insert the items one after another. */
  ghost function StableSort<T>(cmp: (T, T) -> int, s: seq<T>): (r: seq<T>)
    ensures |r| == |s|
  {
    if s == [] then []
    else Insert(cmp, StableSort(cmp, s[..|s| - 1]), s[|s| - 1])
  }

  /** Merges two runs, taking from `a` on a tie. */
  ghost function Merge<T>(cmp: (T, T) -> int, a: seq<T>, b: seq<T>): (r: seq<T>)
    ensures |r| == |a| + |b|
  {
    if a == [] then b
    else if b == [] then a
    else if Leq(cmp, a[0], b[0]) then [a[0]] + Merge(cmp, a[1..], b)
    else [b[0]] + Merge(cmp, a, b[1..])
  }

  /** The first run of at most `n` items, and what follows it. */
  ghost function Run<T>(s: seq<T>, n: nat): seq<T> {
    if |s| <= n then s else s[..n]
  }

  ghost function Rest<T>(s: seq<T>, n: nat): seq<T> {
    if |s| <= n then [] else s[n..]
  }

  /** One pass of the bottom-up merge sort: neighbouring runs of `n` items are merged. */
  ghost function MergePass<T>(cmp: (T, T) -> int, s: seq<T>, n: nat): seq<T>
    requires n > 0
    decreases |s|
  {
    if s == [] then []
    else
      var right := Rest(s, n);
      Merge(cmp, Run(s, n), Run(right, n)) + MergePass(cmp, Rest(right, n), n)
  }

  /** `s` with every block of `n` consecutive items sorted by itself. */
  ghost function BlockSort<T>(cmp: (T, T) -> int, s: seq<T>, n: nat): (r: seq<T>)
    requires n > 0
    ensures |r| == |s|
    decreases |s|
  {
    if s == [] then []
    else StableSort(cmp, Run(s, n)) + BlockSort(cmp, Rest(s, n), n)
  }

  // ----- merging is sorting ------------------------------------------------

  /** An insertion commutes with a merge, whether or not the runs are sorted. */
  lemma {:induction false} MergeInsert<T>(cmp: (T, T) -> int, a: seq<T>, b: seq<T>, x: T, dom: set<T>)
    requires OrderedBy(cmp, dom) && Within(a, dom) && Within(b, dom) && x in dom
    ensures Merge(cmp, a, Insert(cmp, b, x)) == Insert(cmp, Merge(cmp, a, b), x)
    decreases |a| + |b|
  {
    assert [x][1..] == [] && ([x] + b)[1..] == b;
    if a == [] {
    } else if b == [] {
      if Leq(cmp, a[0], x) {
        MergeInsert(cmp, a[1..], b, x, dom);
        assert Merge(cmp, a[1..], b) == a[1..];
      }
    } else if Leq(cmp, a[0], b[0]) {
      if Leq(cmp, a[0], x) {
        MergeInsert(cmp, a[1..], b, x, dom);
      }
    } else if Leq(cmp, b[0], x) {
      MergeInsert(cmp, a, b[1..], x, dom);
    }
  }

  /** Merging two sorted blocks sorts their concatenation. */
  lemma {:induction false} MergeIsSort<T>(cmp: (T, T) -> int, a: seq<T>, b: seq<T>, dom: set<T>)
    requires OrderedBy(cmp, dom) && Within(a, dom) && Within(b, dom)
    ensures Merge(cmp, StableSort(cmp, a), StableSort(cmp, b)) == StableSort(cmp, a + b)
    decreases |b|
  {
    var sa := StableSort(cmp, a);
    if b == [] {
      assert a + b == a && StableSort(cmp, b) == [];
    } else {
      var init, x := b[..|b| - 1], b[|b| - 1];
      MergeIsSort(cmp, a, init, dom);
      SortKeepsElems(cmp, a, dom);
      SortKeepsElems(cmp, init, dom);
      MergeInsert(cmp, sa, StableSort(cmp, init), x, dom);
      SortSnoc(cmp, init, x);
      SortSnoc(cmp, a + init, x);
      assert init + [x] == b && (a + init) + [x] == a + b;
    }
  }

  lemma SortSnoc<T>(cmp: (T, T) -> int, s: seq<T>, x: T)
    ensures StableSort(cmp, s + [x]) == Insert(cmp, StableSort(cmp, s), x)
  {
    assert (s + [x])[..|s|] == s;
  }

  lemma {:induction false} InsertIsPermutation<T>(cmp: (T, T) -> int, s: seq<T>, x: T)
    ensures multiset(Insert(cmp, s, x)) == multiset(s) + multiset{x}
  {
    if s != [] {
      InsertIsPermutation(cmp, s[1..], x);
      assert s == [s[0]] + s[1..];
    }
  }

  lemma {:induction false} SortIsPermutation<T>(cmp: (T, T) -> int, s: seq<T>)
    ensures multiset(StableSort(cmp, s)) == multiset(s)
  {
    if s != [] {
      var n := |s| - 1;
      SortIsPermutation(cmp, s[..n]);
      InsertIsPermutation(cmp, StableSort(cmp, s[..n]), s[n]);
      assert s == s[..n] + [s[n]];
    }
  }

  lemma SortMembers<T>(cmp: (T, T) -> int, s: seq<T>)
    ensures forall x :: x in StableSort(cmp, s) <==> x in s
  {
    SortIsPermutation(cmp, s);
    forall x ensures x in StableSort(cmp, s) <==> x in s {
      assert x in multiset(StableSort(cmp, s)) <==> x in multiset(s);
    }
  }

  lemma SortKeepsElems<T>(cmp: (T, T) -> int, s: seq<T>, dom: set<T>)
    requires Within(s, dom)
    ensures Within(StableSort(cmp, s), dom)
  {
    var r := StableSort(cmp, s);
    SortIsPermutation(cmp, s);
    forall i | 0 <= i < |r| ensures r[i] in dom {
      assert r[i] in multiset(r);
    }
  }

  lemma {:induction false} BlockSortSplit<T>(cmp: (T, T) -> int, s: seq<T>, n: nat)
    requires n > 0
    ensures Run(BlockSort(cmp, s, n), n) == StableSort(cmp, Run(s, n))
    ensures Rest(BlockSort(cmp, s, n), n) == BlockSort(cmp, Rest(s, n), n)
  {
    if s == [] {
      assert StableSort(cmp, s) == [];
    }
  }

  lemma RunTwice<T>(s: seq<T>, n: nat)
    ensures Run(s, n) + Run(Rest(s, n), n) == Run(s, 2 * n)
    ensures Rest(Rest(s, n), n) == Rest(s, 2 * n)
    ensures s == Run(s, n) + Rest(s, n)
  {
  }

  /** One merge of the pass: two neighbouring sorted blocks become one. */
  lemma BlocksMerge<T>(cmp: (T, T) -> int, s: seq<T>, n: nat, dom: set<T>)
    requires n > 0 && OrderedBy(cmp, dom) && Within(s, dom)
    ensures var t := BlockSort(cmp, s, n);
            && Merge(cmp, Run(t, n), Run(Rest(t, n), n)) == StableSort(cmp, Run(s, 2 * n))
            && Rest(Rest(t, n), n) == BlockSort(cmp, Rest(s, 2 * n), n)
  {
    BlockSortSplit(cmp, s, n);
    BlockSortSplit(cmp, Rest(s, n), n);
    MergeIsSort(cmp, Run(s, n), Run(Rest(s, n), n), dom);
    RunTwice(s, n);
  }

  /** One pass turns sorted blocks of `n` into sorted blocks of `2 * n`. */
  lemma {:induction false} PassDoubles<T>(cmp: (T, T) -> int, s: seq<T>, n: nat, dom: set<T>)
    requires n > 0 && OrderedBy(cmp, dom) && Within(s, dom)
    ensures MergePass(cmp, BlockSort(cmp, s, n), n) == BlockSort(cmp, s, 2 * n)
    decreases |s|
  {
    if s != [] {
      BlocksMerge(cmp, s, n, dom);
      PassDoubles(cmp, Rest(s, 2 * n), n, dom);
    }
  }

  /** Blocks of one item are sorted to begin with. */
  lemma {:induction false} BlocksOfOne<T>(cmp: (T, T) -> int, s: seq<T>)
    ensures BlockSort(cmp, s, 1) == s
    decreases |s|
  {
    if s != [] {
      BlocksOfOne(cmp, Rest(s, 1));
      SortOfOne(cmp, Run(s, 1));
      RunTwice(s, 1);
    }
  }

  /** A single block of at most `n` items is the whole list, sorted. */
  lemma OneBlock<T>(cmp: (T, T) -> int, s: seq<T>, n: nat)
    requires 0 < n && |s| <= n
    ensures BlockSort(cmp, s, n) == StableSort(cmp, s)
  {
  }

  lemma SortOfOne<T>(cmp: (T, T) -> int, s: seq<T>)
    requires |s| == 1
    ensures StableSort(cmp, s) == s
  {
    assert s[..0] == [] && s == [s[0]];
    assert StableSort(cmp, s[..0]) == [];
  }

  // ----- what the reference sort means -------------------------------------

  lemma {:induction false} InsertKeepsSorted<T>(cmp: (T, T) -> int, s: seq<T>, x: T, dom: set<T>)
    requires OrderedBy(cmp, dom) && Within(s, dom) && x in dom && Sorted(cmp, s)
    ensures Sorted(cmp, Insert(cmp, s, x))
  {
    var r := Insert(cmp, s, x);
    if s != [] {
      if !Leq(cmp, s[0], x) {
        assert forall j | 0 < j < |r| :: r[j] == s[j - 1];
      } else {
        InsertKeepsSorted(cmp, s[1..], x, dom);
        var t := Insert(cmp, s[1..], x);
        InsertIsPermutation(cmp, s[1..], x);
        forall j | 0 <= j < |t| ensures Leq(cmp, s[0], t[j]) {
          assert t[j] in multiset(t);
          assert t[j] in s[1..] || t[j] == x;
        }
      }
    }
  }

  lemma {:induction false} InsertTies<T>(cmp: (T, T) -> int, s: seq<T>, x: T, y: T, dom: set<T>)
    requires OrderedBy(cmp, dom) && Within(s, dom) && x in dom && y in dom && Sorted(cmp, s)
    ensures Ties(cmp, y, Insert(cmp, s, x)) == Ties(cmp, y, s) + Ties(cmp, y, [x])
  {
    if s != [] && !Leq(cmp, s[0], x) {
      TiesAppend(cmp, y, [x], s);
      if Leq(cmp, y, x) {
        assert forall i | 0 <= i < |s| :: Leq(cmp, s[0], s[i]) && !Leq(cmp, s[i], x);
        NoTies(cmp, y, s, x, dom);
      } else {
        assert Ties(cmp, y, [x]) == [];
      }
    } else if s != [] {
      InsertTies(cmp, s[1..], x, y, dom);
    }
  }

  lemma {:induction false} NoTies<T>(cmp: (T, T) -> int, y: T, s: seq<T>, x: T, dom: set<T>)
    requires OrderedBy(cmp, dom) && Within(s, dom) && x in dom && y in dom && Leq(cmp, y, x)
    requires forall i | 0 <= i < |s| :: !Leq(cmp, s[i], x)
    ensures Ties(cmp, y, s) == []
  {
    if s != [] {
      NoTies(cmp, y, s[1..], x, dom);
    }
  }

  lemma {:induction false} TiesAppend<T>(cmp: (T, T) -> int, y: T, s: seq<T>, t: seq<T>)
    ensures Ties(cmp, y, s + t) == Ties(cmp, y, s) + Ties(cmp, y, t)
  {
    if s == [] {
      assert s + t == t;
    } else {
      assert (s + t)[1..] == s[1..] + t;
      TiesAppend(cmp, y, s[1..], t);
    }
  }

  lemma {:induction false} StableSortIsSorted<T>(cmp: (T, T) -> int, s: seq<T>, dom: set<T>)
    requires OrderedBy(cmp, dom) && Within(s, dom)
    ensures Sorted(cmp, StableSort(cmp, s))
  {
    if s != [] {
      var init := s[..|s| - 1];
      StableSortIsSorted(cmp, init, dom);
      SortKeepsElems(cmp, init, dom);
      InsertKeepsSorted(cmp, StableSort(cmp, init), s[|s| - 1], dom);
    }
  }

  lemma {:induction false} StableSortTies<T>(cmp: (T, T) -> int, s: seq<T>, y: T, dom: set<T>)
    requires OrderedBy(cmp, dom) && Within(s, dom) && y in dom
    ensures Ties(cmp, y, StableSort(cmp, s)) == Ties(cmp, y, s)
  {
    if s != [] {
      var init, x := s[..|s| - 1], s[|s| - 1];
      StableSortTies(cmp, init, y, dom);
      StableSortIsSorted(cmp, init, dom);
      SortKeepsElems(cmp, init, dom);
      InsertTies(cmp, StableSort(cmp, init), x, y, dom);
      TiesAppend(cmp, y, init, [x]);
      assert s == init + [x];
    }
  }

  /** The reference sort returns its items sorted, with ties in their old order. */
  lemma StableSortIsStable<T>(cmp: (T, T) -> int, s: seq<T>, dom: set<T>)
    requires OrderedBy(cmp, dom) && Within(s, dom)
    ensures Sorted(cmp, StableSort(cmp, s))
    ensures multiset(StableSort(cmp, s)) == multiset(s)
    ensures forall y | y in dom :: Ties(cmp, y, StableSort(cmp, s)) == Ties(cmp, y, s)
  {
    SortIsPermutation(cmp, s);
    StableSortIsSorted(cmp, s, dom);
    forall y | y in dom ensures Ties(cmp, y, StableSort(cmp, s)) == Ties(cmp, y, s) {
      StableSortTies(cmp, s, y, dom);
    }
  }

  lemma {:induction false} TiesMember<T>(cmp: (T, T) -> int, x: T, y: T, s: seq<T>)
    ensures y in Ties(cmp, x, s) <==> y in s && Leq(cmp, x, y) && Leq(cmp, y, x)
  {
    if s != [] {
      TiesMember(cmp, x, y, s[1..]);
      assert s == [s[0]] + s[1..];
    }
  }

  /** Two sorted sequences that order every group of ties alike are equal. */
  lemma {:induction false} SortedDetermined<T>(cmp: (T, T) -> int, s: seq<T>, t: seq<T>, dom: set<T>)
    requires OrderedBy(cmp, dom) && Within(s, dom) && Within(t, dom)
    requires Sorted(cmp, s) && Sorted(cmp, t)
    requires forall y | y in dom :: Ties(cmp, y, s) == Ties(cmp, y, t)
    ensures s == t
  {
    if s == [] || t == [] {
      assert s != [] ==> Ties(cmp, s[0], t) == [];
      assert t != [] ==> Ties(cmp, t[0], s) == [];
    } else {
      TiesMember(cmp, s[0], s[0], s);
      TiesMember(cmp, s[0], s[0], t);
      TiesMember(cmp, t[0], t[0], t);
      TiesMember(cmp, t[0], t[0], s);
      assert Ties(cmp, s[0], s)[0] == s[0] && Ties(cmp, s[0], t)[0] == t[0];
      forall y | y in dom ensures Ties(cmp, y, s[1..]) == Ties(cmp, y, t[1..]) {
        var p := Ties(cmp, y, [s[0]]);
        assert s == [s[0]] + s[1..] && t == [s[0]] + t[1..];
        TiesAppend(cmp, y, [s[0]], s[1..]);
        TiesAppend(cmp, y, [s[0]], t[1..]);
        assert Ties(cmp, y, s[1..]) == Ties(cmp, y, s)[|p|..];
      }
      SortedDetermined(cmp, s[1..], t[1..], dom);
      assert s == [s[0]] + s[1..] && t == [s[0]] + t[1..];
    }
  }

  /** The reference sort is the only stable sorting of its input. */
  lemma {:induction false} StableSortUnique<T>(cmp: (T, T) -> int, s: seq<T>, t: seq<T>, dom: set<T>)
    requires OrderedBy(cmp, dom) && Within(s, dom) && Within(t, dom)
    ensures t == StableSort(cmp, s)
       <==> Sorted(cmp, t) && forall y | y in dom :: Ties(cmp, y, t) == Ties(cmp, y, s)
  {
    StableSortIsStable(cmp, s, dom);
    SortKeepsElems(cmp, s, dom);
    if Sorted(cmp, t) && forall y | y in dom :: Ties(cmp, y, t) == Ties(cmp, y, s) {
      SortedDetermined(cmp, t, StableSort(cmp, s), dom);
    }
  }
}
