/** The in-place bottom-up merge sort of the application-order list. */
module MergeSort {
  import opened Entries
  import opened StableSorting

  /** The state of one pass: `out` is linked already, `ps` is what is left of the
      left run and `qs` is everything from the right run to the end of the list. */
  ghost predicate PassState(out: seq<Entry>, ps: seq<Entry>, qs: seq<Entry>,
                            list: Entry?, tail: Entry?)
    reads out`next, out`prev, ps`next, qs`next
  {
    && Distinct(out + ps + qs)
    && PrevLinked(out) && NextLinked(out)
    && NextLinked(ps) && NextClosed(qs)
    && list == At(out, 0) && tail == Last(out)
  }

  lemma Apart(a: seq<Entry>, b: seq<Entry>, c: seq<Entry>)
    requires Distinct(a + b + c)
    ensures Distinct(a) && Distinct(b) && Distinct(c)
    ensures forall i, j | 0 <= i < |a| && 0 <= j < |b| :: a[i] != b[j]
    ensures forall i, j | 0 <= i < |a| && 0 <= j < |c| :: a[i] != c[j]
    ensures forall i, j | 0 <= i < |b| && 0 <= j < |c| :: b[i] != c[j]
  {
    var s := a + b + c;
    assert forall i | 0 <= i < |a| :: s[i] == a[i];
    assert forall i | 0 <= i < |b| :: s[|a| + i] == b[i];
    assert forall i | 0 <= i < |c| :: s[|a| + |b| + i] == c[i];
  }

  lemma DistinctFromParts(a: seq<Entry>, b: seq<Entry>, c: seq<Entry>)
    requires Distinct(a) && Distinct(b) && Distinct(c)
    requires forall i, j | 0 <= i < |a| && 0 <= j < |b| :: a[i] != b[j]
    requires forall i, j | 0 <= i < |a| && 0 <= j < |c| :: a[i] != c[j]
    requires forall i, j | 0 <= i < |b| && 0 <= j < |c| :: b[i] != c[j]
    ensures Distinct(a + b + c)
  {
  }

  /** Moving the first right-run item to the output keeps everything distinct. */
  lemma TakeRight(out: seq<Entry>, ps: seq<Entry>, qs: seq<Entry>)
    requires qs != [] && Distinct(out + ps + qs)
    ensures Distinct((out + [qs[0]]) + ps + qs[1..])
  {
    Apart(out, ps, qs);
    DistinctFromParts(out + [qs[0]], ps, qs[1..]);
  }

  lemma WithinSnoc(s: seq<Entry>, e: Entry, all: set<Entry>)
    requires Within(s, all) && e in all
    ensures Within(s + [e], all)
  {
  }

  lemma TakeLeft(out: seq<Entry>, ps: seq<Entry>, qs: seq<Entry>)
    requires ps != [] && Distinct(out + ps + qs)
    ensures Distinct((out + [ps[0]]) + ps[1..] + qs)
  {
    assert (out + [ps[0]]) + ps[1..] + qs == out + ps + qs;
  }

  /** Appends `e` to the output list (the tail end of the merge loop's body). */
  method Emit(e: Entry, list: Entry?, tail: Entry?,
              ghost out: seq<Entry>, ghost ps: seq<Entry>, ghost qs: seq<Entry>)
    returns (list': Entry?)
    requires Distinct((out + [e]) + ps + qs)
    requires PrevLinked(out) && NextLinked(out) && NextLinked(ps) && NextClosed(qs)
    requires list == At(out, 0) && tail == Last(out)
    modifies out`next, e`prev
    ensures PassState(out + [e], ps, qs, list', e)
  {
    ghost var out' := out + [e];
    Apart(out', ps, qs);
    assert out'[|out|] == e && forall i | 0 <= i < |out| :: out'[i] == out[i];
    list' := list;
    if tail != null {
      tail.next := e;
    } else {
      list' := e;
    }
    e.prev := tail;
  }

  /** One iteration of the merge loop: the next item in order goes to the output. */
  method TakeNext(p0: Entry?, q0: Entry?, psize0: nat, qsize0: nat, list0: Entry?, tail0: Entry?,
                  cmp: (Entry, Entry) -> int,
                  ghost out: seq<Entry>, ghost ps: seq<Entry>, ghost qs: seq<Entry>, ghost all: set<Entry>)
    returns (p: Entry?, q: Entry?, psize: nat, qsize: nat, list: Entry?, e: Entry,
             ghost ps': seq<Entry>, ghost qs': seq<Entry>)
    requires PassState(out, ps, qs, list0, tail0)
    requires psize0 == |ps| && p0 == At(ps, 0) && q0 == At(qs, 0)
    requires psize0 != 0 || (qsize0 != 0 && q0 != null)
    requires Within(out, all) && Within(ps, all) && Within(qs, all)
    modifies all`next, all`prev
    ensures PassState(out + [e], ps', qs', list, e)
    ensures psize == |ps'| && (psize > 0 ==> p == ps'[0]) && q == At(qs', 0)
    ensures e in all && Within(ps', all) && Within(qs', all)
    ensures || (ps != [] && ps == [e] + ps' && qs' == qs && qsize == qsize0)
            || (qs != [] && ps' == ps && qs == [e] + qs' && qsize == qsize0 - 1)
    ensures Merge(cmp, ps, Run(qs, qsize0)) == [e] + Merge(cmp, ps', Run(qs', qsize))
  {
    p, q, psize, qsize, ps', qs' := p0, q0, psize0, qsize0, ps, qs;
    if psize == 0 {
      e := q;
      q := q.next;
      qsize := qsize - 1;
      TakeRight(out, ps, qs);
      qs' := qs[1..];
    } else if qsize == 0 || q == null {
      e := p;
      p := p.next;
      psize := psize - 1;
      TakeLeft(out, ps, qs);
      ps' := ps[1..];
    } else if cmp(p, q) <= 0 {
      e := p;
      p := p.next;
      psize := psize - 1;
      TakeLeft(out, ps, qs);
      ps' := ps[1..];
    } else {
      e := q;
      q := q.next;
      qsize := qsize - 1;
      TakeRight(out, ps, qs);
      qs' := qs[1..];
    }
    assert ps != [] ==> ps == [ps[0]] + ps[1..];
    assert qs != [] ==> qs == [qs[0]] + qs[1..];
    RunTail(qs, qsize0);
    list := Emit(e, list0, tail0, out, ps', qs');
  }

  lemma RunTail(qs: seq<Entry>, qsize: nat)
    ensures qsize > 0 && qs != [] ==>
              Run(qs, qsize) == [qs[0]] + Run(qs[1..], qsize - 1)
    ensures qsize == 0 || qs == [] ==> Run(qs, qsize) == []
  {
  }

  /** Merges the run at `p0` with the run of at most `insize` items at `q0`. */
  method MergeRuns(p0: Entry, q0: Entry?, psize0: nat, insize: nat, list0: Entry?, tail0: Entry?,
                   cmp: (Entry, Entry) -> int,
                   ghost out0: seq<Entry>, ghost ps0: seq<Entry>, ghost qs0: seq<Entry>, ghost all: set<Entry>)
    returns (list: Entry?, tail: Entry?, q: Entry?, ghost out: seq<Entry>, ghost qs: seq<Entry>)
    requires PassState(out0, ps0, qs0, list0, tail0)
    requires ps0 != [] && p0 == ps0[0] && psize0 == |ps0| && q0 == At(qs0, 0)
    requires Within(out0, all) && Within(ps0, all) && Within(qs0, all)
    modifies all`next, all`prev
    ensures Within(out, all)
    ensures PassState(out, [], qs, list, tail)
    ensures q == At(qs, 0)
    ensures qs == Rest(qs0, insize)
    ensures out == out0 + Merge(cmp, ps0, Run(qs0, insize))
  {
    hide PassState, Merge, Run, Rest, Within;
    var p: Entry? := p0;
    var psize, qsize := psize0, insize;
    list, tail, q, out, qs := list0, tail0, q0, out0, qs0;
    ghost var ps, k := ps0, 0;
    while psize != 0 || (qsize != 0 && q != null)
      invariant PassState(out, ps, qs, list, tail)
      invariant psize == |ps| && (psize > 0 ==> p == ps[0]) && q == At(qs, 0)
      invariant 0 <= k <= |qs0| && qs == qs0[k..] && qsize == insize - k
      invariant out + Merge(cmp, ps, Run(qs, qsize)) == out0 + Merge(cmp, ps0, Run(qs0, insize))
      invariant Within(out, all) && Within(ps, all) && Within(qs, all)
      decreases psize + |qs|
    {
      var e: Entry;
      ghost var ps', qs';
      p, q, psize, qsize, list, e, ps', qs' :=
        TakeNext(if psize == 0 then null else p, q, psize, qsize, list, tail, cmp, out, ps, qs, all);
      tail := e;
      WithinSnoc(out, e, all);
      out := out + [e];
      k := if ps' == ps then k + 1 else k;
      ps, qs := ps', qs';
    }
    RunsEmptied(qs0, insize, k, cmp);
  }

  lemma RunsEmptied(qs: seq<Entry>, n: nat, k: nat, cmp: (Entry, Entry) -> int)
    requires k <= |qs| && k <= n && (k == n || k == |qs|)
    ensures Merge(cmp, [], Run(qs[k..], n - k)) == [] && qs[k..] == Rest(qs, n)
  {
  }

  /** Steps over the next run: at most `insize` items, fewer at the end of the list. */
  method CutRun(p: Entry, insize: nat, ghost qs: seq<Entry>) returns (q: Entry?, psize: nat)
    requires NextClosed(qs) && qs != [] && p == qs[0] && insize > 0
    ensures psize == |Run(qs, insize)| && q == At(qs, psize)
  {
    q, psize := p, 0;
    var i := 0;
    while i < insize
      invariant 0 <= i == psize <= insize && psize < |qs|
      invariant q == At(qs, psize)
    {
      psize := psize + 1;
      q := q.next;
      if q == null {
        break;
      }
      i := i + 1;
    }
  }

  lemma CutPassState(out: seq<Entry>, qs: seq<Entry>, k: nat, list: Entry?, tail: Entry?)
    requires PassState(out, [], qs, list, tail) && k <= |qs|
    ensures PassState(out, qs[..k], qs[k..], list, tail)
  {
    assert out + [] + qs == out + qs[..k] + qs[k..];
    var ps, rest := qs[..k], qs[k..];
    forall i | 0 <= i < |rest| ensures rest[i].next == At(rest, i + 1) {
      assert rest[i] == qs[k + i];
      assert qs[k + i].next == At(qs, k + i + 1);
    }
    forall i | 0 <= i < |ps| - 1 ensures ps[i].next == ps[i + 1] {
      assert qs[i].next == At(qs, i + 1);
    }
  }

  /** One round of the pass: cuts off the next two runs and merges them. */
  method MergePair(p: Entry, insize: nat, list0: Entry?, tail0: Entry?, cmp: (Entry, Entry) -> int,
                   ghost out0: seq<Entry>, ghost rest0: seq<Entry>, ghost all: set<Entry>)
    returns (list: Entry?, tail: Entry?, q: Entry?, ghost out: seq<Entry>)
    requires PassState(out0, [], rest0, list0, tail0) && insize > 0
    requires rest0 != [] && p == rest0[0] && Within(out0, all) && Within(rest0, all)
    modifies all`next, all`prev
    ensures var right := Rest(rest0, insize);
            && PassState(out, [], Rest(right, insize), list, tail)
            && q == At(Rest(right, insize), 0)
            && out == out0 + Merge(cmp, Run(rest0, insize), Run(right, insize))
            && Within(out, all)
  {
    var psize;
    q, psize := CutRun(p, insize, rest0);
    CutPassState(out0, rest0, psize, list0, tail0);
    ghost var ps, right := Run(rest0, insize), Rest(rest0, insize);
    ghost var qs;
    assert ps == rest0[..psize] && right == rest0[psize..];
    list, tail, q, out, qs := MergeRuns(p, q, psize, insize, list0, tail0, cmp, out0, ps, right, all);
  }

  lemma RestShrinks(s: seq<Entry>, n: nat, all: set<Entry>)
    ensures |Rest(s, n)| == if |s| <= n then 0 else |s| - n
    ensures Within(s, all) ==> Within(Rest(s, n), all)
  {
  }

  lemma StartPass(s: seq<Entry>, all: set<Entry>)
    requires Distinct(s) && NextClosed(s)
    ensures PassState([], [], s, null, null) && Within([], all)
  {
    assert [] + [] + s == s;
  }

  /** One pass over the list: merges neighbouring runs of `insize` items. */
  method Pass(list0: Entry, insize: nat, cmp: (Entry, Entry) -> int,
              ghost s: seq<Entry>, ghost all: set<Entry>)
    returns (list: Entry?, tail: Entry?, nmerges: nat, ghost out: seq<Entry>)
    requires AppLinked(s) && Distinct(s) && s != [] && list0 == s[0] && insize > 0
    requires Within(s, all)
    modifies all`next, all`prev
    ensures out == MergePass(cmp, s, insize) && Within(out, all)
    ensures AppLinked(out) && Distinct(out) && list == At(out, 0) && tail == Last(out)
    ensures nmerges == Pairs(|s|, insize)
  {
    hide Distinct, Merge, Run, Rest, PrevLinked, NextLinked, NextClosed, Within;
    var p: Entry? := list0;
    list, tail, nmerges, out := null, null, 0, [];
    ghost var rest := s;
    StartPass(s, all);
    while p != null
      invariant PassState(out, [], rest, list, tail) && p == At(rest, 0)
      invariant out + MergePass(cmp, rest, insize) == MergePass(cmp, s, insize)
      invariant Within(out, all) && Within(rest, all)
      invariant nmerges + Pairs(|rest|, insize) == Pairs(|s|, insize)
      decreases |rest|
    {
      nmerges := nmerges + 1;
      RestShrinks(rest, insize, all);
      RestShrinks(Rest(rest, insize), insize, all);
      list, tail, p, out := MergePair(p, insize, list, tail, cmp, out, rest, all);
      rest := Rest(Rest(rest, insize), insize);
    }
    EndPass(list, tail, out, all);
  }

  /** Terminates the output list of a pass. */
  method EndPass(list: Entry?, tail: Entry?, ghost out: seq<Entry>, ghost all: set<Entry>)
    requires PassState(out, [], [], list, tail) && Within(out, all)
    modifies all`next
    ensures AppLinked(out) && Distinct(out) && list == At(out, 0) && tail == Last(out)
  {
    assert out + [] + [] == out;
    if tail != null {
      tail.next := null;
    }
  }

  /** The number of run pairs in a list of `n` items: `n / (2 * insize)`, rounded up. */
  ghost function Pairs(n: nat, insize: nat): nat
    requires insize > 0
  {
    if n == 0 then 0 else if n <= 2 * insize then 1 else 1 + Pairs(n - 2 * insize, insize)
  }

  lemma {:induction false} PairsIsCeil(n: nat, insize: nat)
    requires insize > 0
    ensures var d, q := 2 * insize, Pairs(n, insize);
            n <= q * d && (n > 0 ==> (q - 1) * d < n) && (n == 0 ==> q == 0)
  {
    if n > 2 * insize {
      var d, q := 2 * insize, Pairs(n - 2 * insize, insize);
      PairsIsCeil(n - 2 * insize, insize);
      assert (q + 1) * d == q * d + d;
      assert (q - 1) * d == q * d - d;
    }
  }

  /** Sorts the application-order list `s` in place; only its `next` and `prev` links
      change. `cmp` is what the comparator answers during the call. */
  method SortList(head: Entry, cmp: (Entry, Entry) -> int, ghost s: seq<Entry>)
    returns (list: Entry, tail: Entry, ghost out: seq<Entry>)
    requires AppLinked(s) && Distinct(s) && s != [] && head == s[0]
    requires OrderedBy(cmp, set e | e in s)
    modifies s`next, s`prev
    ensures out == StableSort(cmp, s)
    ensures AppLinked(out) && Distinct(out) && list == out[0] && tail == out[|out| - 1]
  {
    hide StableSort, BlockSort, MergePass, Distinct, AppLinked;
    ghost var all := set e | e in s;
    var insize, looping := 1, true;
    var first: Entry? := head;
    var last: Entry? := null;
    out := s;
    BlocksOfOne(cmp, s);
    while looping
      invariant AppLinked(out) && Distinct(out) && Within(out, all)
      invariant insize > 0 && out == BlockSort(cmp, s, insize) && first == At(out, 0)
      invariant looping ==> insize == 1 || insize < |s|
      invariant !looping ==> |s| <= insize && last == Last(out)
      decreases looping, |s| - insize
    {
      var nmerges;
      PassDoubles(cmp, s, insize, all);
      first, last, nmerges, out := Pass(first, insize, cmp, out, all);
      if nmerges <= 1 {
        looping := false;
      }
      insize := insize * 2;
    }
    OneBlock(cmp, s, insize);
    list, tail := first, last;
  }
}
