/** Which item of a chain a search finds, and what an expansion of the table does to that. */
module Lookups {
  import opened Bits
  import opened Entries
  import opened Chains

  /** The first item of a chain with the given key. */
  ghost function First(c: seq<Entry>, key: Key): Entry? {
    if c == [] then null else if c[0].key == key then c[0] else First(c[1..], key)
  }

  /** The last one. */
  ghost function Oldest(c: seq<Entry>, key: Key): Entry? {
    if c == [] then null
    else if c[|c| - 1].key == key then c[|c| - 1]
    else Oldest(c[..|c| - 1], key)
  }

  /** What a search in these chains finds. */
  ghost function Lookup(h: HashFcn, chains: seq<seq<Entry>>, key: Key): Entry?
    requires |chains| > 0
  {
    First(chains[h(key) % |chains|], key)
  }

  lemma {:induction false} FirstAt(c: seq<Entry>, key: Key, k: nat)
    requires k <= |c| && forall i | 0 <= i < k :: c[i].key != key
    requires k == |c| || c[k].key == key
    ensures First(c, key) == At(c, k)
  {
    if k > 0 {
      FirstAt(c[1..], key, k - 1);
    }
  }

  lemma {:induction false} FirstIsFirst(c: seq<Entry>, key: Key)
    ensures First(c, key) == null <==> forall e | e in c :: e.key != key
    ensures First(c, key) != null ==> First(c, key) in c && First(c, key).key == key
  {
    if c != [] {
      FirstIsFirst(c[1..], key);
      assert c == [c[0]] + c[1..];
    }
  }

  lemma {:induction false} OldestIsLast(c: seq<Entry>, key: Key)
    ensures Oldest(c, key) == null <==> forall e | e in c :: e.key != key
    ensures Oldest(c, key) != null ==>
              exists k :: 0 <= k < |c| && c[k] == Oldest(c, key) && c[k].key == key
                          && forall i | k < i < |c| :: c[i].key != key
  {
    if c != [] {
      var init, e := c[..|c| - 1], c[|c| - 1];
      OldestIsLast(init, key);
      assert c == init + [e];
      if e.key == key {
        assert c[|c| - 1] == Oldest(c, key);
      } else if Oldest(c, key) != null {
        var k :| 0 <= k < |init| && init[k] == Oldest(init, key) && init[k].key == key
                 && forall i | k < i < |init| :: init[i].key != key;
        assert c[k] == Oldest(c, key);
      }
    }
  }

  /** Moving a chain turns it round: the first item found afterwards was the last one before. */
  lemma {:induction false} MovedFinds(h: HashFcn, c: seq<Entry>, n: nat, key: Key)
    requires n > 0
    ensures First(Moved(h, c, h(key) % n, n), key) == Oldest(c, key)
  {
    if c != [] {
      var init, e := c[..|c| - 1], c[|c| - 1];
      MovedFinds(h, init, n, key);
      var r := Moved(h, init, h(key) % n, n);
      if Spot(h, e, n) == h(key) % n {
        assert ([e] + r)[0] == e && ([e] + r)[1..] == r;
      }
    }
  }

  /** After the number of buckets has been doubled, a search finds the item with its key that
      was last in its chain. */
  lemma ExpansionFinds(h: HashFcn, chains: seq<seq<Entry>>, key: Key)
    requires |chains| > 0
    ensures Lookup(h, Redistributed(h, chains), key) == Oldest(chains[h(key) % |chains|], key)
  {
    var n := |chains|;
    SplitBucket(h(key), n);
    MovedFinds(h, chains[h(key) % n], 2 * n, key);
  }

  /** At most one item has the key. */
  ghost predicate HeldOnce(s: seq<Entry>, key: Key) {
    forall i, j | 0 <= i < j < |s| && s[i].key == key :: s[j].key != key
  }

  lemma FirstIsOldestIff(c: seq<Entry>, key: Key)
    requires Distinct(c)
    ensures First(c, key) == Oldest(c, key) <==> HeldOnce(c, key)
  {
    FirstIsFirst(c, key);
    OldestIsLast(c, key);
    if Oldest(c, key) != null {
      var k :| 0 <= k < |c| && c[k] == Oldest(c, key) && c[k].key == key
               && forall i | k < i < |c| :: c[i].key != key;
      var j := FirstPlace(c, key);
      FirstAt(c, key, j);
      if j == k {
        assert HeldOnce(c, key);
      } else {
        assert c[j].key == key && c[k].key == key && j < k;
      }
    }
  }

  lemma {:induction false} FirstPlace(c: seq<Entry>, key: Key) returns (j: nat)
    requires exists e :: e in c && e.key == key
    ensures j < |c| && c[j].key == key && forall i | 0 <= i < j :: c[i].key != key
  {
    j := 0;
    if c[0].key != key {
      assert c == [c[0]] + c[1..];
      j := FirstPlace(c[1..], key);
      j := j + 1;
    }
  }

  /** The list and the one chain that is searched hold a key at most once together. */
  lemma HeldOnceInChain(h: HashFcn, list: seq<Entry>, chains: seq<seq<Entry>>, key: Key)
    requires Placed(h, list, chains)
    ensures HeldOnce(chains[h(key) % |chains|], key) <==> HeldOnce(list, key)
  {
    var b := h(key) % |chains|;
    var c := chains[b];
    if i, j :| 0 <= i < j < |c| && c[i].key == key == c[j].key {
      assert chains[b][i] in list && chains[b][j] in list && c[i] != c[j];
    }
    if i, j :| 0 <= i < j < |list| && list[i].key == key == list[j].key {
      assert list[i] in c && list[j] in c && list[i] != list[j];
    }
  }

  /** An expansion leaves the result of a search as it is exactly if at most one item of the
      table has the key. */
  lemma ExpansionKeepsLookupIff(h: HashFcn, list: seq<Entry>, chains: seq<seq<Entry>>, key: Key)
    requires Placed(h, list, chains)
    ensures Lookup(h, Redistributed(h, chains), key) == Lookup(h, chains, key) <==> HeldOnce(list, key)
  {
    hide Redistributed, HeldOnce, Lookup;
    ExpansionFinds(h, chains, key);
    LookupIs(h, chains, key);
    HeldOnceInChain(h, list, chains, key);
    FirstIsOldestIff(chains[h(key) % |chains|], key);
  }

  lemma LookupIs(h: HashFcn, chains: seq<seq<Entry>>, key: Key)
    requires |chains| > 0
    ensures Lookup(h, chains, key) == First(chains[h(key) % |chains|], key)
  {
  }

  /** What is found in a chain with one more item at the front. */
  lemma PushedFinds(e: Entry, c: seq<Entry>, key: Key)
    ensures First([e] + c, key) == if e.key == key then e else First(c, key)
    ensures Oldest([e] + c, key) == if Oldest(c, key) == null && e.key == key then e else Oldest(c, key)
  {
    assert ([e] + c)[0] == e && ([e] + c)[1..] == c;
    OldestPushed(e, c, key);
  }

  lemma {:induction false} OldestPushed(e: Entry, c: seq<Entry>, key: Key)
    ensures Oldest([e] + c, key) == if Oldest(c, key) == null && e.key == key then e else Oldest(c, key)
  {
    var d := [e] + c;
    if c == [] {
      assert d == [e];
    } else {
      OldestPushed(e, c[..|c| - 1], key);
      assert d[..|d| - 1] == [e] + c[..|c| - 1] && d[|d| - 1] == c[|c| - 1];
    }
  }

  /** The one chain that is searched decides whether a key is there, both ways. */
  lemma HeldInChain(h: HashFcn, list: seq<Entry>, chains: seq<seq<Entry>>, key: Key)
    requires Placed(h, list, chains)
    ensures var c := chains[h(key) % |chains|];
            && (Oldest(c, key) == null <==> forall e | e in list :: e.key != key)
            && (Oldest(c, key) != null ==> Oldest(c, key) in list)
  {
    var b := h(key) % |chains|;
    var c := chains[b];
    OldestIsLast(c, key);
    if Oldest(c, key) != null {
      var k :| 0 <= k < |c| && c[k] == Oldest(c, key) && c[k].key == key;
      assert chains[b][k] in list;
    }
    forall e | e in list && e.key == key ensures e in c {
      var i :| 0 <= i < |list| && list[i] == e;
      assert list[i] in chains[Spot(h, list[i], |chains|)];
    }
  }

  lemma ChainDistinct(h: HashFcn, list: seq<Entry>, chains: seq<seq<Entry>>, key: Key)
    requires Placed(h, list, chains)
    ensures Distinct(chains[h(key) % |chains|])
  {
  }

  lemma EmptyFinds(c: seq<Entry>, key: Key)
    ensures c == [] ==> First(c, key) == null == Oldest(c, key)
  {
  }
}
