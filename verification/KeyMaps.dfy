/** The abstract map a table stands for: from keys to items. */
module KeyMaps {
  import opened Entries
  import opened Chains

  ghost predicate UniqueKeys(s: seq<Entry>) {
    forall i, j | 0 <= i < j < |s| :: s[i].key != s[j].key
  }

  ghost function KeyMap(s: seq<Entry>): map<Key, Entry> {
    if s == [] then map[]
    else KeyMap(s[..|s| - 1])[s[|s| - 1].key := s[|s| - 1]]
  }

  /** `m` holds exactly the listed items, each under its key. */
  ghost predicate Represents(m: map<Key, Entry>, s: seq<Entry>) {
    && (forall k {:trigger m[k]} | k in m :: m[k] in s && m[k].key == k)
    && (forall e {:trigger e in s} | e in s :: e.key in m && m[e.key] == e)
  }

  lemma {:induction false} KeyMapRepresents(s: seq<Entry>)
    requires UniqueKeys(s)
    ensures Represents(KeyMap(s), s)
  {
    if s != [] {
      var init := s[..|s| - 1];
      KeyMapRepresents(init);
      assert s == init + [s[|s| - 1]];
    }
  }

  lemma RepresentsUnique(m: map<Key, Entry>, n: map<Key, Entry>, s: seq<Entry>)
    requires Represents(m, s) && Represents(n, s)
    ensures m == n
  {
    assert forall k | k in m :: k in n && n[k] == m[k];
    assert forall k | k in n :: n[k] in s;
  }

  /** Two lists of the same items with unique keys stand for the same map. */
  lemma SameItemsSameMap(s: seq<Entry>, t: seq<Entry>)
    requires UniqueKeys(s) && UniqueKeys(t) && forall e :: e in s <==> e in t
    ensures KeyMap(s) == KeyMap(t)
  {
    KeyMapRepresents(s);
    KeyMapRepresents(t);
    RepresentsUnique(KeyMap(s), KeyMap(t), t);
  }

  lemma UniqueKeysSubset(s: seq<Entry>, t: seq<Entry>)
    requires UniqueKeys(s) && Distinct(t) && forall e | e in t :: e in s
    ensures UniqueKeys(t)
  {
    forall i, j | 0 <= i < j < |t| ensures t[i].key != t[j].key {
      assert t[i] in t && t[j] in t;
      var a :| 0 <= a < |s| && s[a] == t[i];
      var b :| 0 <= b < |s| && s[b] == t[j];
    }
  }

  lemma UniqueKeysInserted(s: seq<Entry>, k: nat, e: Entry)
    requires UniqueKeys(s) && k <= |s| && forall x | x in s :: x.key != e.key
    ensures UniqueKeys(InsertAt(s, k, e))
  {
    var t := InsertAt(s, k, e);
    assert forall i | 0 <= i < |t| :: t[i] == if i < k then s[i] else if i == k then e else s[i - 1];
  }

  lemma OneMoreRepresents(m: map<Key, Entry>, s: seq<Entry>, e: Entry, t: seq<Entry>)
    requires Represents(m, s) && (forall x | x in s :: x.key != e.key)
    requires forall x {:trigger x in t} {:trigger x in s} :: x in t <==> x in s || x == e
    ensures Represents(m[e.key := e], t)
  {
  }

  /** Adding an item under a new key, wherever it goes in the list, is map update. */
  lemma AddUpdates(s: seq<Entry>, k: nat, e: Entry)
    requires UniqueKeys(s) && k <= |s| && forall x | x in s :: x.key != e.key
    ensures UniqueKeys(InsertAt(s, k, e))
    ensures KeyMap(InsertAt(s, k, e)) == KeyMap(s)[e.key := e]
  {
    hide UniqueKeys, KeyMap, InsertAt, Distinct, Represents;
    UniqueKeysInserted(s, k, e);
    UniqueKeysDistinct(s);
    var t := InsertAt(s, k, e);
    KeyMapRepresents(s);
    KeyMapRepresents(t);
    InsertAtMembers(s, k, e);
    OneMoreRepresents(KeyMap(s), s, e, t);
    RepresentsUnique(KeyMap(t), KeyMap(s)[e.key := e], t);
  }

  /** Removing an item removes its key. */
  lemma RemoveErases(s: seq<Entry>, e: Entry)
    requires UniqueKeys(s) && e in s
    ensures UniqueKeys(Without(s, e)) && KeyMap(Without(s, e)) == KeyMap(s) - {e.key}
  {
    hide UniqueKeys, KeyMap;
    var i, t := IndexOf(s, e), Without(s, e);
    UniqueKeysDistinct(s);
    RemoveAtMembers(s, i);
    assert forall x | x in t :: x in s;
    UniqueKeysSubset(s, t);
    KeyMapRepresents(s);
    KeyMapRepresents(t);
    RepresentsUnique(KeyMap(t), KeyMap(s) - {e.key}, t);
  }

  lemma UniqueKeysDistinct(s: seq<Entry>)
    requires UniqueKeys(s)
    ensures Distinct(s)
  {
  }
}
