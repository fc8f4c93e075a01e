/** The sequential operations of the sub-device table as operations on a map from addresses to
    device types, and the rewrites of the bucket chains that adding and deleting can always
    make. */
module SubdevMaps {
  import opened SubdevSystem
  import opened SubdevSafety

  ghost predicate Unique(items: seq<Cell>) {
    forall i, j | 0 <= i < j < |items| :: items[i].address != items[j].address
  }

  /** The device type of every address in the table. */
  ghost function Types(items: seq<Cell>): map<Key, nat> {
    map a | a in Addresses(items) && Where(items, a) < |items| :: items[Where(items, a)].kind
  }

  ghost function Addresses(items: seq<Cell>): set<Key> {
    set i | 0 <= i < |items| :: items[i].address
  }

  lemma TypesAt(items: seq<Cell>, a: Key)
    ensures a in Types(items) <==> Where(items, a) < |items|
    ensures a in Types(items) ==> Types(items)[a] == items[Where(items, a)].kind
  {
    if Where(items, a) < |items| {
      assert items[Where(items, a)].address == a;
    }
  }

  /** `k` is the place of `a` if `a` is there and nowhere else. */
  lemma WhereUnique(items: seq<Cell>, k: nat)
    requires Unique(items) && k < |items|
    ensures Where(items, items[k].address) == k
  {
  }

  ghost predicate TypesLike(items: seq<Cell>, types: map<Key, nat>, a: Key) {
    && (a in types <==> Where(items, a) < |items|)
    && (a in types ==> types[a] == items[Where(items, a)].kind)
  }

  lemma TypesSame(items: seq<Cell>, types: map<Key, nat>)
    requires forall a :: TypesLike(items, types, a)
    ensures Types(items) == types
  {
    hide Types, TypesLike;
    var t := Types(items);
    forall a ensures (a in t <==> a in types) && (a in t ==> t[a] == types[a]) {
      assert TypesLike(items, types, a);
      TypesAgree(items, types, a);
    }
  }

  lemma TypesAgree(items: seq<Cell>, types: map<Key, nat>, a: Key)
    requires TypesLike(items, types, a)
    ensures (a in Types(items) <==> a in types) && (a in types ==> Types(items)[a] == types[a])
  {
    hide Types;
    TypesAt(items, a);
  }

  /** Adding sets the type of an address, deleting forgets it, looking it up answers it; the
      addresses stay unique. Marking and sweeping are nothing to the map. */
  lemma ApplyIsMapOperation(items: seq<Cell>, op: Op)
    requires Unique(items)
    ensures var (items', result) := Apply(items, op);
            && Unique(items')
            && match op
               case AddOp(a, v) => Types(items') == Types(items)[a := v] && result == Code(0)
               case DeleteOp(a) =>
                 Types(items') == Types(items) - {a} && result == Code(if a in Types(items) then 0 else -1)
               case DeleteAllOp => Types(items') == map[] && result == Code(0)
               case FindOp(a) =>
                 items' == items && result == Kind(if a in Types(items) then Types(items)[a] else 65535)
               case MarkOp(a) =>
                 && Types(items') == Types(items)
                 && result == Kind(if a in Types(items) then Types(items)[a] else 65535)
               case SweepOp => Types(items') == Types(items)
               case KeysOp(_, _) => items' == items
  {
    match op
    case AddOp(a, v) => AddIsUpdate(items, a, v);
    case DeleteOp(a) => DeleteIsRemoval(items, a);
    case DeleteAllOp => assert Types([]) == map[];
    case FindOp(a) => TypesAt(items, a);
    case MarkOp(a) =>
      TypesAt(items, a);
      AlikeTypes(items, Apply(items, op).0);
    case SweepOp => AlikeTypes(items, Apply(items, op).0);
    case KeysOp(_, _) =>
  }

  /** Marks are nothing to the map. */
  lemma AlikeTypes(items: seq<Cell>, items': seq<Cell>)
    requires Alike(items, items')
    ensures Types(items') == Types(items) && (Unique(items) ==> Unique(items'))
  {
    hide Types;
    var types := Types(items);
    forall a ensures TypesLike(items', types, a) {
      TypesAt(items, a);
      AlikeWhere(items, items', a);
    }
    TypesSame(items', types);
  }

  lemma AddIsUpdate(items: seq<Cell>, a: Key, v: nat)
    requires Unique(items)
    ensures var items' := Apply(items, AddOp(a, v)).0;
            Unique(items') && Types(items') == Types(items)[a := v]
  {
    var items', k := Apply(items, AddOp(a, v)).0, Where(items, a);
    assert Unique(items') && k < |items'| && items'[k].address == a && items'[k].kind == v;
    assert forall i | 0 <= i < |items| && i != k :: items'[i] == items[i];
    hide Apply, Types;
    var types := Types(items)[a := v];
    forall b ensures TypesLike(items', types, b) {
      TypesAt(items, b);
      AddedAt(items, items', a, v, k, b);
    }
    TypesSame(items', types);
  }

  lemma AddedAt(items: seq<Cell>, items': seq<Cell>, a: Key, v: nat, k: nat, b: Key)
    requires Unique(items) && Unique(items') && k < |items'| && items'[k].address == a && items'[k].kind == v
    requires k <= |items| <= |items'| && |items'| == if k < |items| then |items| else |items| + 1
    requires forall i | 0 <= i < |items| && i != k :: items'[i] == items[i]
    requires k == Where(items, a)
    ensures b == a ==> Where(items', b) == k
    ensures b != a ==> (Where(items', b) < |items'| <==> Where(items, b) < |items|)
    ensures b != a && Where(items', b) < |items'| ==> items'[Where(items', b)].kind == items[Where(items, b)].kind
  {
    WhereUnique(items', k);
    var w, w' := Where(items, b), Where(items', b);
    if b != a {
      if w < |items| {
        assert items'[w] == items[w];
        WhereUnique(items', w);
      } else {
        forall i | 0 <= i < |items'| ensures items'[i].address != b {
          assert i != k ==> items'[i] == items[i];
        }
      }
    }
  }

  lemma DeleteIsRemoval(items: seq<Cell>, a: Key)
    requires Unique(items)
    ensures var (items', result) := Apply(items, DeleteOp(a));
            && Unique(items') && Types(items') == Types(items) - {a}
            && result == Code(if a in Types(items) then 0 else -1)
  {
    var items', k := Apply(items, DeleteOp(a)).0, Where(items, a);
    TypesAt(items, a);
    if k < |items| {
      assert |items'| == |items| - 1
          && forall i {:trigger items'[i]} | 0 <= i < |items'| :: items'[i] == if i < k then items[i] else items[i + 1];
      RemovedTypes(items, items', k);
    } else {
      assert Types(items) - {a} == Types(items);
    }
  }

  lemma RemovedTypes(items: seq<Cell>, items': seq<Cell>, k: nat)
    requires Unique(items) && k < |items| && |items'| == |items| - 1
    requires forall i {:trigger items'[i]} | 0 <= i < |items'| :: items'[i] == if i < k then items[i] else items[i + 1]
    ensures Unique(items') && Types(items') == Types(items) - {items[k].address}
  {
    hide Types;
    RemovedUnique(items, items', k);
    var types := Types(items) - {items[k].address};
    forall b ensures TypesLike(items', types, b) {
      TypesAt(items, b);
      RemovedAt(items, items', k, b);
    }
    TypesSame(items', types);
  }

  lemma RemovedUnique(items: seq<Cell>, items': seq<Cell>, k: nat)
    requires Unique(items) && k < |items| && |items'| == |items| - 1
    requires forall i {:trigger items'[i]} | 0 <= i < |items'| :: items'[i] == if i < k then items[i] else items[i + 1]
    ensures Unique(items') && forall i | 0 <= i < |items'| :: items'[i].address != items[k].address
  {
  }

  lemma RemovedAt(items: seq<Cell>, items': seq<Cell>, k: nat, b: Key)
    requires Unique(items) && k < |items| && |items'| == |items| - 1
    requires forall i {:trigger items'[i]} | 0 <= i < |items'| :: items'[i] == if i < k then items[i] else items[i + 1]
    ensures b == items[k].address ==> Where(items', b) == |items'|
    ensures b != items[k].address ==> (Where(items', b) < |items'| <==> Where(items, b) < |items|)
    ensures b != items[k].address && Where(items, b) < |items| ==>
              Where(items', b) < |items'| && items'[Where(items', b)].kind == items[Where(items, b)].kind
  {
    RemovedUnique(items, items', k);
    var w, w' := Where(items, b), Where(items', b);
    if b != items[k].address {
      if w < |items| {
        var i := if w < k then w else w - 1;
        assert items'[i] == items[w];
        WhereUnique(items', i);
      }
    }
  }

  /** The contents at any time of any run have unique addresses. */
  lemma {:induction false} ReplayUnique(log: seq<Entry>)
    ensures Unique(Replay(log))
  {
    if log != [] {
      ReplayUnique(log[..|log| - 1]);
      ApplyIsMapOperation(Replay(log[..|log| - 1]), log[|log| - 1].op);
    }
  }

  // ----- linking and unlinking can always be completed -----------------------------------------

  /** An entry that is put at the head of its bucket's chain. */
  lemma CanLink(h: Key -> nat, tbl: Table, op: Op, id: nat)
    requires TableOk(h, tbl) && ToAdd(tbl, op, id)
    ensures var b := h(op.address) % |tbl.chains|;
            ChainsOk(h, tbl.heap, tbl.list + [id], tbl.chains[b := [id] + tbl.chains[b]])
  {
    var b := h(op.address) % |tbl.chains|;
    var chains, list := tbl.chains[b := [id] + tbl.chains[b]], tbl.list + [id];
    assert chains[b][0] == id && list[|tbl.list|] == id;
    forall x | x in list ensures x in tbl.heap && x in chains[h(tbl.heap[x].address) % |chains|] {
      if x != id {
        assert x in tbl.list;
        var c := h(tbl.heap[x].address) % |chains|;
        var k := Position(tbl.chains[c], x);
        assert chains[c][if c == b then k + 1 else k] == x;
      }
    }
    forall c, i | 0 <= c < |chains| && 0 <= i < |chains[c]| ensures chains[c][i] in list {
      assert (c == b && i == 0) || chains[c][i] == tbl.chains[c][if c == b then i - 1 else i];
    }
  }

  ghost function WithoutAll(chains: seq<seq<nat>>, id: nat): seq<seq<nat>> {
    seq(|chains|, b requires 0 <= b < |chains| => Without(chains[b], id))
  }

  /** An entry that is taken out of the chain it is in. */
  lemma CanUnlink(h: Key -> nat, tbl: Table, id: nat)
    requires TableOk(h, tbl) && id in tbl.list
    ensures ChainsOk(h, tbl.heap, Without(tbl.list, id), WithoutAll(tbl.chains, id))
    ensures ChainsOk(h, tbl.heap - {id}, Without(tbl.list, id), WithoutAll(tbl.chains, id))
  {
    hide Without, UniqueAddresses;
    var list, chains := Without(tbl.list, id), WithoutAll(tbl.chains, id);
    WithoutFacts(tbl.list, id);
    forall b | 0 <= b < |chains|
      ensures Distinct(chains[b]) && forall x :: x in chains[b] <==> x in tbl.chains[b] && x != id
    {
      assert Distinct(tbl.chains[b]);
      if id in tbl.chains[b] {
        WithoutFacts(tbl.chains[b], id);
      } else {
        NothingToRemove(tbl.chains[b], id);
      }
    }
    forall b, i | 0 <= b < |chains| && 0 <= i < |chains[b]| ensures chains[b][i] in list {
      assert chains[b][i] in chains[b];
      var k := Position(tbl.chains[b], chains[b][i]);
      assert tbl.chains[b][k] in tbl.list;
    }
  }

  lemma NothingToRemove(s: seq<nat>, id: nat)
    requires id !in s
    ensures Without(s, id) == s
  {
  }
}
