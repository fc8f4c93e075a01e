/** Why the sub-device table's locking is enough: in every run nobody uses freed memory or
    half-written links, and every call takes effect at one moment between its beginning and
    its answer. */
module SubdevSafety {
  import opened SubdevSystem

  // ----- the table -------------------------------------------------------------------------

  function CellAt(heap: map<nat, Cell>, id: nat): Cell {
    if id in heap then heap[id] else Cell("", 0, false)
  }

  /** The table's contents in application order. */
  function Snapshot(heap: map<nat, Cell>, list: seq<nat>): (r: seq<Cell>)
    ensures |r| == |list| && forall i {:trigger r[i]} | 0 <= i < |r| :: r[i] == CellAt(heap, list[i])
  {
    seq(|list|, i requires 0 <= i < |list| => CellAt(heap, list[i]))
  }

  ghost predicate Distinct(s: seq<nat>) {
    forall i, j | 0 <= i < j < |s| :: s[i] != s[j]
  }

  ghost predicate UniqueAddresses(heap: map<nat, Cell>, list: seq<nat>) {
    forall i, j | 0 <= i < j < |list| :: CellAt(heap, list[i]).address != CellAt(heap, list[j]).address
  }

  ghost predicate TableOk(h: Key -> nat, tbl: Table) {
    && ChainsOk(h, tbl.heap, tbl.list, tbl.chains) && NULL !in tbl.heap
    && Distinct(tbl.list) && UniqueAddresses(tbl.heap, tbl.list)
  }

  ghost predicate NoAddr(tbl: Table, a: Key) {
    forall id {:trigger id in tbl.list} | id in tbl.list :: CellAt(tbl.heap, id).address != a
  }

  /** A walk along the chain of `a` has come to `cur` without meeting `a`. */
  ghost predicate Walking(h: Key -> nat, tbl: Table, a: Key, cur: nat) {
    var ch := Chain(h, tbl, a);
    if cur == NULL then NoAddr(tbl, a)
    else cur in ch && forall j | 0 <= j < Position(ch, cur) :: CellAt(tbl.heap, ch[j]).address != a
  }

  lemma ChainHas(h: Key -> nat, tbl: Table, a: Key, id: nat)
    requires TableOk(h, tbl) && id in tbl.list && CellAt(tbl.heap, id).address == a
    ensures id in Chain(h, tbl, a)
  {
  }

  lemma ChainMember(h: Key -> nat, tbl: Table, a: Key, k: nat)
    requires TableOk(h, tbl) && k < |Chain(h, tbl, a)|
    ensures var id := Chain(h, tbl, a)[k]; id in tbl.list && id in tbl.heap && id != NULL
    ensures Position(Chain(h, tbl, a), Chain(h, tbl, a)[k]) == k
  {
    var b := h(a) % |tbl.chains|;
    assert Chain(h, tbl, a) == tbl.chains[b];
    assert tbl.chains[b][k] in tbl.list;
  }

  lemma WalkStart(h: Key -> nat, tbl: Table, a: Key)
    requires TableOk(h, tbl)
    ensures Walking(h, tbl, a, At(Chain(h, tbl, a), 0))
  {
    WalkAt(h, tbl, a, 0);
  }

  /** Being at position `k`, or behind the end, with no match before it. */
  lemma WalkAt(h: Key -> nat, tbl: Table, a: Key, k: nat)
    requires TableOk(h, tbl) && k <= |Chain(h, tbl, a)|
    requires forall j | 0 <= j < k :: CellAt(tbl.heap, Chain(h, tbl, a)[j]).address != a
    ensures Walking(h, tbl, a, At(Chain(h, tbl, a), k))
  {
    var ch := Chain(h, tbl, a);
    if k < |ch| {
      ChainMember(h, tbl, a, k);
    } else {
      forall id | id in tbl.list ensures CellAt(tbl.heap, id).address != a {
        if CellAt(tbl.heap, id).address == a {
          ChainHas(h, tbl, a, id);
        }
      }
    }
  }

  lemma WalkNext(h: Key -> nat, tbl: Table, a: Key, cur: nat)
    requires TableOk(h, tbl) && Walking(h, tbl, a, cur) && cur != NULL && CellAt(tbl.heap, cur).address != a
    ensures Walking(h, tbl, a, Next(Chain(h, tbl, a), cur))
  {
    hide TableOk;
    WalkAt(h, tbl, a, Position(Chain(h, tbl, a), cur) + 1);
  }

  lemma WalkMember(h: Key -> nat, tbl: Table, a: Key, cur: nat)
    requires TableOk(h, tbl) && Walking(h, tbl, a, cur) && cur != NULL
    ensures cur in tbl.list && cur in tbl.heap
  {
    hide TableOk;
    ChainMember(h, tbl, a, Position(Chain(h, tbl, a), cur));
  }

  // ----- what every state of a run satisfies -------------------------------------------------

  predicate HoldsRead(pc: Pc) {
    pc.RLook? || pc.RGot? || pc.RList? || pc.RSweep? || pc.RUnlock?
  }

  predicate Tears(pc: Pc) {
    pc.AddLinking? || pc.DelUnlinking?
  }

  predicate HoldsWrite(pc: Pc) {
    Tears(pc) || pc.SetStore? || pc.DelUnlock? || pc.AllNext? || pc.WUnlock?
  }

  predicate ForCloud(pc: Pc) {
    pc.c.op.MarkOp? || pc.c.op.SweepOp?
  }

  ghost predicate LockOk(s: State) {
    && (forall t {:trigger s.threads[t]} | t in s.threads ::
          (Device(s.threads[t]) ==> t == DEVICE) && (ForCloud(s.threads[t]) ==> t == CLOUD))
    && (forall t {:trigger t in s.readers} :: t in s.readers <==> t in s.threads && HoldsRead(s.threads[t]))
    && (s.writer <==> DEVICE in s.threads && HoldsWrite(s.threads[DEVICE]))
    && (s.torn <==> DEVICE in s.threads && Tears(s.threads[DEVICE]))
    && (s.writer ==> s.readers == {})
  }

  /** The thread's pointers are where its program counter expects them to be. */
  ghost predicate PcOk(h: Key -> nat, tbl: Table, pc: Pc) {
    match pc
    case AddWalk(c, cur) => c.op.AddOp? && Walking(h, tbl, c.op.address, cur)
    case AddMalloc(c) => c.op.AddOp? && NoAddr(tbl, c.op.address)
    case AddWait(c, id) => ToAdd(tbl, c.op, id)
    case AddLinking(c, id) => ToAdd(tbl, c.op, id)
    case SetWait(c, id) => c.op.AddOp? && Has(tbl, c.op, id)
    case SetStore(c, id) => c.op.AddOp? && Has(tbl, c.op, id)
    case DelWalk(c, cur) => c.op.DeleteOp? && Walking(h, tbl, c.op.address, cur)
    case DelWait(c, id) => c.op.DeleteOp? && Has(tbl, c.op, id)
    case DelUnlinking(c, id) => c.op.DeleteOp? && Has(tbl, c.op, id)
    case DelUnlock(c, id, _) => id in tbl.heap && id !in tbl.list
    case DelFree(c, id, _) => id in tbl.heap && id !in tbl.list
    case AllWait(c) => c.op.DeleteAllOp?
    case AllNext(c, el, tmp) => c.op.DeleteAllOp? && el == At(tbl.list, 0) && tmp == At(tbl.list, 1)
    case WUnlock(c, _) => true
    case RWait(c) => c.op.FindOp? || c.op.MarkOp? || c.op.SweepOp? || (c.op.KeysOp? && c.op.rows > 0)
    case RLook(c, cur) => (c.op.FindOp? || c.op.MarkOp?) && Walking(h, tbl, Address(c.op), cur)
    case RGot(c, id) => (c.op.FindOp? || c.op.MarkOp?) && Has(tbl, c.op, id)
    case RList(c, el, tmp, found, k) =>
      && c.op.KeysOp? && Follows(tbl.list, el, tmp, k)
      && found == OfKind(c.op.kind, Snapshot(tbl.heap, tbl.list)[..k]) && |found| < c.op.rows
    case RSweep(c, el, tmp, _, k) => c.op.SweepOp? && Follows(tbl.list, el, tmp, k)
    case RUnlock(c, _) => true
  }

  /** The pointers are to the entry at position `k` and to the one behind it. */
  ghost predicate Follows(list: seq<nat>, el: nat, tmp: nat, k: nat) {
    k <= |list| && el == At(list, k) && tmp == At(list, k + 1)
  }

  ghost predicate ToAdd(tbl: Table, op: Op, id: nat) {
    && op.AddOp? && NoAddr(tbl, op.address)
    && id in tbl.heap && id !in tbl.list && tbl.heap[id] == Cell(op.address, op.kind, false)
  }

  ghost predicate Has(tbl: Table, op: Op, id: nat) {
    id in tbl.list && id in tbl.heap && tbl.heap[id].address == Address(op)
  }

  ghost predicate ThreadsOk(h: Key -> nat, tbl: Table, threads: map<nat, Pc>) {
    forall t {:trigger threads[t]} | t in threads :: PcOk(h, tbl, threads[t])
  }

  /** The contents after the logged calls, one after another. */
  function Replay(log: seq<Entry>): seq<Cell> {
    if log == [] then [] else Apply(Replay(log[..|log| - 1]), log[|log| - 1].op).0
  }

  /** Every logged call has answered what it answers when run alone in its place. */
  ghost predicate Legal(log: seq<Entry>) {
    forall i {:trigger log[i]} | 0 <= i < |log| :: log[i].result == Apply(Replay(log[..i]), log[i].op).1
  }

  predicate DeletingAll(threads: map<nat, Pc>) {
    DEVICE in threads && threads[DEVICE].AllNext?
  }

  /** How many entries a sweep under way has cleared already. */
  function SweptTo(threads: map<nat, Pc>): nat {
    if CLOUD in threads && threads[CLOUD].RSweep? then threads[CLOUD].k else 0
  }

  /** The table holds what the logged calls make of it, but for the marks that a sweep under
      way has cleared. */
  ghost predicate ContentsOk(tbl: Table, threads: map<nat, Pc>, log: seq<Entry>) {
    DeletingAll(threads) || Cleared(Replay(log), SweptTo(threads)) == Snapshot(tbl.heap, tbl.list)
  }

  /** A sweep under way has reported what was unmarked among the entries it has passed. */
  ghost predicate SweepOk(threads: map<nat, Pc>, log: seq<Entry>) {
    CLOUD in threads && threads[CLOUD].RSweep? ==>
      && threads[CLOUD].k <= |Replay(log)|
      && threads[CLOUD].reported == Unmarked(Replay(log)[..threads[CLOUD].k])
  }

  /** The place of the thread's call in the log, or -1. */
  function Took(pc: Pc): int {
    match pc
    case DelUnlock(_, _, at) => at
    case DelFree(_, _, at) => at
    case WUnlock(_, at) => at
    case RUnlock(_, at) => at
    case _ => -1
  }

  ghost predicate CallOk(log: seq<Entry>, nextCall: nat, c: Call, at: int) {
    && c.id < nextCall && c.from <= |log|
    && if at < 0 then forall i {:trigger log[i]} | 0 <= i < |log| :: log[i].call != c.id
       else c.from <= at < |log| && log[at].call == c.id && log[at].op == c.op
  }

  ghost predicate LoggedOnce(log: seq<Entry>, nextCall: nat) {
    && (forall i {:trigger log[i]} | 0 <= i < |log| :: log[i].call < nextCall)
    && (forall i, j | 0 <= i < j < |log| :: log[i].call != log[j].call)
  }

  ghost predicate CallsOk(log: seq<Entry>, threads: map<nat, Pc>, nextCall: nat) {
    && LoggedOnce(log, nextCall)
    && (forall t {:trigger threads[t]} | t in threads :: CallOk(log, nextCall, threads[t].c, Took(threads[t])))
    && (forall t, u {:trigger threads[t], threads[u]} | t in threads && u in threads && t != u ::
          threads[t].c.id != threads[u].c.id)
  }

  /** An answer is that of the call's entry in the log, made while the call was under way; a
      call that fails is not in the log at all. */
  ghost predicate Justified(log: seq<Entry>, r: Response) {
    if r.result == Failed then forall i {:trigger log[i]} | 0 <= i < |log| :: log[i].call != r.call
    else exists at {:trigger log[at]} :: r.from <= at < r.upto <= |log| && log[at] == Entry(r.call, r.op, r.result)
  }

  ghost predicate ResponsesOk(log: seq<Entry>, threads: map<nat, Pc>, nextCall: nat, responses: seq<Response>) {
    && (forall i {:trigger responses[i]} | 0 <= i < |responses| ::
          responses[i].call < nextCall && Justified(log, responses[i]))
    && (forall i, t {:trigger responses[i], threads[t]} | 0 <= i < |responses| && t in threads ::
          threads[t].c.id != responses[i].call)
  }

  ghost predicate Inv(h: Key -> nat, s: State) {
    && TableOk(h, s.tbl) && s.nextId > 0 && (forall id {:trigger id in s.tbl.heap} | id in s.tbl.heap :: id < s.nextId)
    && LockOk(s)
    && ThreadsOk(h, s.tbl, s.threads)
    && ContentsOk(s.tbl, s.threads, s.log) && SweepOk(s.threads, s.log)
    && Legal(s.log)
    && CallsOk(s.log, s.threads, s.nextCall)
    && ResponsesOk(s.log, s.threads, s.nextCall, s.responses)
    && !s.bad
  }

  lemma InitialInv(h: Key -> nat, buckets: nat)
    requires buckets > 0
    ensures Inv(h, Initial(buckets))
  {
  }

  // ----- one thread moves, the others stay -----------------------------------------------------

  lemma ThreadMoves(h: Key -> nat, tbl: Table, threads: map<nat, Pc>, t: nat, pc: Pc)
    requires forall u {:trigger threads[u]} | u in threads && u != t :: PcOk(h, tbl, threads[u])
    requires PcOk(h, tbl, pc)
    ensures ThreadsOk(h, tbl, threads[t := pc])
  {
    hide PcOk;
  }

  lemma CallMoves(log: seq<Entry>, threads: map<nat, Pc>, nextCall: nat, t: nat, pc: Pc)
    requires CallsOk(log, threads, nextCall) && t in threads
    requires pc.c == threads[t].c && Took(pc) == Took(threads[t])
    ensures CallsOk(log, threads[t := pc], nextCall)
  {
    hide CallOk, LoggedOnce, Took;
  }

  lemma ResponsesStay(log: seq<Entry>, threads: map<nat, Pc>, nextCall: nat, responses: seq<Response>, t: nat, pc: Pc)
    requires ResponsesOk(log, threads, nextCall, responses) && t in threads && pc.c == threads[t].c
    ensures ResponsesOk(log, threads[t := pc], nextCall, responses)
  {
    hide Justified;
  }

  predicate SameStatus(pc: Pc, pc': Pc) {
    && HoldsRead(pc) == HoldsRead(pc') && HoldsWrite(pc) == HoldsWrite(pc') && Tears(pc) == Tears(pc')
    && Device(pc) == Device(pc') && pc.AllNext? == pc'.AllNext? && !pc.RSweep? && !pc'.RSweep?
  }

  lemma SweepStays(threads: map<nat, Pc>, t: nat, pc: Pc, log: seq<Entry>)
    requires t in threads && !threads[t].RSweep? && !pc.RSweep?
    ensures SweptTo(threads[t := pc]) == SweptTo(threads) == SweptTo(threads - {t})
    ensures SweepOk(threads, log) ==> SweepOk(threads[t := pc], log) && SweepOk(threads - {t}, log)
  {
    hide Unmarked, Replay;
  }

  lemma LockMoves(s: State, t: nat, pc: Pc)
    requires LockOk(s) && t in s.threads && SameStatus(s.threads[t], pc) && pc.c == s.threads[t].c
    ensures LockOk(To(s, t, pc)) && DeletingAll(s.threads[t := pc]) == DeletingAll(s.threads)
  {
    hide HoldsRead, HoldsWrite, Tears, Device;
  }

  lemma MovesInv(h: Key -> nat, s: State, t: nat, pc: Pc)
    requires Inv(h, s) && t in s.threads && PcOk(h, s.tbl, pc) && SameStatus(s.threads[t], pc)
    requires pc.c == s.threads[t].c && Took(pc) == Took(s.threads[t])
    ensures Inv(h, To(s, t, pc))
  {
    assert !s.threads[t].RSweep? && !pc.RSweep?;
    hide TableOk, LockOk, PcOk, Legal, CallsOk, ResponsesOk, SameStatus, DeletingAll, Took, SweepOk, SweptTo, Cleared;
    SweepStays(s.threads, t, pc, s.log);
    ThreadMoves(h, s.tbl, s.threads, t, pc);
    CallMoves(s.log, s.threads, s.nextCall, t, pc);
    ResponsesStay(s.log, s.threads, s.nextCall, s.responses, t, pc);
    LockMoves(s, t, pc);
  }

  ghost predicate OthersOk(h: Key -> nat, tbl: Table, threads: map<nat, Pc>, t: nat) {
    forall u {:trigger threads[u]} | u in threads && u != t :: PcOk(h, tbl, threads[u])
  }

  ghost predicate IdsOk(s: State) {
    s.nextId > 0 && forall id {:trigger id in s.tbl.heap} | id in s.tbl.heap :: id < s.nextId
  }

  /** A step that changes the table or the locks, but does not make the call take effect. */
  lemma ChangesInv(h: Key -> nat, s: State, s': State, t: nat, pc: Pc)
    requires Inv(h, s) && t in s.threads && pc.c == s.threads[t].c && Took(pc) == Took(s.threads[t])
    requires s'.threads == s.threads[t := pc] && s'.log == s.log && s'.responses == s.responses
    requires s'.nextCall == s.nextCall && !s'.bad
    requires TableOk(h, s'.tbl) && IdsOk(s') && LockOk(s')
    requires OthersOk(h, s'.tbl, s.threads, t) && PcOk(h, s'.tbl, pc)
    requires ContentsOk(s'.tbl, s'.threads, s'.log) && SweepOk(s'.threads, s'.log)
    ensures Inv(h, s')
  {
    hide TableOk, LockOk, PcOk, Legal, CallsOk, ResponsesOk, DeletingAll, Took, SweepOk, ContentsOk;
    ThreadMoves(h, s'.tbl, s.threads, t, pc);
    CallMoves(s.log, s.threads, s.nextCall, t, pc);
    ResponsesStay(s.log, s.threads, s.nextCall, s.responses, t, pc);
  }

  lemma LegalSnoc(log: seq<Entry>, e: Entry)
    requires Legal(log) && e.result == Apply(Replay(log), e.op).1
    ensures Legal(log + [e]) && Replay(log + [e]) == Apply(Replay(log), e.op).0
  {
    hide Apply;
    var l := log + [e];
    assert l[..|l| - 1] == log;
    forall i | 0 <= i < |l| ensures l[i].result == Apply(Replay(l[..i]), l[i].op).1 {
      if i < |log| {
        assert l[..i] == log[..i] && l[i] == log[i];
      }
    }
  }

  lemma CallEffect(log: seq<Entry>, threads: map<nat, Pc>, nextCall: nat, t: nat, pc: Pc, e: Entry)
    requires CallsOk(log, threads, nextCall) && t in threads && pc.c == threads[t].c
    requires Took(threads[t]) < 0 && Took(pc) == |log| && e.call == pc.c.id && e.op == pc.c.op
    ensures CallsOk(log + [e], threads[t := pc], nextCall)
  {
    assert CallOk(log, nextCall, threads[t].c, Took(threads[t]));
    hide Took;
    forall u | u in threads && u != t ensures CallOk(log + [e], nextCall, threads[u].c, Took(threads[u])) {
      assert CallOk(log, nextCall, threads[u].c, Took(threads[u])) && threads[u].c.id != e.call;
    }
  }

  lemma JustifiedSnoc(log: seq<Entry>, r: Response, e: Entry)
    requires Justified(log, r) && e.call != r.call
    ensures Justified(log + [e], r)
  {
    if r.result != Failed {
      var at :| r.from <= at < r.upto <= |log| && log[at] == Entry(r.call, r.op, r.result);
      assert (log + [e])[at] == log[at];
    }
  }

  lemma ResponsesEffect(log: seq<Entry>, threads: map<nat, Pc>, nextCall: nat, responses: seq<Response>,
                        t: nat, pc: Pc, e: Entry)
    requires ResponsesOk(log, threads, nextCall, responses) && t in threads
    requires pc.c == threads[t].c && e.call == pc.c.id
    ensures ResponsesOk(log + [e], threads[t := pc], nextCall, responses)
  {
    hide Justified;
    forall i | 0 <= i < |responses| ensures Justified(log + [e], responses[i]) {
      assert threads[t].c.id != responses[i].call;
      JustifiedSnoc(log, responses[i], e);
    }
  }

  predicate Sweeping(threads: map<nat, Pc>) {
    CLOUD in threads && threads[CLOUD].RSweep?
  }

  /** A step with which the call takes effect. */
  lemma EffectInv(h: Key -> nat, s: State, s': State, t: nat, pc: Pc, result: Result)
    requires Inv(h, s) && t in s.threads && pc.c == s.threads[t].c && Took(s.threads[t]) < 0 && Took(pc) == |s.log|
    requires s'.threads == s.threads[t := pc] && s'.log == s.log + [Entry(pc.c.id, pc.c.op, result)]
    requires s'.responses == s.responses && s'.nextCall == s.nextCall && !s'.bad
    requires TableOk(h, s'.tbl) && IdsOk(s') && LockOk(s')
    requires OthersOk(h, s'.tbl, s.threads, t) && PcOk(h, s'.tbl, pc)
    requires var (after, answer) := Apply(Replay(s.log), pc.c.op);
             && answer == result
             && Cleared(after, SweptTo(s'.threads)) == Snapshot(s'.tbl.heap, s'.tbl.list)
             && (after == Replay(s.log) || !Sweeping(s'.threads))
    requires SweepOk(s'.threads, s.log)
    ensures Inv(h, s')
  {
    hide TableOk, LockOk, PcOk, Legal, CallsOk, ResponsesOk, DeletingAll, Took, Replay, Apply, Cleared;
    hide Unmarked, SweptTo;
    var e := Entry(pc.c.id, pc.c.op, result);
    ThreadMoves(h, s'.tbl, s.threads, t, pc);
    LegalSnoc(s.log, e);
    CallEffect(s.log, s.threads, s.nextCall, t, pc, e);
    ResponsesEffect(s.log, s.threads, s.nextCall, s.responses, t, pc, e);
  }

  lemma CallEnds(log: seq<Entry>, threads: map<nat, Pc>, nextCall: nat, t: nat)
    requires CallsOk(log, threads, nextCall)
    ensures CallsOk(log, threads - {t}, nextCall)
  {
    hide CallOk, LoggedOnce, Took;
  }

  predicate Answers(log: seq<Entry>, pc: Pc, result: Result) {
    if result == Failed then Took(pc) < 0
    else 0 <= Took(pc) < |log| && result == log[Took(pc)].result
  }

  lemma ResponseAdded(log: seq<Entry>, threads: map<nat, Pc>, nextCall: nat, responses: seq<Response>,
                      t: nat, result: Result)
    requires CallsOk(log, threads, nextCall) && ResponsesOk(log, threads, nextCall, responses)
    requires t in threads && Answers(log, threads[t], result)
    ensures var c := threads[t].c;
            ResponsesOk(log, threads - {t}, nextCall,
                        responses + [Response(c.id, c.op, result, c.from, |log|)])
  {
    var c, at := threads[t].c, Took(threads[t]);
    var r := Response(c.id, c.op, result, c.from, |log|);
    assert CallOk(log, nextCall, c, at);
    hide Took;
    assert Justified(log, r) by {
      if result != Failed {
        assert log[at] == Entry(r.call, r.op, r.result);
      }
    }
    hide Justified, CallOk;
    forall u | u in threads && u != t ensures threads[u].c.id != c.id {
      assert threads[t].c == c;
    }
  }

  /** A step that ends a call. */
  lemma AnswerInv(h: Key -> nat, s: State, s': State, t: nat, result: Result)
    requires Inv(h, s) && t in s.threads && Answers(s.log, s.threads[t], result)
    requires s'.threads == s.threads - {t} && s'.log == s.log && s'.nextCall == s.nextCall && !s'.bad
    requires var c := s.threads[t].c;
             s'.responses == s.responses + [Response(c.id, c.op, result, c.from, |s.log|)]
    requires TableOk(h, s'.tbl) && IdsOk(s') && LockOk(s')
    requires OthersOk(h, s'.tbl, s.threads, t)
    requires ContentsOk(s'.tbl, s'.threads, s'.log) && SweepOk(s'.threads, s'.log)
    ensures Inv(h, s')
  {
    hide TableOk, LockOk, PcOk, Legal, CallsOk, ResponsesOk, DeletingAll, Took, Replay, Answers, SweepOk, ContentsOk;
    CallEnds(s.log, s.threads, s.nextCall, t);
    ResponseAdded(s.log, s.threads, s.nextCall, s.responses, t, result);
  }

  // ----- what a change of the table means for the other threads -------------------------------

  /** The entries in the list and the links are the same. */
  ghost predicate Agree(tbl: Table, tbl': Table) {
    && tbl'.list == tbl.list && tbl'.chains == tbl.chains
    && forall id {:trigger id in tbl.list} | id in tbl.list ::
         id in tbl.heap && id in tbl'.heap && tbl'.heap[id] == tbl.heap[id]
  }

  lemma TableAgrees(h: Key -> nat, tbl: Table, tbl': Table)
    requires TableOk(h, tbl) && Agree(tbl, tbl') && NULL !in tbl'.heap
    ensures TableOk(h, tbl') && Snapshot(tbl'.heap, tbl'.list) == Snapshot(tbl.heap, tbl.list)
  {
    forall i | 0 <= i < |tbl.list| ensures CellAt(tbl'.heap, tbl.list[i]) == CellAt(tbl.heap, tbl.list[i]) {
      assert tbl.list[i] in tbl.list;
    }
  }

  lemma WalkAgrees(h: Key -> nat, tbl: Table, tbl': Table, a: Key, cur: nat)
    requires TableOk(h, tbl) && Agree(tbl, tbl') && Walking(h, tbl, a, cur)
    ensures Walking(h, tbl', a, cur)
  {
    var ch := Chain(h, tbl, a);
    hide TableOk;
    forall j | 0 <= j < |ch| ensures CellAt(tbl'.heap, ch[j]) == CellAt(tbl.heap, ch[j]) {
      ChainMember(h, tbl, a, j);
    }
  }

  lemma ReaderAgrees(h: Key -> nat, tbl: Table, tbl': Table, pc: Pc)
    requires TableOk(h, tbl) && Agree(tbl, tbl') && PcOk(h, tbl, pc) && !Device(pc)
    ensures PcOk(h, tbl', pc)
  {
    SnapshotAgrees(tbl, tbl');
    hide TableOk, Walking, Snapshot, OfKind;
    match pc
    case RLook(c, cur) => WalkAgrees(h, tbl, tbl', Address(c.op), cur);
    case _ =>
  }

  lemma SnapshotAgrees(tbl: Table, tbl': Table)
    requires Agree(tbl, tbl')
    ensures Snapshot(tbl'.heap, tbl'.list) == Snapshot(tbl.heap, tbl.list)
  {
    forall i | 0 <= i < |tbl.list| ensures CellAt(tbl'.heap, tbl.list[i]) == CellAt(tbl.heap, tbl.list[i]) {
      assert tbl.list[i] in tbl.list;
    }
  }

  // ----- marks ------------------------------------------------------------------------------

  /** Setting or clearing the mark of a listed entry. */
  ghost predicate Remarked(tbl: Table, tbl': Table, id: nat, flag: bool) {
    id in tbl.list && id in tbl.heap && tbl' == Stored(tbl, id, tbl.heap[id].(flag := flag))
  }

  /** The same addresses and types in the same places. */
  ghost predicate Alike(a: seq<Cell>, b: seq<Cell>) {
    |a| == |b| && forall i {:trigger a[i]} {:trigger b[i]} | 0 <= i < |a| ::
      a[i].address == b[i].address && a[i].kind == b[i].kind
  }

  lemma {:induction false} AlikeKinds(kind: nat, a: seq<Cell>, b: seq<Cell>)
    requires Alike(a, b)
    ensures OfKind(kind, a) == OfKind(kind, b)
  {
    if a != [] {
      AlikeKinds(kind, a[..|a| - 1], b[..|b| - 1]);
    }
  }

  lemma AlikeWhere(a: seq<Cell>, b: seq<Cell>, x: Key)
    requires Alike(a, b)
    ensures Where(a, x) == Where(b, x)
  {
    var i, j := Where(a, x), Where(b, x);
    assert i < |a| ==> b[i].address == x;
    assert j < |b| ==> a[j].address == x;
  }

  lemma RemarkedCells(tbl: Table, tbl': Table, id: nat, flag: bool)
    requires Remarked(tbl, tbl', id, flag)
    ensures forall x {:trigger CellAt(tbl'.heap, x)} ::
              CellAt(tbl'.heap, x) == if x == id then CellAt(tbl.heap, x).(flag := flag) else CellAt(tbl.heap, x)
    ensures Alike(Snapshot(tbl.heap, tbl.list), Snapshot(tbl'.heap, tbl'.list))
  {
  }

  lemma RemarkedTable(h: Key -> nat, tbl: Table, tbl': Table, id: nat, flag: bool)
    requires TableOk(h, tbl) && Remarked(tbl, tbl', id, flag)
    ensures TableOk(h, tbl') && tbl'.heap.Keys == tbl.heap.Keys
  {
    RemarkedCells(tbl, tbl', id, flag);
    hide CellAt, Snapshot;
  }

  lemma RemarkedWalk(h: Key -> nat, tbl: Table, tbl': Table, id: nat, flag: bool, a: Key, cur: nat)
    requires Remarked(tbl, tbl', id, flag) && Walking(h, tbl, a, cur)
    ensures Walking(h, tbl', a, cur)
  {
    RemarkedCells(tbl, tbl', id, flag);
    hide CellAt, Snapshot, Position;
  }

  lemma RemarkedAddr(tbl: Table, tbl': Table, id: nat, flag: bool, a: Key)
    requires Remarked(tbl, tbl', id, flag) && NoAddr(tbl, a)
    ensures NoAddr(tbl', a)
  {
    RemarkedCells(tbl, tbl', id, flag);
    hide CellAt, Snapshot;
  }

  /** A mark means nothing to the place of any thread. */
  lemma RemarkedPc(h: Key -> nat, tbl: Table, tbl': Table, id: nat, flag: bool, pc: Pc)
    requires Remarked(tbl, tbl', id, flag) && PcOk(h, tbl, pc)
    ensures PcOk(h, tbl', pc)
  {
    hide Snapshot, OfKind, Walking, NoAddr;
    match pc
    case AddWalk(c, cur) => RemarkedWalk(h, tbl, tbl', id, flag, c.op.address, cur);
    case DelWalk(c, cur) => RemarkedWalk(h, tbl, tbl', id, flag, c.op.address, cur);
    case RLook(c, cur) => RemarkedWalk(h, tbl, tbl', id, flag, Address(c.op), cur);
    case AddMalloc(c) => RemarkedAddr(tbl, tbl', id, flag, c.op.address);
    case AddWait(c, _) => RemarkedAddr(tbl, tbl', id, flag, c.op.address);
    case AddLinking(c, _) => RemarkedAddr(tbl, tbl', id, flag, c.op.address);
    case RList(c, _, _, _, k) =>
      RemarkedCells(tbl, tbl', id, flag);
      var a, b := Snapshot(tbl.heap, tbl.list), Snapshot(tbl'.heap, tbl'.list);
      AlikeKinds(c.op.kind, a[..k], b[..k]);
    case _ =>
  }

  lemma OthersRemarked(h: Key -> nat, s: State, tbl': Table, t: nat, id: nat, flag: bool)
    requires Inv(h, s) && Remarked(s.tbl, tbl', id, flag)
    ensures OthersOk(h, tbl', s.threads, t)
  {
    hide TableOk, PcOk, CallsOk, ResponsesOk, Legal, ContentsOk, LockOk, SweepOk, Remarked;
    forall u | u in s.threads && u != t ensures PcOk(h, tbl', s.threads[u]) {
      RemarkedPc(h, s.tbl, tbl', id, flag, s.threads[u]);
    }
  }

  /** The entry at position `k` with its mark changed. */
  lemma RemarkedAt(tbl: Table, tbl': Table, k: nat, flag: bool)
    requires Distinct(tbl.list) && k < |tbl.list| && Remarked(tbl, tbl', tbl.list[k], flag)
    ensures var items := Snapshot(tbl.heap, tbl.list);
            Snapshot(tbl'.heap, tbl'.list) == items[k := items[k].(flag := flag)]
  {
    RemarkedCells(tbl, tbl', tbl.list[k], flag);
    hide CellAt;
  }

  lemma OthersAgree(h: Key -> nat, s: State, tbl': Table, t: nat)
    requires Inv(h, s) && t == DEVICE && Agree(s.tbl, tbl')
    ensures OthersOk(h, tbl', s.threads, t)
  {
    hide TableOk, PcOk, CallsOk, ResponsesOk, Legal, Agree, ContentsOk, SweepOk;
    forall u | u in s.threads && u != t ensures PcOk(h, tbl', s.threads[u]) {
      ReaderAgrees(h, s.tbl, tbl', s.threads[u]);
    }
  }

  /** While the write lock is held the others only wait. */
  lemma OthersWait(h: Key -> nat, s: State, tbl': Table, t: nat)
    requires Inv(h, s) && t == DEVICE && s.writer
    ensures OthersOk(h, tbl', s.threads, t)
  {
    hide TableOk, CallsOk, ResponsesOk, Legal, ContentsOk, SweepOk;
    forall u | u in s.threads && u != t ensures PcOk(h, tbl', s.threads[u]) {
      assert u !in s.readers && s.threads[u].RWait?;
      assert PcOk(h, s.tbl, s.threads[u]);
    }
  }

  lemma OthersSame(h: Key -> nat, s: State, t: nat)
    requires Inv(h, s)
    ensures OthersOk(h, s.tbl, s.threads, t)
  {
    hide TableOk, CallsOk, ResponsesOk, Legal, ContentsOk, LockOk, PcOk, SweepOk;
  }

  // ----- the effects, one by one --------------------------------------------------------------

  lemma WhereIs(heap: map<nat, Cell>, list: seq<nat>, id: nat)
    requires id in list && UniqueAddresses(heap, list)
    ensures Where(Snapshot(heap, list), CellAt(heap, id).address) == Position(list, id) < |list|
  {
    var items, a := Snapshot(heap, list), CellAt(heap, id).address;
    var k, w := Position(list, id), Where(items, a);
    assert items[k].address == a;
    assert items[w].address == CellAt(heap, list[w]).address;
  }

  lemma WhereNot(tbl: Table, a: Key)
    requires NoAddr(tbl, a)
    ensures Where(Snapshot(tbl.heap, tbl.list), a) == |tbl.list|
  {
    var items := Snapshot(tbl.heap, tbl.list);
    forall i | 0 <= i < |items| ensures items[i].address != a {
      assert tbl.list[i] in tbl.list;
    }
  }

  lemma AppendEffect(h: Key -> nat, tbl: Table, op: Op, id: nat, chains: seq<seq<nat>>)
    requires TableOk(h, tbl) && ToAdd(tbl, op, id) && ChainsOk(h, tbl.heap, tbl.list + [id], chains)
    ensures TableOk(h, tbl.(list := tbl.list + [id], chains := chains))
    ensures Apply(Snapshot(tbl.heap, tbl.list), op) == (Snapshot(tbl.heap, tbl.list + [id]), Code(0))
  {
    hide ChainsOk;
    WhereNot(tbl, op.address);
    forall i | 0 <= i < |tbl.list| ensures CellAt(tbl.heap, tbl.list[i]).address != op.address && tbl.list[i] != id {
      assert tbl.list[i] in tbl.list;
    }
    assert Snapshot(tbl.heap, tbl.list + [id]) == Snapshot(tbl.heap, tbl.list) + [Cell(op.address, op.kind, false)];
  }

  lemma StoreEffect(h: Key -> nat, tbl: Table, op: Op, id: nat)
    requires TableOk(h, tbl) && op.AddOp? && Has(tbl, op, id)
    ensures var heap := tbl.heap[id := tbl.heap[id].(kind := op.kind)];
            && TableOk(h, tbl.(heap := heap))
            && Apply(Snapshot(tbl.heap, tbl.list), op) == (Snapshot(heap, tbl.list), Code(0))
  {
    var heap := tbl.heap[id := tbl.heap[id].(kind := op.kind)];
    WhereIs(tbl.heap, tbl.list, id);
    var k, items := Position(tbl.list, id), Snapshot(tbl.heap, tbl.list);
    assert forall i | 0 <= i < |tbl.list| :: CellAt(heap, tbl.list[i]).address == CellAt(tbl.heap, tbl.list[i]).address;
    forall i | 0 <= i < |tbl.list|
      ensures Snapshot(heap, tbl.list)[i] == items[k := items[k].(kind := op.kind)][i]
    {
      assert i != k ==> tbl.list[i] != id;
    }
    assert Snapshot(heap, tbl.list) == items[k := items[k].(kind := op.kind)];
  }

  lemma WithoutAt(s: seq<nat>, id: nat)
    requires id in s
    ensures var t, k := Without(s, id), Position(s, id);
            && |t| == |s| - 1 && k < |s| && s[k] == id
            && (forall i {:trigger t[i]} | 0 <= i < |t| :: t[i] == if i < k then s[i] else s[i + 1])
  {
  }

  lemma WithoutFacts(s: seq<nat>, id: nat)
    requires Distinct(s) && id in s
    ensures var t := Without(s, id);
            Distinct(t) && id !in t && (forall x :: x in t <==> x in s && x != id)
  {
    hide Without, Position;
    var t, k := Without(s, id), Position(s, id);
    WithoutAt(s, id);
    forall x | x in s && x != id ensures x in t {
      var i := Position(s, x);
      assert t[if i < k then i else i - 1] == x;
    }
  }

  lemma RemoveContents(tbl: Table, heap: map<nat, Cell>, id: nat)
    requires Distinct(tbl.list) && id in tbl.list && (heap == tbl.heap || heap == tbl.heap - {id})
    ensures var k, items, l := Position(tbl.list, id), Snapshot(tbl.heap, tbl.list), Without(tbl.list, id);
            k < |items| && Snapshot(heap, l) == items[..k] + items[k + 1..]
  {
    hide Without, CellAt, Distinct;
    WithoutFacts(tbl.list, id);
    WithoutAt(tbl.list, id);
    var l, k, items := Without(tbl.list, id), Position(tbl.list, id), Snapshot(tbl.heap, tbl.list);
    forall i | 0 <= i < |l| ensures Snapshot(heap, l)[i] == (items[..k] + items[k + 1..])[i] {
      assert l[i] in l;
      SameCell(tbl.heap, heap, id, l[i]);
    }
  }

  lemma RemoveUnique(heap: map<nat, Cell>, list: seq<nat>, heap': map<nat, Cell>, id: nat)
    requires Distinct(list) && id in list && (heap' == heap || heap' == heap - {id})
    requires UniqueAddresses(heap, list)
    ensures UniqueAddresses(heap', Without(list, id))
  {
    hide Without, CellAt, Distinct;
    WithoutFacts(list, id);
    WithoutAt(list, id);
    var l, k := Without(list, id), Position(list, id);
    forall i, j | 0 <= i < j < |l| ensures CellAt(heap', l[i]).address != CellAt(heap', l[j]).address {
      assert l[i] in l && l[j] in l;
      SameCell(heap, heap', id, l[i]);
      SameCell(heap, heap', id, l[j]);
      assert l[i] == list[if i < k then i else i + 1] && l[j] == list[if j < k then j else j + 1];
    }
  }

  lemma SameCell(heap: map<nat, Cell>, heap': map<nat, Cell>, id: nat, x: nat)
    requires x != id && (heap' == heap || heap' == heap - {id})
    ensures CellAt(heap', x) == CellAt(heap, x)
  {
  }

  lemma RemoveTable(h: Key -> nat, tbl: Table, heap: map<nat, Cell>, id: nat, chains: seq<seq<nat>>)
    requires TableOk(h, tbl) && id in tbl.list && (heap == tbl.heap || heap == tbl.heap - {id})
    requires ChainsOk(h, heap, Without(tbl.list, id), chains)
    ensures TableOk(h, Table(heap, Without(tbl.list, id), chains))
  {
    hide ChainsOk, Without, UniqueAddresses;
    WithoutFacts(tbl.list, id);
    RemoveUnique(tbl.heap, tbl.list, heap, id);
  }

  lemma RemoveEffect(h: Key -> nat, tbl: Table, op: Op, id: nat, chains: seq<seq<nat>>)
    requires TableOk(h, tbl) && op.DeleteOp? && Has(tbl, op, id)
    requires ChainsOk(h, tbl.heap, Without(tbl.list, id), chains)
    ensures TableOk(h, Table(tbl.heap, Without(tbl.list, id), chains)) && id !in Without(tbl.list, id)
    ensures Apply(Snapshot(tbl.heap, tbl.list), op) == (Snapshot(tbl.heap, Without(tbl.list, id)), Code(0))
  {
    RemoveTable(h, tbl, tbl.heap, id, chains);
    hide ChainsOk, Without;
    RemoveContents(tbl, tbl.heap, id);
    WithoutFacts(tbl.list, id);
    WhereIs(tbl.heap, tbl.list, id);
  }
}
