/** Every step of every thread keeps the invariant of the shared sub-device table, so every
    run, however the threads are interleaved, is safe and linearizable. */
module SubdevRuns {
  import opened SubdevSystem
  import opened SubdevSafety

  // ----- what a thread in a given place may rely on ----------------------------------------

  lemma ThreadFacts(h: Key -> nat, s: State, t: nat)
    requires Inv(h, s) && t in s.threads
    ensures PcOk(h, s.tbl, s.threads[t])
    ensures Device(s.threads[t]) ==>
              t == DEVICE && s.writer == HoldsWrite(s.threads[t]) && s.torn == Tears(s.threads[t])
    ensures HoldsRead(s.threads[t]) ==> t in s.readers && !s.writer && !s.torn
    ensures IdsOk(s) && TableOk(h, s.tbl)
    ensures var pc := s.threads[t]; CallOk(s.log, s.nextCall, pc.c, Took(pc))
    ensures Legal(s.log) && LockOk(s) && !s.bad
    ensures ContentsOk(s.tbl, s.threads, s.log) && SweepOk(s.threads, s.log)
  {
    hide TableOk, PcOk, Legal, ResponsesOk, CallOk, ContentsOk, SweepOk;
  }

  /** Nobody sweeps while the write lock is held. */
  lemma NotSweeping(s: State, t: nat)
    requires LockOk(s) && t in s.threads && HoldsWrite(s.threads[t])
    ensures t == DEVICE && s.writer && !Sweeping(s.threads)
  {
    assert Sweeping(s.threads) ==> CLOUD in s.readers;
  }

  lemma NoneCleared(items: seq<Cell>)
    ensures Cleared(items, 0) == items
  {
  }

  /** The log and the table agree in addresses and types, whatever marks are being swept. */
  lemma ContentsAlike(s: State)
    requires ContentsOk(s.tbl, s.threads, s.log) && !DeletingAll(s.threads)
    ensures Alike(Replay(s.log), Snapshot(s.tbl.heap, s.tbl.list))
  {
    hide Replay, Snapshot;
    var c := Cleared(Replay(s.log), SweptTo(s.threads));
  }

  /** A step of a thread that does not sweep, and that leaves contents and log alone. */
  lemma ContentsStay(s: State, s': State, t: nat, pc: Pc)
    requires ContentsOk(s.tbl, s.threads, s.log) && SweepOk(s.threads, s.log)
    requires t in s.threads && !s.threads[t].RSweep? && !pc.RSweep?
    requires DeletingAll(s.threads) ==> DeletingAll(s'.threads)
    requires s'.threads == s.threads[t := pc] && s'.log == s.log
    requires Snapshot(s'.tbl.heap, s'.tbl.list) == Snapshot(s.tbl.heap, s.tbl.list)
    ensures ContentsOk(s'.tbl, s'.threads, s'.log) && SweepOk(s'.threads, s'.log)
  {
    hide SweptTo, SweepOk, Replay, Snapshot, Cleared, DeletingAll;
    SweepStays(s.threads, t, pc, s.log);
  }

  lemma ContentsLeft(s: State, s': State, t: nat)
    requires ContentsOk(s.tbl, s.threads, s.log) && SweepOk(s.threads, s.log)
    requires t in s.threads && !s.threads[t].RSweep? && !s.threads[t].AllNext?
    requires s'.threads == s.threads - {t} && s'.log == s.log
    requires Snapshot(s'.tbl.heap, s'.tbl.list) == Snapshot(s.tbl.heap, s.tbl.list)
    ensures ContentsOk(s'.tbl, s'.threads, s'.log) && SweepOk(s'.threads, s'.log)
  {
    hide SweptTo, SweepOk, Replay, Snapshot, Cleared;
    SweepStays(s.threads, t, s.threads[t], s.log);
  }

  lemma NotDeletingAll(h: Key -> nat, s: State, t: nat)
    requires Inv(h, s) && t in s.threads
    requires HoldsRead(s.threads[t]) || (Device(s.threads[t]) && !s.threads[t].AllNext?)
    ensures !DeletingAll(s.threads)
  {
    ThreadFacts(h, s, t);
    hide TableOk, PcOk, Legal, ResponsesOk, CallsOk, ContentsOk, SweepOk;
  }

  lemma TableFacts(h: Key -> nat, tbl: Table)
    requires TableOk(h, tbl)
    ensures NULL !in tbl.heap && Distinct(tbl.list)
    ensures forall id | id in tbl.list :: id in tbl.heap && id != NULL
    ensures forall i | 0 <= i < |tbl.list| :: tbl.list[i] in tbl.heap && tbl.list[i] != NULL
  {
    assert forall i | 0 <= i < |tbl.list| :: tbl.list[i] in tbl.list;
  }

  // ----- looking up ------------------------------------------------------------------------

  lemma WalkInv(h: Key -> nat, s: State, t: nat, ok: bool, chains: seq<seq<nat>>)
    requires Inv(h, s) && t in s.threads
    requires s.threads[t].AddWalk? || (s.threads[t].DelWalk? && s.threads[t].cur != NULL)
    ensures Inv(h, DeviceStep(h, s, t, ok, chains))
  {
    hide Inv, Walking, TableOk, Chain, Next, LockOk, CallOk, Legal, Snapshot, ContentsOk, SweepOk, OfKind;
    ThreadFacts(h, s, t);
    var pc, tbl := s.threads[t], s.tbl;
    var a, cur := Address(pc.c.op), pc.cur;
    if cur == NULL {
      assert NoAddr(tbl, a) by { WalkEnd(h, tbl, a); }
      MovesInv(h, s, t, AddMalloc(pc.c));
    } else {
      WalkMember(h, tbl, a, cur);
      if tbl.heap[cur].address == a {
        MovesInv(h, s, t, if pc.AddWalk? then SetWait(pc.c, cur) else DelWait(pc.c, cur));
      } else {
        WalkNext(h, tbl, a, cur);
        var n := Next(Chain(h, tbl, a), cur);
        MovesInv(h, s, t, if pc.AddWalk? then AddWalk(pc.c, n) else DelWalk(pc.c, n));
      }
    }
  }

  lemma WalkEnd(h: Key -> nat, tbl: Table, a: Key)
    requires Walking(h, tbl, a, NULL)
    ensures NoAddr(tbl, a)
  {
  }

  lemma LookInv(h: Key -> nat, s: State, t: nat, ok: bool)
    requires Inv(h, s) && t in s.threads && s.threads[t].RLook? && s.threads[t].cur != NULL
    ensures Inv(h, ReaderStep(h, s, t, ok))
  {
    hide Inv, Walking, TableOk, Chain, Next, LockOk, CallOk, Legal, Snapshot, ContentsOk, SweepOk, OfKind;
    ThreadFacts(h, s, t);
    var pc, tbl := s.threads[t], s.tbl;
    var a, cur := Address(pc.c.op), pc.cur;
    WalkMember(h, tbl, a, cur);
    if tbl.heap[cur].address == a {
      MovesInv(h, s, t, RGot(pc.c, cur));
    } else {
      WalkNext(h, tbl, a, cur);
      MovesInv(h, s, t, RLook(pc.c, Next(Chain(h, tbl, a), cur)));
    }
  }

  // ----- answers -----------------------------------------------------------------------------

  /** A call that fails before it holds a lock. */
  lemma FailInv(h: Key -> nat, s: State, t: nat)
    requires Inv(h, s) && t in s.threads && !HoldsWrite(s.threads[t]) && !HoldsRead(s.threads[t])
    requires Took(s.threads[t]) < 0
    ensures Inv(h, Answer(s, t, s.threads[t].c, Failed))
  {
    hide LockOk, TableOk, PcOk, CallOk, Legal, CallsOk, ResponsesOk, Snapshot, ContentsOk, SweepOk;
    var s' := Answer(s, t, s.threads[t].c, Failed);
    ThreadFacts(h, s, t);
    OthersSame(h, s, t);
    LockLeaves(h, s, s', t);
    ContentsLeft(s, s', t);
    AnswerInv(h, s, s', t, Failed);
  }

  lemma LockLeaves(h: Key -> nat, s: State, s': State, t: nat)
    requires Inv(h, s) && t in s.threads && !HoldsWrite(s.threads[t]) && !HoldsRead(s.threads[t])
    requires s'.threads == s.threads - {t} && s'.writer == s.writer && s'.torn == s.torn && s'.readers == s.readers
    ensures LockOk(s')
  {
    hide TableOk, PcOk, CallsOk, ResponsesOk, ContentsOk, SweepOk, Legal, HoldsRead, Device, ForCloud;
  }

  /** A call that gives its lock back and answers what the log says. */
  lemma UnlockInv(h: Key -> nat, s: State, t: nat)
    requires Inv(h, s) && t in s.threads && (s.threads[t].WUnlock? || s.threads[t].RUnlock?)
    ensures var pc := s.threads[t];
            Inv(h, Answer(if pc.WUnlock? then s.(writer := false) else s.(readers := s.readers - {t}),
                          t, pc.c, ResultAt(s, pc.at)))
  {
    hide LockOk, TableOk, PcOk, Legal, CallsOk, ResponsesOk, Snapshot, ContentsOk, SweepOk, DeletingAll;
    var pc := s.threads[t];
    var s' := Answer(if pc.WUnlock? then s.(writer := false) else s.(readers := s.readers - {t}),
                     t, pc.c, ResultAt(s, pc.at));
    ThreadFacts(h, s, t);
    OthersSame(h, s, t);
    NeverFailed(s.log, pc.at);
    NotDeletingAll(h, s, t);
    LockReturned(h, s, s', t);
    ContentsLeft(s, s', t);
    AnswerInv(h, s, s', t, ResultAt(s, pc.at));
  }

  lemma LockReturned(h: Key -> nat, s: State, s': State, t: nat)
    requires Inv(h, s) && t in s.threads && (s.threads[t].WUnlock? || s.threads[t].RUnlock?)
    requires s'.threads == s.threads - {t} && s'.torn == s.torn
    requires s'.writer == (s.writer && !s.threads[t].WUnlock?)
    requires s'.readers == if s.threads[t].WUnlock? then s.readers else s.readers - {t}
    ensures LockOk(s') && DeletingAll(s'.threads) == DeletingAll(s.threads)
  {
    assert LockOk(s);
    hide Inv;
    if s.threads[t].WUnlock? {
      WriteReturned(s, s', t);
    } else {
      ReadReturned(s, s', t);
    }
  }

  lemma WriteReturned(s: State, s': State, t: nat)
    requires LockOk(s) && t in s.threads && s.threads[t].WUnlock?
    requires s'.threads == s.threads - {t} && s'.torn == s.torn && !s'.writer && s'.readers == s.readers
    ensures LockOk(s') && DeletingAll(s'.threads) == DeletingAll(s.threads)
  {
    assert t == DEVICE && !HoldsRead(s.threads[t]);
    hide HoldsRead, HoldsWrite, Device, ForCloud;
  }

  lemma ReadReturned(s: State, s': State, t: nat)
    requires LockOk(s) && t in s.threads && s.threads[t].RUnlock?
    requires s'.threads == s.threads - {t} && s'.torn == s.torn && s'.writer == s.writer
    requires s'.readers == s.readers - {t}
    ensures LockOk(s') && DeletingAll(s'.threads) == DeletingAll(s.threads)
  {
    assert t in s.readers && !s.writer && !HoldsWrite(s.threads[t]) && !Tears(s.threads[t]);
    hide HoldsRead, HoldsWrite, Device, Tears, ForCloud;
  }

  lemma NeverFailed(log: seq<Entry>, at: nat)
    requires Legal(log) && at < |log|
    ensures log[at].result != Failed
  {
  }

  // ----- the device thread -------------------------------------------------------------------

  lemma MallocInv(h: Key -> nat, s: State, t: nat, ok: bool, chains: seq<seq<nat>>)
    requires Inv(h, s) && t in s.threads && s.threads[t].AddMalloc?
    ensures Inv(h, DeviceStep(h, s, t, ok, chains))
  {
    hide TableOk, LockOk, CallOk, Legal, CallsOk, ResponsesOk, ContentsOk, SweepOk, Snapshot, Walking, OfKind;
    var pc := s.threads[t];
    ThreadFacts(h, s, t);
    if ok {
      var heap := s.tbl.heap[s.nextId := Cell(pc.c.op.address, pc.c.op.kind, false)];
      var tbl := s.tbl.(heap := heap);
      var pc' := AddWait(pc.c, s.nextId);
      FreshAgrees(h, s.tbl, s.nextId, heap[s.nextId]);
      TableFacts(h, s.tbl);
      TableAgrees(h, s.tbl, tbl);
      OthersAgree(h, s, tbl, t);
      LockMoves(s, t, pc');
      var s' := DeviceStep(h, s, t, ok, chains);
      assert LockOk(s') by { LockSame(To(s, t, pc'), s'); }
      hide Agree;
      ContentsStay(s, s', t, pc');
      ChangesInv(h, s, s', t, pc');
    } else {
      FailInv(h, s, t);
    }
  }

  lemma LockSame(s: State, s': State)
    requires LockOk(s) && s'.threads == s.threads
    requires s'.writer == s.writer && s'.torn == s.torn && s'.readers == s.readers
    ensures LockOk(s')
  {
  }

  lemma FreshAgrees(h: Key -> nat, tbl: Table, id: nat, cell: Cell)
    requires TableOk(h, tbl) && id !in tbl.heap
    ensures var tbl' := tbl.(heap := tbl.heap[id := cell]);
            Agree(tbl, tbl') && id !in tbl.list
            && forall a | NoAddr(tbl, a) :: NoAddr(tbl', a)
  {
  }

  /** Taking the write lock. */
  lemma AcquireInv(h: Key -> nat, s: State, t: nat, ok: bool, chains: seq<seq<nat>>)
    requires Inv(h, s) && t in s.threads
    requires s.threads[t].AddWait? || s.threads[t].SetWait? || s.threads[t].DelWait? || s.threads[t].AllWait?
    ensures Inv(h, DeviceStep(h, s, t, ok, chains))
  {
    hide TableOk, CallOk, Legal, CallsOk, ResponsesOk, ContentsOk, SweepOk, Snapshot, OfKind, LockOk, At, Next;
    ThreadFacts(h, s, t);
    var pc := s.threads[t];
    if !ok {
      FailInv(h, s, t);
    } else if Free(s) {
      var first := At(s.tbl.list, 0);
      var pc' :=
        match pc
        case AddWait(c, id) => AddLinking(c, id)
        case SetWait(c, id) => SetStore(c, id)
        case DelWait(c, id) => DelUnlinking(c, id)
        case _ => AllNext(pc.c, first, Next(s.tbl.list, first));
      var s' := DeviceStep(h, s, t, ok, chains);
      assert s'.threads == s.threads[t := pc'];
      assert LockOk(s') by { LockTaken(h, s, s', t, pc'); }
      TableFacts(h, s.tbl);
      FirstTwo(s.tbl.list);
      NotDeletingAll(h, s, t);
      OthersSame(h, s, t);
      ContentsStay(s, s', t, pc');
      ChangesInv(h, s, s', t, pc');
    }
  }

  lemma LockTaken(h: Key -> nat, s: State, s': State, t: nat, pc: Pc)
    requires Inv(h, s) && t == DEVICE && t in s.threads && Free(s) && Device(pc) && HoldsWrite(pc)
    requires pc.c == s.threads[t].c
    requires s'.threads == s.threads[t := pc] && s'.writer && s'.torn == Tears(pc) && s'.readers == s.readers
    ensures LockOk(s')
  {
    hide TableOk, PcOk, CallsOk, ResponsesOk, ContentsOk, SweepOk, Legal;
    assert t !in s.readers;
  }

  /** The link of the entry at position `k`. */
  lemma NextIsSecond(list: seq<nat>, k: nat)
    requires k < |list| && Distinct(list)
    ensures Next(list, list[k]) == At(list, k + 1)
  {
    assert list[k] in list && list[Position(list, list[k])] == list[k];
  }

  lemma FirstTwo(list: seq<nat>)
    requires Distinct(list) && (forall id | id in list :: id != NULL)
    ensures Next(list, At(list, 0)) == At(list, 1)
  {
    if list != [] {
      NextIsSecond(list, 0);
    } else {
      assert Position(list, NULL) == 0;
    }
  }

  /** A step with which a call of the device thread takes effect under the write lock. */
  lemma DeviceEffectInv(h: Key -> nat, s: State, s': State, t: nat, pc: Pc, result: Result)
    requires Inv(h, s) && t in s.threads && pc.c == s.threads[t].c && Took(s.threads[t]) < 0 && Took(pc) == |s.log|
    requires HoldsWrite(s.threads[t]) && !pc.RSweep?
    requires s'.threads == s.threads[t := pc] && s'.log == s.log + [Entry(pc.c.id, pc.c.op, result)]
    requires s'.responses == s.responses && s'.nextCall == s.nextCall && !s'.bad
    requires TableOk(h, s'.tbl) && IdsOk(s') && LockOk(s') && PcOk(h, s'.tbl, pc)
    requires Apply(if s.threads[t].AllNext? then Replay(s.log) else Snapshot(s.tbl.heap, s.tbl.list), pc.c.op)
          == (Snapshot(s'.tbl.heap, s'.tbl.list), result)
    ensures Inv(h, s')
  {
    hide Inv, TableOk, LockOk, PcOk, IdsOk, Apply, Replay, Snapshot, Cleared, Legal, CallOk, OthersOk;
    ThreadFacts(h, s, t);
    NotSweeping(s, t);
    SweepBeside(s.threads, t, pc);
    if !s.threads[t].AllNext? {
      NotDeletingAll(h, s, t);
    }
    NoneCleared(Replay(s.log));
    NoneCleared(Snapshot(s'.tbl.heap, s'.tbl.list));
    OthersWait(h, s, s'.tbl, t);
    EffectInv(h, s, s', t, pc, result);
  }

  lemma SweepBeside(threads: map<nat, Pc>, t: nat, pc: Pc)
    requires t in threads && !Sweeping(threads) && !pc.RSweep?
    ensures SweptTo(threads) == 0 && SweptTo(threads[t := pc]) == 0 && !Sweeping(threads[t := pc])
  {
  }

  /** Linking a new entry in. */
  lemma LinkInv(h: Key -> nat, s: State, t: nat, ok: bool, chains: seq<seq<nat>>)
    requires Inv(h, s) && t in s.threads && s.threads[t].AddLinking?
    ensures Inv(h, DeviceStep(h, s, t, ok, chains))
  {
    hide TableOk, CallOk, Legal, CallsOk, ResponsesOk, ContentsOk, SweepOk, Snapshot, LockOk, ChainsOk;
    hide Apply, NoAddr, OfKind;
    ThreadFacts(h, s, t);
    var pc, tbl := s.threads[t], s.tbl;
    if ChainsOk(h, tbl.heap, tbl.list + [pc.id], chains) {
      var pc' := WUnlock(pc.c, |s.log|);
      var s' := DeviceStep(h, s, t, ok, chains);
      AppendEffect(h, tbl, pc.c.op, pc.id, chains);
      NotSweeping(s, t);
      LockKept(s, s', t, pc');
      DeviceEffectInv(h, s, s', t, pc', Code(0));
    }
  }

  /** The device thread keeps the write lock. */
  lemma LockKept(s: State, s': State, t: nat, pc: Pc)
    requires LockOk(s) && t == DEVICE && t in s.threads && s.writer && Device(pc) && HoldsWrite(pc)
    requires pc.c == s.threads[t].c
    requires s'.threads == s.threads[t := pc] && s'.writer && s'.torn == Tears(pc) && s'.readers == s.readers
    ensures LockOk(s')
  {
  }

  /** Storing a new device type in an entry. */
  lemma StoreInv(h: Key -> nat, s: State, t: nat, ok: bool, chains: seq<seq<nat>>)
    requires Inv(h, s) && t in s.threads && s.threads[t].SetStore?
    ensures Inv(h, DeviceStep(h, s, t, ok, chains))
  {
    hide TableOk, CallOk, Legal, CallsOk, ResponsesOk, ContentsOk, SweepOk, Snapshot, LockOk, ChainsOk;
    hide Apply, NoAddr, OfKind;
    ThreadFacts(h, s, t);
    var pc, tbl := s.threads[t], s.tbl;
    var pc' := WUnlock(pc.c, |s.log|);
    var s' := DeviceStep(h, s, t, ok, chains);
    StoreEffect(h, tbl, pc.c.op, pc.id);
    NotSweeping(s, t);
    LockKept(s, s', t, pc');
    DeviceEffectInv(h, s, s', t, pc', Code(0));
  }

  /** A delete that finds nothing. */
  lemma MissInv(h: Key -> nat, s: State, t: nat, ok: bool, chains: seq<seq<nat>>)
    requires Inv(h, s) && t in s.threads && s.threads[t].DelWalk? && s.threads[t].cur == NULL
    ensures Inv(h, DeviceStep(h, s, t, ok, chains))
  {
    hide TableOk, CallOk, Legal, CallsOk, ResponsesOk, ContentsOk, SweepOk, Replay, Snapshot, LockOk, Apply, NoAddr;
    hide Justified, OfKind, DeletingAll, Alike;
    ThreadFacts(h, s, t);
    var pc, tbl := s.threads[t], s.tbl;
    var s', e, at := DeviceStep(h, s, t, ok, chains), Entry(pc.c.id, pc.c.op, Code(-1)), RUnlock(pc.c, |s.log|);
    var threads := s.threads[t := at];
    WalkEnd(h, tbl, pc.c.op.address);
    NotDeletingAll(h, s, t);
    ContentsAlike(s);
    MissEffect(tbl, Replay(s.log), pc.c.op);
    OthersSame(h, s, t);
    LockLeaves(h, s, s', t);
    LegalSnoc(s.log, e);
    CallEffect(s.log, s.threads, s.nextCall, t, at, e);
    CallEnds(s'.log, threads, s.nextCall, t);
    assert threads - {t} == s'.threads;
    MissAnswer(s, s', t);
    ThreadEnds(h, s'.tbl, s.threads, t);
    SameReplay(s, s', t);
  }

  /** A call that takes effect without changing the contents, and leaves. */
  lemma SameReplay(s: State, s': State, t: nat)
    requires ContentsOk(s.tbl, s.threads, s.log) && SweepOk(s.threads, s.log) && !DeletingAll(s.threads)
    requires t in s.threads && !s.threads[t].RSweep? && s'.threads == s.threads - {t} && s'.tbl == s.tbl
    requires Replay(s'.log) == Replay(s.log)
    ensures ContentsOk(s'.tbl, s'.threads, s'.log) && SweepOk(s'.threads, s'.log)
  {
    hide Replay, Snapshot, Cleared;
    SweepStays(s.threads, t, s.threads[t], s.log);
  }

  lemma ThreadEnds(h: Key -> nat, tbl: Table, threads: map<nat, Pc>, t: nat)
    requires OthersOk(h, tbl, threads, t)
    ensures ThreadsOk(h, tbl, threads - {t})
  {
    hide PcOk;
  }

  lemma MissEffect(tbl: Table, items: seq<Cell>, op: Op)
    requires op.DeleteOp? && NoAddr(tbl, op.address) && Alike(items, Snapshot(tbl.heap, tbl.list))
    ensures Apply(items, op) == (items, Code(-1))
  {
    WhereNot(tbl, op.address);
    AlikeWhere(items, Snapshot(tbl.heap, tbl.list), op.address);
  }

  lemma MissAnswer(s: State, s': State, t: nat)
    requires t in s.threads && s.threads[t].DelWalk?
    requires var c := s.threads[t].c;
             && CallsOk(s.log, s.threads, s.nextCall)
             && ResponsesOk(s.log, s.threads, s.nextCall, s.responses)
             && s' == Answer(Effect(s, c, Code(-1)), t, c, Code(-1))
    ensures ResponsesOk(s'.log, s'.threads, s'.nextCall, s'.responses)
  {
    var c, at := s.threads[t].c, RUnlock(s.threads[t].c, |s.log|);
    var e, threads := Entry(c.id, c.op, Code(-1)), s.threads[t := at];
    hide Justified;
    CallEffect(s.log, s.threads, s.nextCall, t, at, e);
    ResponsesEffect(s.log, s.threads, s.nextCall, s.responses, t, at, e);
    hide CallsOk, ResponsesOk;
    ResponseAdded(s'.log, threads, s.nextCall, s.responses, t, Code(-1));
    assert threads - {t} == s'.threads && s.log + [e] == s'.log;
  }

  /** Unlinking an entry. */
  lemma UnlinkInv(h: Key -> nat, s: State, t: nat, ok: bool, chains: seq<seq<nat>>)
    requires Inv(h, s) && t in s.threads && s.threads[t].DelUnlinking?
    ensures Inv(h, DeviceStep(h, s, t, ok, chains))
  {
    hide TableOk, CallOk, Legal, CallsOk, ResponsesOk, ContentsOk, SweepOk, Snapshot, LockOk, ChainsOk, Apply, NoAddr;
    hide Without, OfKind;
    ThreadFacts(h, s, t);
    var pc, tbl := s.threads[t], s.tbl;
    if ChainsOk(h, tbl.heap, Without(tbl.list, pc.id), chains) {
      var pc' := DelUnlock(pc.c, pc.id, |s.log|);
      var s' := DeviceStep(h, s, t, ok, chains);
      RemoveEffect(h, tbl, pc.c.op, pc.id, chains);
      NotSweeping(s, t);
      LockKept(s, s', t, pc');
      DeviceEffectInv(h, s, s', t, pc', Code(0));
    }
  }

  /** Releasing the write lock, with the entry still to be freed. */
  lemma ReleaseInv(h: Key -> nat, s: State, t: nat, ok: bool, chains: seq<seq<nat>>)
    requires Inv(h, s) && t in s.threads && s.threads[t].DelUnlock?
    ensures Inv(h, DeviceStep(h, s, t, ok, chains))
  {
    hide TableOk, CallOk, Legal, CallsOk, ResponsesOk, ContentsOk, SweepOk, Snapshot, LockOk, OfKind;
    ThreadFacts(h, s, t);
    var pc := s.threads[t];
    var pc', s' := DelFree(pc.c, pc.id, pc.at), DeviceStep(h, s, t, ok, chains);
    NotDeletingAll(h, s, t);
    OthersSame(h, s, t);
    LockDropped(s, s', t, pc');
    ContentsStay(s, s', t, pc');
    ChangesInv(h, s, s', t, pc');
  }

  lemma LockDropped(s: State, s': State, t: nat, pc: Pc)
    requires LockOk(s) && t == DEVICE && t in s.threads && s.threads[t].DelUnlock? && pc.DelFree?
    requires pc.c == s.threads[t].c
    requires s'.threads == s.threads[t := pc] && !s'.writer && s'.torn == s.torn && s'.readers == s.readers
    ensures LockOk(s')
  {
  }

  /** The pointers of a thread that looks up or visits are to entries of the table. */
  lemma ReaderPointers(h: Key -> nat, tbl: Table, pc: Pc)
    requires TableOk(h, tbl) && PcOk(h, tbl, pc) && !Device(pc)
    ensures forall p | p in Pointers(pc) :: p in tbl.list && p in tbl.heap
  {
    TableFacts(h, tbl);
    hide TableOk, Walking, Snapshot, OfKind;
    if pc.RLook? && pc.cur != NULL {
      WalkMember(h, tbl, Address(pc.c.op), pc.cur);
    }
  }

  lemma FreedIsUnheld(h: Key -> nat, s: State, t: nat, id: nat)
    requires Inv(h, s) && t == DEVICE && (id !in s.tbl.list || s.writer)
    ensures !HeldElsewhere(s, t, id)
  {
    hide TableOk, PcOk, Legal, CallsOk, ResponsesOk, ContentsOk, SweepOk, Pointers, LockOk;
    forall u | u in s.threads && u != t ensures id !in Pointers(s.threads[u]) {
      OtherReads(s, u);
      ReaderPointers(h, s.tbl, s.threads[u]);
      if s.writer {
        NoPointers(s.threads[u]);
      }
    }
  }

  lemma OtherReads(s: State, u: nat)
    requires LockOk(s) && u in s.threads && u != DEVICE
    ensures !Device(s.threads[u]) && (s.writer ==> s.threads[u].RWait?)
  {
    assert u in s.readers <==> HoldsRead(s.threads[u]);
  }

  lemma NoPointers(pc: Pc)
    requires pc.RWait?
    ensures Pointers(pc) == {}
  {
  }

  /** Freeing a deleted entry. */
  lemma FreeInv(h: Key -> nat, s: State, t: nat, ok: bool, chains: seq<seq<nat>>)
    requires Inv(h, s) && t in s.threads && s.threads[t].DelFree?
    ensures Inv(h, DeviceStep(h, s, t, ok, chains))
  {
    hide TableOk, Legal, CallsOk, ResponsesOk, ContentsOk, SweepOk, Snapshot, LockOk, Agree, HeldElsewhere;
    hide DeletingAll, OfKind;
    ThreadFacts(h, s, t);
    var pc, tbl := s.threads[t], s.tbl;
    var tbl', s' := tbl.(heap := tbl.heap - {pc.id}), DeviceStep(h, s, t, ok, chains);
    FreedIsUnheld(h, s, t, pc.id);
    UnlistedAgrees(h, tbl, pc.id);
    TableAgrees(h, tbl, tbl');
    OthersAgree(h, s, tbl', t);
    NotDeletingAll(h, s, t);
    NeverFailed(s.log, pc.at);
    LockLeaves(h, s, s', t);
    ContentsLeft(s, s', t);
    AnswerInv(h, s, s', t, ResultAt(s, pc.at));
  }

  lemma UnlistedAgrees(h: Key -> nat, tbl: Table, id: nat)
    requires TableOk(h, tbl) && id !in tbl.list
    ensures Agree(tbl, tbl.(heap := tbl.heap - {id})) && NULL !in tbl.heap
  {
  }

  /** One round of deleting everything, or its end. */
  lemma DeleteNextInv(h: Key -> nat, s: State, t: nat, ok: bool, chains: seq<seq<nat>>)
    requires Inv(h, s) && t in s.threads && s.threads[t].AllNext?
    ensures Inv(h, DeviceStep(h, s, t, ok, chains))
  {
    hide TableOk, CallOk, Legal, CallsOk, ResponsesOk, SweepOk, Replay, LockOk, HeldElsewhere, Without, Next, ChainsOk;
    hide OfKind, Cleared, SweptTo;
    ThreadFacts(h, s, t);
    TableFacts(h, s.tbl);
    var pc, tbl, s' := s.threads[t], s.tbl, DeviceStep(h, s, t, ok, chains);
    if pc.el == NULL {
      var pc' := WUnlock(pc.c, |s.log|);
      NoFirst(tbl.list);
      NotSweeping(s, t);
      LockKept(s, s', t, pc');
      assert Snapshot(tbl.heap, []) == [];
      DeviceEffectInv(h, s, s', t, pc', Code(0));
    } else {
      FreedIsUnheld(h, s, t, pc.el);
      if ChainsOk(h, tbl.heap - {pc.el}, Without(tbl.list, pc.el), chains) {
        FrontGone(tbl.list);
        RemoveTable(h, tbl, tbl.heap - {pc.el}, pc.el, chains);
        OthersWait(h, s, s'.tbl, t);
        NotSweeping(s, t);
        LockKept(s, s', t, s'.threads[t]);
        StillNoSweep(s, s', t);
        ChangesInv(h, s, s', t, s'.threads[t]);
      }
    }
  }

  lemma StillNoSweep(s: State, s': State, t: nat)
    requires t in s.threads && t in s'.threads && !Sweeping(s.threads) && !s'.threads[t].RSweep?
    requires s'.threads == s.threads[t := s'.threads[t]]
    ensures SweepOk(s'.threads, s'.log)
  {
  }

  lemma NoFirst(list: seq<nat>)
    requires At(list, 0) == NULL && forall i | 0 <= i < |list| :: list[i] != NULL
    ensures list == []
  {
  }

  /** Without its first entry a list begins with the second. */
  lemma FrontGone(list: seq<nat>)
    requires list != [] && Distinct(list) && forall id | id in list :: id != NULL
    ensures var l := Without(list, list[0]);
            && At(l, 0) == At(list, 1)
            && Next(l, At(list, 1)) == At(l, 1)
            && (At(list, 1) == NULL ==> At(l, 1) == NULL)
            && (At(list, 1) != NULL ==> At(list, 1) in list && At(list, 1) != list[0])
  {
    var l := Without(list, list[0]);
    assert Position(list, list[0]) == 0 && l == list[1..];
    assert |list| > 1 ==> list[1] in list;
    assert forall id | id in l :: id in list;
    FirstTwo(l);
  }

  // ----- the threads under the read lock -----------------------------------------------------------

  /** Taking the read lock. */
  lemma EnterInv(h: Key -> nat, s: State, t: nat, ok: bool)
    requires Inv(h, s) && t in s.threads && s.threads[t].RWait?
    ensures Inv(h, ReaderStep(h, s, t, ok))
  {
    hide TableOk, CallOk, Legal, CallsOk, ResponsesOk, ContentsOk, SweepOk, LockOk, Next, Chain, At, Walking;
    ThreadFacts(h, s, t);
    var pc, tbl, s' := s.threads[t], s.tbl, ReaderStep(h, s, t, ok);
    if !ok {
      FailInv(h, s, t);
    } else if !s.writer {
      var pc' := s'.threads[t];
      TableFacts(h, tbl);
      FirstTwo(tbl.list);
      if pc.c.op.FindOp? || pc.c.op.MarkOp? {
        WalkStart(h, tbl, Address(pc.c.op));
      }
      hide Snapshot;
      CloudOnly(s, t);
      LockShared(s, s', t, pc');
      OthersSame(h, s, t);
      EnterContents(s, s', t, pc');
      ChangesInv(h, s, s', t, pc');
    }
  }

  lemma CloudOnly(s: State, t: nat)
    requires LockOk(s) && t in s.threads
    ensures ForCloud(s.threads[t]) ==> t == CLOUD
  {
  }

  lemma EnterContents(s: State, s': State, t: nat, pc: Pc)
    requires ContentsOk(s.tbl, s.threads, s.log) && SweepOk(s.threads, s.log)
    requires t in s.threads && s.threads[t].RWait? && !Device(pc)
    requires pc.RSweep? ==> t == CLOUD && pc.k == 0 && pc.reported == []
    requires s'.threads == s.threads[t := pc] && s'.log == s.log && s'.tbl == s.tbl
    ensures ContentsOk(s'.tbl, s'.threads, s'.log) && SweepOk(s'.threads, s'.log)
  {
    hide Replay, Snapshot, Cleared;
    assert DeletingAll(s'.threads) == DeletingAll(s.threads);
    if pc.RSweep? {
      assert Unmarked([]) == [] && Replay(s.log)[..0] == [];
    } else {
      SweepStays(s.threads, t, pc, s.log);
    }
  }

  lemma LockShared(s: State, s': State, t: nat, pc: Pc)
    requires LockOk(s) && t in s.threads && s.threads[t].RWait? && !s.writer && HoldsRead(pc)
    requires pc.c == s.threads[t].c
    requires s'.threads == s.threads[t := pc] && !s'.writer && s'.torn == s.torn && s'.readers == s.readers + {t}
    ensures LockOk(s')
  {
    assert !Device(pc) && !HoldsWrite(pc) && !Tears(pc);
    assert DEVICE in s.threads ==> !HoldsWrite(s.threads[DEVICE]);
    hide HoldsRead, HoldsWrite, Device, Tears;
  }

  /** A lookup or list that takes effect without a change of the table. */
  lemma ReadEffectInv(h: Key -> nat, s: State, t: nat, result: Result)
    requires Inv(h, s) && t in s.threads
    requires s.threads[t].RLook? || s.threads[t].RGot? || s.threads[t].RList?
    requires Apply(Replay(s.log), s.threads[t].c.op) == (Replay(s.log), result)
    ensures var c := s.threads[t].c;
            Inv(h, To(Effect(s, c, result), t, RUnlock(c, |s.log|)))
  {
    hide Inv, TableOk, CallOk, Legal, Replay, Snapshot, LockOk, Apply, Walking, Has, PcOk, IdsOk, OthersOk, SweepOk;
    hide Cleared;
    var c := s.threads[t].c;
    var pc := RUnlock(c, |s.log|);
    var s' := To(Effect(s, c, result), t, pc);
    SameIds(s, s');
    ThreadFacts(h, s, t);
    NotDeletingAll(h, s, t);
    OthersSame(h, s, t);
    LockMoves(s, t, pc);
    SweepStays(s.threads, t, pc, s.log);
    UnlockOk(h, s.tbl, c, |s.log|);
    LockSame(To(s, t, pc), s');
    EffectInv(h, s, s', t, pc, result);
  }

  lemma SameIds(s: State, s': State)
    requires s'.tbl.heap.Keys == s.tbl.heap.Keys && s'.nextId == s.nextId
    ensures IdsOk(s) ==> IdsOk(s')
  {
  }

  lemma UnlockOk(h: Key -> nat, tbl: Table, c: Call, at: nat)
    ensures PcOk(h, tbl, RUnlock(c, at)) && Took(RUnlock(c, at)) == at
  {
  }

  /** A lookup's effect: nothing found, or an entry found that is not to be marked. */
  lemma LookEndInv(h: Key -> nat, s: State, t: nat, ok: bool)
    requires Inv(h, s) && t in s.threads
    requires || (s.threads[t].RLook? && s.threads[t].cur == NULL)
             || (s.threads[t].RGot? && !s.threads[t].c.op.MarkOp?)
    ensures Inv(h, ReaderStep(h, s, t, ok))
  {
    hide Inv, TableOk, CallOk, Legal, Replay, Snapshot, LockOk, Walking, ContentsOk, SweepOk, Alike;
    ThreadFacts(h, s, t);
    NotDeletingAll(h, s, t);
    ContentsAlike(s);
    var pc, tbl := s.threads[t], s.tbl;
    var a, items := Address(pc.c.op), Snapshot(tbl.heap, tbl.list);
    AlikeWhere(Replay(s.log), items, a);
    if pc.RLook? {
      WalkEnd(h, tbl, a);
      WhereNot(tbl, a);
      AlikeSize(Replay(s.log), items);
      ReadEffectInv(h, s, t, Kind(NO_FIND));
    } else {
      UniqueInTable(h, tbl);
      WhereIs(tbl.heap, tbl.list, pc.id);
      assert items[Position(tbl.list, pc.id)] == tbl.heap[pc.id];
      AlikeAt(Replay(s.log), items, Position(tbl.list, pc.id));
      ReadEffectInv(h, s, t, Kind(tbl.heap[pc.id].kind));
    }
  }

  lemma AlikeSize(a: seq<Cell>, b: seq<Cell>)
    requires Alike(a, b)
    ensures |a| == |b|
  {
  }

  lemma AlikeAt(a: seq<Cell>, b: seq<Cell>, k: nat)
    requires Alike(a, b) && k < |b|
    ensures |a| == |b| && a[k].kind == b[k].kind
  {
  }

  lemma UniqueInTable(h: Key -> nat, tbl: Table)
    requires TableOk(h, tbl)
    ensures UniqueAddresses(tbl.heap, tbl.list)
  {
  }

  /** Outside of sweeps the log and the table agree in the marks as well. */
  lemma NoSweepSame(s: State)
    requires ContentsOk(s.tbl, s.threads, s.log) && !DeletingAll(s.threads) && SweptTo(s.threads) == 0
    ensures Replay(s.log) == Snapshot(s.tbl.heap, s.tbl.list)
  {
    hide Replay, Snapshot, Cleared;
    NoneCleared(Replay(s.log));
  }

  lemma MarkResult(tbl: Table, id: nat, a: Key)
    requires id in tbl.list && id in tbl.heap && tbl.heap[id].address == a && UniqueAddresses(tbl.heap, tbl.list)
    ensures var items, k := Snapshot(tbl.heap, tbl.list), Position(tbl.list, id);
            k < |items| && Apply(items, MarkOp(a)) == (items[k := items[k].(flag := true)], Kind(tbl.heap[id].kind))
  {
    WhereIs(tbl.heap, tbl.list, id);
    hide UniqueAddresses;
  }

  /** Marking the entry that was found. */
  lemma MarkInv(h: Key -> nat, s: State, t: nat, ok: bool)
    requires Inv(h, s) && t in s.threads && s.threads[t].RGot? && s.threads[t].c.op.MarkOp?
    ensures Inv(h, ReaderStep(h, s, t, ok))
  {
    hide Inv, TableOk, CallOk, Legal, Replay, Snapshot, LockOk, ContentsOk, SweepOk, IdsOk, OthersOk, Apply, Position;
    hide Cleared, UniqueAddresses, Distinct;
    ThreadFacts(h, s, t);
    NotDeletingAll(h, s, t);
    CloudOnly(s, t);
    NoSweepSame(s);
    var pc, tbl, s' := s.threads[t], s.tbl, ReaderStep(h, s, t, ok);
    var pc', id := RUnlock(pc.c, |s.log|), pc.id;
    TableFacts(h, tbl);
    UniqueInTable(h, tbl);
    MarkResult(tbl, id, pc.c.op.address);
    assert Remarked(tbl, s'.tbl, id, true);
    RemarkedTable(h, tbl, s'.tbl, id, true);
    PositionAt(tbl.list, id);
    RemarkedAt(tbl, s'.tbl, Position(tbl.list, id), true);
    OthersRemarked(h, s, s'.tbl, t, id, true);
    NoneCleared(Snapshot(s'.tbl.heap, s'.tbl.list));
    SameIds(s, s');
    LockMoves(s, t, pc');
    LockSame(To(s, t, pc'), s');
    SweepStays(s.threads, t, pc', s.log);
    UnlockOk(h, s'.tbl, pc.c, |s.log|);
    EffectInv(h, s, s', t, pc', Kind(tbl.heap[id].kind));
  }

  lemma PositionAt(list: seq<nat>, id: nat)
    requires id in list
    ensures Position(list, id) < |list| && list[Position(list, id)] == id
  {
  }

  // ----- sweeping ----------------------------------------------------------------------------------

  lemma ClearedNext(items: seq<Cell>, k: nat)
    requires k < |items|
    ensures var c := Cleared(items, k);
            Cleared(items, k + 1) == c[k := c[k].(flag := false)] && c[k] == items[k]
  {
  }

  lemma UnmarkedNext(items: seq<Cell>, k: nat)
    requires k < |items|
    ensures Unmarked(items[..k + 1]) == Unmarked(items[..k]) + (if items[k].flag then [] else [items[k].address])
  {
    assert items[..k + 1][..k] == items[..k];
  }

  lemma OfKindNext(kind: nat, items: seq<Cell>, k: nat)
    requires k < |items|
    ensures OfKind(kind, items[..k + 1])
         == OfKind(kind, items[..k]) + (if items[k].kind == kind then [items[k].address] else [])
  {
    assert items[..k + 1][..k] == items[..k];
  }

  lemma {:induction false} OfKindPrefix(kind: nat, items: seq<Cell>, k: nat)
    requires k <= |items|
    ensures OfKind(kind, items[..k]) <= OfKind(kind, items)
    decreases |items| - k
  {
    if k < |items| {
      OfKindNext(kind, items, k);
      OfKindPrefix(kind, items, k + 1);
    } else {
      assert items[..k] == items;
    }
  }

  /** What a sweep knows at the entry it has come to. */
  lemma SweepAt(h: Key -> nat, s: State, t: nat)
    requires Inv(h, s) && t in s.threads && s.threads[t].RSweep?
    ensures var pc, items := s.threads[t], Snapshot(s.tbl.heap, s.tbl.list);
            && t == CLOUD && pc.k <= |s.tbl.list| == |Replay(s.log)| && pc.c.op.SweepOp?
            && Follows(s.tbl.list, pc.el, pc.tmp, pc.k)
            && items == Cleared(Replay(s.log), pc.k) && pc.reported == Unmarked(Replay(s.log)[..pc.k])
  {
    hide TableOk, Legal, CallsOk, ResponsesOk, Replay, Unmarked;
    ThreadFacts(h, s, t);
    NotDeletingAll(h, s, t);
    CloudOnly(s, t);
  }

  lemma SweepLock(s: State, s': State, t: nat, pc: Pc)
    requires LockOk(s) && t in s.threads && s.threads[t].RSweep? && (pc.RSweep? || pc.RUnlock?)
    requires pc.c == s.threads[t].c
    requires s'.threads == s.threads[t := pc]
    requires s'.writer == s.writer && s'.torn == s.torn && s'.readers == s.readers
    ensures LockOk(s') && DeletingAll(s'.threads) == DeletingAll(s.threads)
  {
    assert HoldsRead(pc) && !HoldsWrite(pc) && !Tears(pc) && !Device(pc);
    hide HoldsRead, HoldsWrite, Tears, Device;
  }

  /** One entry of a sweep. */
  lemma SweepInv(h: Key -> nat, s: State, t: nat, ok: bool)
    requires Inv(h, s) && t in s.threads && s.threads[t].RSweep? && s.threads[t].el != NULL
    ensures Inv(h, ReaderStep(h, s, t, ok))
  {
    hide Inv, TableOk, CallOk, Legal, Replay, Snapshot, LockOk, ContentsOk, SweepOk, IdsOk, OthersOk, Cleared, Unmarked;
    hide Next, At, Distinct;
    ThreadFacts(h, s, t);
    TableFacts(h, s.tbl);
    SweepAt(h, s, t);
    var pc, tbl, s' := s.threads[t], s.tbl, ReaderStep(h, s, t, ok);
    var k, items := pc.k, Replay(s.log);
    SweepPlace(tbl, pc.el, pc.tmp, k);
    var pc' := s'.threads[t];
    ClearedNext(items, k);
    UnmarkedNext(items, k);
    SweptCell(tbl, items, k);
    assert s'.tbl == Stored(tbl, pc.el, tbl.heap[pc.el].(flag := false)) by {
      StoredSame(tbl, pc.el, tbl.heap[pc.el].(flag := false));
    }
    assert Remarked(tbl, s'.tbl, pc.el, false);
    RemarkedTable(h, tbl, s'.tbl, pc.el, false);
    RemarkedAt(tbl, s'.tbl, k, false);
    OthersRemarked(h, s, s'.tbl, t, pc.el, false);
    SameIds(s, s');
    SweepLock(s, s', t, pc');
    SweepGoesOn(s, s', t, pc');
    ChangesInv(h, s, s', t, pc');
  }

  lemma SweptCell(tbl: Table, items: seq<Cell>, k: nat)
    requires k < |tbl.list| == |items| && tbl.list[k] in tbl.heap
    requires Snapshot(tbl.heap, tbl.list) == Cleared(items, k)
    ensures items[k] == tbl.heap[tbl.list[k]]
  {
    assert Snapshot(tbl.heap, tbl.list)[k] == Cleared(items, k)[k];
  }

  lemma StoredSame(tbl: Table, id: nat, cell: Cell)
    requires id in tbl.heap
    ensures cell == tbl.heap[id] ==> Stored(tbl, id, cell) == tbl
  {
    assert cell == tbl.heap[id] ==> tbl.heap[id := cell] == tbl.heap;
  }

  /** Where the pointers of a sweep or a list are, and what the next step reads. */
  lemma SweepPlace(tbl: Table, el: nat, tmp: nat, k: nat)
    requires Follows(tbl.list, el, tmp, k) && el != NULL && Distinct(tbl.list)
    requires forall i | 0 <= i < |tbl.list| :: tbl.list[i] in tbl.heap && tbl.list[i] != NULL
    ensures k < |tbl.list| && el == tbl.list[k] && el in tbl.list && el in tbl.heap
    ensures tmp != NULL ==> tmp in tbl.heap
    ensures Follows(tbl.list, tmp, if tmp == NULL then NULL else Next(tbl.list, tmp), k + 1)
  {
    if tmp != NULL {
      NextIsSecond(tbl.list, k + 1);
    }
  }

  lemma SweepGoesOn(s: State, s': State, t: nat, pc: Pc)
    requires t == CLOUD && pc.RSweep? && s'.threads == s.threads[t := pc] && s'.log == s.log
    requires pc.k <= |Replay(s.log)| && pc.reported == Unmarked(Replay(s.log)[..pc.k])
    requires Snapshot(s'.tbl.heap, s'.tbl.list) == Cleared(Replay(s.log), pc.k)
    ensures ContentsOk(s'.tbl, s'.threads, s'.log) && SweepOk(s'.threads, s'.log)
  {
  }

  /** The end of a sweep, where it takes effect. */
  lemma SweepEndInv(h: Key -> nat, s: State, t: nat, ok: bool)
    requires Inv(h, s) && t in s.threads && s.threads[t].RSweep? && s.threads[t].el == NULL
    ensures Inv(h, ReaderStep(h, s, t, ok))
  {
    hide Inv, TableOk, CallOk, Legal, Replay, Snapshot, LockOk, ContentsOk, SweepOk, IdsOk, OthersOk, Cleared, Unmarked;
    ThreadFacts(h, s, t);
    TableFacts(h, s.tbl);
    SweepAt(h, s, t);
    OthersSame(h, s, t);
    var pc, s' := s.threads[t], ReaderStep(h, s, t, ok);
    var pc', items := RUnlock(pc.c, |s.log|), Replay(s.log);
    assert pc.k == |s.tbl.list| && items[..pc.k] == items;
    SameIds(s, s');
    SweepLock(s, s', t, pc');
    NoneCleared(Cleared(items, |items|));
    UnlockOk(h, s.tbl, pc.c, |s.log|);
    SweepStops(s'.threads, s.log);
    EffectInv(h, s, s', t, pc', Keys(pc.reported));
  }

  lemma SweepStops(threads: map<nat, Pc>, log: seq<Entry>)
    requires CLOUD in threads && !threads[CLOUD].RSweep?
    ensures SweptTo(threads) == 0 && !Sweeping(threads) && SweepOk(threads, log)
  {
  }

  // ----- listing the addresses of a type -----------------------------------------------------------

  lemma ListedAll(s: State, kind: nat, found: seq<Key>, k: nat, rows: nat)
    requires Alike(Replay(s.log), Snapshot(s.tbl.heap, s.tbl.list)) && k <= |s.tbl.list|
    requires found == OfKind(kind, Snapshot(s.tbl.heap, s.tbl.list)[..k])
    requires |found| == rows || (k == |s.tbl.list| && |found| < rows)
    ensures Apply(Replay(s.log), KeysOp(kind, rows)) == (Replay(s.log), Keys(found))
  {
    hide Replay, OfKind;
    var items := Snapshot(s.tbl.heap, s.tbl.list);
    AlikeKinds(kind, Replay(s.log), items);
    OfKindPrefix(kind, items, k);
    assert k == |items| ==> items[..k] == items;
    var all := OfKind(kind, items);
    assert found == all[..|found|] && (|found| == |all| ==> found == all);
  }

  /** One entry of a list of addresses, or its end. */
  lemma ListInv(h: Key -> nat, s: State, t: nat, ok: bool)
    requires Inv(h, s) && t in s.threads && s.threads[t].RList?
    ensures Inv(h, ReaderStep(h, s, t, ok))
  {
    hide Inv, TableOk, CallOk, Legal, Replay, LockOk, ContentsOk, SweepOk, Cleared, OfKind, Next, At, Alike, Apply;
    ThreadFacts(h, s, t);
    TableFacts(h, s.tbl);
    NotDeletingAll(h, s, t);
    ContentsAlike(s);
    var pc, tbl := s.threads[t], s.tbl;
    var k, op := pc.k, pc.c.op;
    if pc.el == NULL {
      ListEnds(tbl, pc.tmp, k);
      ListedAll(s, op.kind, pc.found, k, op.rows);
      assert op == KeysOp(op.kind, op.rows);
      ReadEffectInv(h, s, t, Keys(pc.found));
    } else {
      SweepPlace(tbl, pc.el, pc.tmp, k);
      OfKindNext(op.kind, Snapshot(tbl.heap, tbl.list), k);
      var cell := tbl.heap[pc.el];
      var more := if cell.kind == op.kind then pc.found + [cell.address] else pc.found;
      assert Snapshot(tbl.heap, tbl.list)[k] == cell;
      if cell.kind == op.kind && |more| == op.rows {
        ListedAll(s, op.kind, more, k + 1, op.rows);
        assert op == KeysOp(op.kind, op.rows);
        ReadEffectInv(h, s, t, Keys(more));
      } else {
        MovesInv(h, s, t, RList(pc.c, pc.tmp, if pc.tmp == NULL then NULL else Next(tbl.list, pc.tmp), more, k + 1));
      }
    }
  }

  lemma ListEnds(tbl: Table, tmp: nat, k: nat)
    requires Follows(tbl.list, NULL, tmp, k) && forall i | 0 <= i < |tbl.list| :: tbl.list[i] != NULL
    ensures k == |tbl.list|
  {
  }

  // ----- runs ------------------------------------------------------------------------------------

  lemma BeginInv(h: Key -> nat, s: State, t: nat, op: Op)
    requires Inv(h, s) && t !in s.threads
    ensures Inv(h, Begin(h, s, t, op))
  {
    hide TableOk, Legal, LockOk, CallsOk, ResponsesOk, PcOk, Begin, DeletingAll, OthersOk, ContentsOk, SweepOk;
    var s' := Begin(h, s, t, op);
    BeginPc(h, s, t, op);
    if s' != s {
      var pc := s'.threads[t];
      LockBegins(s, s', t, pc);
      CallBegins(s, t, pc);
      OthersSame(h, s, t);
      BeginThreads(h, s, t, pc);
    }
  }

  /** What the first step of a call changes, if it is one the thread may make. */
  lemma BeginPc(h: Key -> nat, s: State, t: nat, op: Op)
    requires TableOk(h, s.tbl) && t !in s.threads
    ensures var s' := Begin(h, s, t, op);
            s' == s || (
              && t in s'.threads && s' == s.(threads := s.threads[t := s'.threads[t]], nextCall := s.nextCall + 1)
              && var pc := s'.threads[t];
                 && pc.c == Call(s.nextCall, op, |s.log|) && PcOk(h, s.tbl, pc) && Took(pc) < 0
                 && (pc.AddWalk? || pc.DelWalk? || pc.AllWait? || pc.RWait?)
                 && (Device(pc) ==> t == DEVICE) && (ForCloud(pc) ==> t == CLOUD))
  {
    hide TableOk, Walking, Chain, At;
    if op.AddOp? || op.DeleteOp? {
      WalkStart(h, s.tbl, op.address);
    }
  }

  lemma BeginThreads(h: Key -> nat, s: State, t: nat, pc: Pc)
    requires OthersOk(h, s.tbl, s.threads, t) && PcOk(h, s.tbl, pc)
    requires ContentsOk(s.tbl, s.threads, s.log) && DeletingAll(s.threads[t := pc]) == DeletingAll(s.threads)
    requires SweepOk(s.threads, s.log) && t !in s.threads && !pc.RSweep?
    ensures ThreadsOk(h, s.tbl, s.threads[t := pc]) && ContentsOk(s.tbl, s.threads[t := pc], s.log)
    ensures SweepOk(s.threads[t := pc], s.log)
  {
    hide PcOk, DeletingAll, Snapshot, Replay, Unmarked, Cleared;
    ThreadMoves(h, s.tbl, s.threads, t, pc);
  }

  lemma LockBegins(s: State, s': State, t: nat, pc: Pc)
    requires LockOk(s) && t !in s.threads && (pc.AddWalk? || pc.DelWalk? || pc.AllWait? || pc.RWait?)
    requires (Device(pc) ==> t == DEVICE) && (ForCloud(pc) ==> t == CLOUD)
    requires s'.threads == s.threads[t := pc]
    requires s'.writer == s.writer && s'.torn == s.torn && s'.readers == s.readers
    ensures LockOk(s') && DeletingAll(s'.threads) == DeletingAll(s.threads)
  {
    assert !HoldsRead(pc) && !HoldsWrite(pc) && !Tears(pc) && !pc.AllNext?;
    hide HoldsRead, HoldsWrite, Tears, Device, ForCloud;
  }

  lemma CallBegins(s: State, t: nat, pc: Pc)
    requires CallsOk(s.log, s.threads, s.nextCall) && ResponsesOk(s.log, s.threads, s.nextCall, s.responses)
    requires t !in s.threads && pc.c.id == s.nextCall && pc.c.from == |s.log| && Took(pc) < 0
    ensures CallsOk(s.log, s.threads[t := pc], s.nextCall + 1)
    ensures ResponsesOk(s.log, s.threads[t := pc], s.nextCall + 1, s.responses)
  {
    hide Took, Justified;
    forall u | u in s.threads ensures CallOk(s.log, s.nextCall + 1, s.threads[u].c, Took(s.threads[u])) {
      assert CallOk(s.log, s.nextCall, s.threads[u].c, Took(s.threads[u]));
    }
    forall u | u in s.threads ensures s.threads[u].c.id < s.nextCall {
      assert CallOk(s.log, s.nextCall, s.threads[u].c, Took(s.threads[u]));
    }
  }

  /** Every step of every thread keeps the invariant. */
  lemma StepInv(h: Key -> nat, s: State, ev: Event)
    requires Inv(h, s)
    ensures Inv(h, Step(h, s, ev))
  {
    hide Inv, Begin, DeviceStep, ReaderStep;
    match ev
    case Begins(t, op) =>
      if t !in s.threads {
        BeginInv(h, s, t, op);
      }
    case Goes(t, ok, chains) =>
      if t in s.threads {
        match s.threads[t]
        case AddWalk(_, _) => WalkInv(h, s, t, ok, chains);
        case AddMalloc(_) => MallocInv(h, s, t, ok, chains);
        case AddWait(_, _) => AcquireInv(h, s, t, ok, chains);
        case AddLinking(_, _) => LinkInv(h, s, t, ok, chains);
        case SetWait(_, _) => AcquireInv(h, s, t, ok, chains);
        case SetStore(_, _) => StoreInv(h, s, t, ok, chains);
        case DelWalk(_, cur) =>
          if cur == NULL {
            MissInv(h, s, t, ok, chains);
          } else {
            WalkInv(h, s, t, ok, chains);
          }
        case DelWait(_, _) => AcquireInv(h, s, t, ok, chains);
        case DelUnlinking(_, _) => UnlinkInv(h, s, t, ok, chains);
        case DelUnlock(_, _, _) => ReleaseInv(h, s, t, ok, chains);
        case DelFree(_, _, _) => FreeInv(h, s, t, ok, chains);
        case AllWait(_) => AcquireInv(h, s, t, ok, chains);
        case AllNext(_, _, _) => DeleteNextInv(h, s, t, ok, chains);
        case WUnlock(_, _) => WriteUnlockInv(h, s, t, ok, chains);
        case RWait(_) => EnterInv(h, s, t, ok);
        case RLook(_, cur) =>
          if cur == NULL {
            LookEndInv(h, s, t, ok);
          } else {
            LookInv(h, s, t, ok);
          }
        case RGot(c, _) =>
          if c.op.MarkOp? {
            MarkInv(h, s, t, ok);
          } else {
            LookEndInv(h, s, t, ok);
          }
        case RList(_, _, _, _, _) => ListInv(h, s, t, ok);
        case RSweep(_, el, _, _, _) =>
          if el == NULL {
            SweepEndInv(h, s, t, ok);
          } else {
            SweepInv(h, s, t, ok);
          }
        case RUnlock(_, _) => ReadUnlockInv(h, s, t, ok);
      }
  }

  lemma WriteUnlockInv(h: Key -> nat, s: State, t: nat, ok: bool, chains: seq<seq<nat>>)
    requires Inv(h, s) && t in s.threads && s.threads[t].WUnlock?
    ensures Inv(h, DeviceStep(h, s, t, ok, chains))
  {
    hide Inv;
    UnlockInv(h, s, t);
  }

  lemma ReadUnlockInv(h: Key -> nat, s: State, t: nat, ok: bool)
    requires Inv(h, s) && t in s.threads && s.threads[t].RUnlock?
    ensures Inv(h, ReaderStep(h, s, t, ok))
  {
    hide Inv;
    UnlockInv(h, s, t);
  }

  lemma {:induction false} RunInv(h: Key -> nat, s: State, evs: seq<Event>)
    requires Inv(h, s)
    ensures Inv(h, Run(h, s, evs))
    decreases |evs|
  {
    hide Inv, Step;
    if evs != [] {
      StepInv(h, s, evs[0]);
      RunInv(h, Step(h, s, evs[0]), evs[1..]);
    }
  }

  /** In every interleaving nobody ever uses freed memory, reads links that are being rewritten
      or frees what another thread holds; nobody but a waiting thread is in the table with the
      writer; and every pointer into the table is to an entry that is allocated, and in the
      list unless the device thread has not linked it yet or has unlinked it. */
  lemma EveryRunIsSafe(h: Key -> nat, buckets: nat, evs: seq<Event>, t: nat)
    requires buckets > 0
    ensures var s := Run(h, Initial(buckets), evs);
            && !s.bad && (s.writer ==> s.readers == {})
            && (t in s.threads ==>
                  && (Device(s.threads[t]) ==> t == DEVICE)
                  && (t in s.readers <==> HoldsRead(s.threads[t]))
                  && forall p | p in Pointers(s.threads[t]) :: p in s.tbl.heap)
            && (t in s.threads && t != DEVICE ==> forall p | p in Pointers(s.threads[t]) :: p in s.tbl.list)
  {
    InitialInv(h, buckets);
    RunInv(h, Initial(buckets), evs);
    var s := Run(h, Initial(buckets), evs);
    assert LockOk(s) && !s.bad;
    if t in s.threads {
      ThreadFacts(h, s, t);
      if Device(s.threads[t]) {
        DevicePointers(h, s.tbl, s.threads[t]);
      } else {
        ReaderPointers(h, s.tbl, s.threads[t]);
      }
    }
    hide Inv, Run, PcOk, Pointers, TableOk;
  }

  lemma DevicePointers(h: Key -> nat, tbl: Table, pc: Pc)
    requires TableOk(h, tbl) && PcOk(h, tbl, pc) && Device(pc)
    ensures forall p | p in Pointers(pc) :: p in tbl.heap
  {
    TableFacts(h, tbl);
    hide TableOk, Walking, NoAddr;
    if (pc.AddWalk? || pc.DelWalk?) && pc.cur != NULL {
      WalkMember(h, tbl, pc.c.op.address, pc.cur);
    }
  }

  /** In every interleaving the calls take effect one after another: replayed alone in the
      order of the log each gives its logged answer, no call is logged twice, and every
      answer given is that of the call's entry in the log, which was made after the call began
      and before it was answered. A call that failed has had no effect. */
  lemma EveryRunIsLinearizable(h: Key -> nat, buckets: nat, evs: seq<Event>, k: nat)
    requires buckets > 0
    ensures var s := Run(h, Initial(buckets), evs);
            && Legal(s.log) && (forall i, j | 0 <= i < j < |s.log| :: s.log[i].call != s.log[j].call)
            && (!DeletingAll(s.threads) ==>
                  Cleared(Replay(s.log), SweptTo(s.threads)) == Snapshot(s.tbl.heap, s.tbl.list))
            && (k < |s.responses| ==> Justified(s.log, s.responses[k]))
  {
    InitialInv(h, buckets);
    RunInv(h, Initial(buckets), evs);
    hide Legal, Justified, Replay, Snapshot, Run, TableOk, LockOk, Cleared, SweptTo, SweepOk;
  }
}
