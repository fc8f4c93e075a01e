/** That calls of the shared sub-device table get done: a call fails only when a lock or an
    allocation was refused to it, and when none is refused every call can be finished. */
module SubdevProgress {
  import opened SubdevSystem
  import opened SubdevSafety
  import opened SubdevRuns
  import opened SubdevMaps

  // ----- what a step may answer --------------------------------------------------------------

  /** A step of thread `t` ends no call, or its own, which then fails only if it was refused
      something in this step. */
  ghost predicate Answers(s: State, n: State, t: nat, ok: bool)
    requires t in s.threads
  {
    n.responses == s.responses
    || (&& |n.responses| == |s.responses| + 1 && s.responses <= n.responses
        && var r, c := n.responses[|s.responses|], s.threads[t].c;
           r.call == c.id && r.op == c.op && (r.result == Failed ==> !ok))
  }

  ghost predicate Responds(s: State, n: State, ev: Event) {
    n.responses == s.responses || (ev.Goes? && ev.t in s.threads && Answers(s, n, ev.t, ev.ok))
  }

  /** What is to be answered is known and no failure. */
  ghost predicate Answerable(s: State, pc: Pc) {
    && (pc.AddMalloc? || pc.SetStore? ==> pc.c.op.AddOp?)
    && (Took(pc) >= 0 ==> ResultAt(s, Took(pc)) != Failed)
  }

  lemma InvAnswerable(h: Key -> nat, s: State, t: nat)
    requires Inv(h, s) && t in s.threads
    ensures Answerable(s, s.threads[t])
  {
    ThreadFacts(h, s, t);
    var at := Took(s.threads[t]);
    if at >= 0 {
      NeverFailed(s.log, at);
    }
    hide Inv, TableOk, Legal, Walking, NoAddr, ContentsOk, SweepOk, LockOk, IdsOk, OfKind, Snapshot;
  }

  lemma WalkAnswers(h: Key -> nat, s: State, t: nat, ok: bool, chains: seq<seq<nat>>)
    requires t in s.threads && Answerable(s, s.threads[t])
    requires var pc := s.threads[t]; pc.AddWalk? || pc.AddMalloc? || pc.DelWalk?
    ensures Answers(s, DeviceStep(h, s, t, ok, chains), t, ok)
  {
    hide ChainsOk, HeldElsewhere, Next, Without, Chain, Readable, At, Address, Free;
  }

  lemma WaitAnswers(h: Key -> nat, s: State, t: nat, ok: bool, chains: seq<seq<nat>>)
    requires t in s.threads && Answerable(s, s.threads[t])
    requires var pc := s.threads[t]; pc.AddWait? || pc.SetWait? || pc.DelWait? || pc.AllWait?
    ensures Answers(s, DeviceStep(h, s, t, ok, chains), t, ok)
  {
    hide ChainsOk, HeldElsewhere, Next, Without, Chain, Readable, At, Address, Free;
  }

  lemma WorkAnswers(h: Key -> nat, s: State, t: nat, ok: bool, chains: seq<seq<nat>>)
    requires t in s.threads && Answerable(s, s.threads[t])
    requires var pc := s.threads[t]; pc.AddLinking? || pc.SetStore? || pc.DelUnlinking? || pc.AllNext?
    ensures Answers(s, DeviceStep(h, s, t, ok, chains), t, ok)
  {
    hide ChainsOk, HeldElsewhere, Next, Without, Chain, Readable, At, Address, Free;
  }

  lemma LeaveAnswers(h: Key -> nat, s: State, t: nat, ok: bool, chains: seq<seq<nat>>)
    requires t in s.threads && Answerable(s, s.threads[t])
    requires var pc := s.threads[t]; pc.DelUnlock? || pc.DelFree? || pc.WUnlock?
    ensures Answers(s, DeviceStep(h, s, t, ok, chains), t, ok)
  {
    hide ChainsOk, HeldElsewhere, Next, Without, Chain, Readable, At, Address, Free;
  }

  lemma LookAnswers(h: Key -> nat, s: State, t: nat, ok: bool)
    requires t in s.threads && Answerable(s, s.threads[t])
    requires var pc := s.threads[t]; pc.RWait? || pc.RLook? || pc.RGot?
    ensures Answers(s, ReaderStep(h, s, t, ok), t, ok)
  {
    hide ChainsOk, HeldElsewhere, Next, Without, Chain, Readable, At, Address, Free;
  }

  lemma ListAnswers(h: Key -> nat, s: State, t: nat, ok: bool)
    requires t in s.threads && Answerable(s, s.threads[t])
    requires var pc := s.threads[t]; pc.RList? || pc.RSweep? || pc.RUnlock?
    ensures Answers(s, ReaderStep(h, s, t, ok), t, ok)
  {
    hide ChainsOk, HeldElsewhere, Next, Without, Chain, Readable, At, Address, Free;
  }

  lemma BeginAnswers(h: Key -> nat, s: State, t: nat, op: Op)
    requires t !in s.threads
    ensures Begin(h, s, t, op).responses == s.responses
  {
    hide Chain, At;
  }

  lemma StepResponds(h: Key -> nat, s: State, ev: Event)
    requires Inv(h, s)
    ensures Responds(s, Step(h, s, ev), ev)
  {
    hide Inv, DeviceStep, ReaderStep, Begin, Answerable;
    if ev.Begins? {
      if ev.t !in s.threads {
        BeginAnswers(h, s, ev.t, ev.op);
      }
    } else if ev.t in s.threads {
      InvAnswerable(h, s, ev.t);
      match s.threads[ev.t]
      case AddWalk(_, _) => WalkAnswers(h, s, ev.t, ev.ok, ev.chains);
      case AddMalloc(_) => WalkAnswers(h, s, ev.t, ev.ok, ev.chains);
      case DelWalk(_, _) => WalkAnswers(h, s, ev.t, ev.ok, ev.chains);
      case AddWait(_, _) => WaitAnswers(h, s, ev.t, ev.ok, ev.chains);
      case SetWait(_, _) => WaitAnswers(h, s, ev.t, ev.ok, ev.chains);
      case DelWait(_, _) => WaitAnswers(h, s, ev.t, ev.ok, ev.chains);
      case AllWait(_) => WaitAnswers(h, s, ev.t, ev.ok, ev.chains);
      case DelUnlock(_, _, _) => LeaveAnswers(h, s, ev.t, ev.ok, ev.chains);
      case DelFree(_, _, _) => LeaveAnswers(h, s, ev.t, ev.ok, ev.chains);
      case WUnlock(_, _) => LeaveAnswers(h, s, ev.t, ev.ok, ev.chains);
      case RWait(_) => LookAnswers(h, s, ev.t, ev.ok);
      case RLook(_, _) => LookAnswers(h, s, ev.t, ev.ok);
      case RGot(_, _) => LookAnswers(h, s, ev.t, ev.ok);
      case RList(_, _, _, _, _) => ListAnswers(h, s, ev.t, ev.ok);
      case RSweep(_, _, _, _, _) => ListAnswers(h, s, ev.t, ev.ok);
      case RUnlock(_, _) => ListAnswers(h, s, ev.t, ev.ok);
      case _ => WorkAnswers(h, s, ev.t, ev.ok, ev.chains);
    }
  }

  lemma {:induction false} RunSnoc(h: Key -> nat, s: State, evs: seq<Event>, j: nat)
    requires j < |evs|
    ensures Run(h, s, evs[..j + 1]) == Step(h, Run(h, s, evs[..j]), evs[j])
    decreases j
  {
    hide Step;
    if j > 0 {
      RunSnoc(h, Step(h, s, evs[0]), evs[1..], j - 1);
      assert evs[1..][..j] == evs[..j + 1][1..] && evs[1..][..j - 1] == evs[..j][1..];
    } else {
      assert evs[..1][1..] == [] && evs[..1][0] == evs[0];
      assert Run(h, Step(h, s, evs[0]), []) == Step(h, s, evs[0]);
    }
  }

  /** Event `j` of the run ends the call of answer `k`. */
  ghost predicate Ends(h: Key -> nat, s: State, evs: seq<Event>, j: nat, k: nat) {
    && j < |evs| && evs[j].Goes?
    && var b, a := Run(h, s, evs[..j]), Run(h, s, evs[..j + 1]);
       && |b.responses| == k && |a.responses| == k + 1 && evs[j].t in b.threads
       && a.responses[k].call == b.threads[evs[j].t].c.id && a.responses[k].op == b.threads[evs[j].t].c.op
  }

  lemma EndsEarlier(h: Key -> nat, s: State, evs: seq<Event>, n: nat, j: nat, k: nat)
    requires n <= |evs| && Ends(h, s, evs[..n], j, k)
    ensures Ends(h, s, evs, j, k) && evs[..n][j] == evs[j]
  {
    hide Run;
    assert evs[..n][..j] == evs[..j] && evs[..n][..j + 1] == evs[..j + 1];
  }

  lemma EndsNow(h: Key -> nat, s: State, evs: seq<Event>, j: nat)
    requires j < |evs| && Inv(h, Run(h, s, evs[..j]))
    ensures var b, a := Run(h, s, evs[..j]), Run(h, s, evs[..j + 1]);
            a.responses == b.responses
            || (&& Ends(h, s, evs, j, |b.responses|) && |a.responses| == |b.responses| + 1 && b.responses <= a.responses
                && (a.responses[|b.responses|].result == Failed ==> !evs[j].ok))
  {
    RunSnoc(h, s, evs, j);
    StepResponds(h, Run(h, s, evs[..j]), evs[j]);
    hide Run, Step, Inv;
  }

  /** After every run: a call has failed only if a lock or an allocation was refused to its own
      thread, in the very step that ended it. */
  lemma {:induction false} FailedIsRefused(h: Key -> nat, buckets: nat, evs: seq<Event>, k: nat) returns (j: nat)
    requires buckets > 0 && k < |Run(h, Initial(buckets), evs).responses|
    ensures Ends(h, Initial(buckets), evs, j, k)
    ensures Run(h, Initial(buckets), evs).responses[k].result == Failed ==> !evs[j].ok
    decreases |evs|
  {
    hide Run, Inv, Initial, Ends, Step;
    var s0, n := Initial(buckets), |evs|;
    NoAnswerYet(h, buckets);
    assert n > 0 && evs[..n] == evs;
    InitialInv(h, buckets);
    RunInv(h, s0, evs[..n - 1]);
    EndsNow(h, s0, evs, n - 1);
    j := n - 1;
    if k < |Run(h, s0, evs[..n - 1]).responses| {
      j := FailedIsRefused(h, buckets, evs[..n - 1], k);
      EndsEarlier(h, s0, evs, n - 1, j, k);
    }
  }

  lemma NoAnswerYet(h: Key -> nat, buckets: nat)
    requires buckets > 0
    ensures Run(h, Initial(buckets), []).responses == []
  {
  }

  // ----- a call that is refused nothing gets on ------------------------------------------------

  function Left(s: seq<nat>, id: nat): nat {
    |s| - Position(s, id)
  }

  /** An upper bound of the steps that a call still takes on its own. */
  ghost function Rank(h: Key -> nat, tbl: Table, pc: Pc): nat {
    match pc
    case AddWalk(c, cur) => 10 + Left(Chain(h, tbl, Address(c.op)), cur)
    case AddMalloc(_) => 9
    case AddWait(_, _) => 8
    case AddLinking(_, _) => 7
    case SetWait(_, _) => 8
    case SetStore(_, _) => 7
    case DelWalk(c, cur) => 10 + Left(Chain(h, tbl, Address(c.op)), cur)
    case DelWait(_, _) => 8
    case DelUnlinking(_, _) => 7
    case DelUnlock(_, _, _) => 6
    case DelFree(_, _, _) => 5
    case AllWait(_) => 3 + |tbl.list|
    case AllNext(_, _, _) => 2 + |tbl.list|
    case WUnlock(_, _) => 1
    case RWait(c) => 12 + |tbl.list| + |Chain(h, tbl, Address(c.op))|
    case RLook(c, cur) => 10 + Left(Chain(h, tbl, Address(c.op)), cur)
    case RGot(_, _) => 9
    case RList(_, _, _, _, k) => if k <= |tbl.list| then 2 + |tbl.list| - k else 2
    case RSweep(_, _, _, _, k) => if k <= |tbl.list| then 2 + |tbl.list| - k else 2
    case RUnlock(_, _) => 1
  }

  /** No other thread is in the way of this one. */
  ghost predicate Unblocked(s: State, t: nat)
    requires t in s.threads
  {
    && (Device(s.threads[t]) ==> s.readers == {})
    && (s.threads[t].RWait? ==> !s.writer)
  }

  /** A rewrite of the chains that the thread's step may make. */
  ghost function Permitted(h: Key -> nat, tbl: Table, pc: Pc): seq<seq<nat>> {
    match pc
    case AddLinking(c, id) =>
      if |tbl.chains| == 0 then []
      else
        var b := h(Address(c.op)) % |tbl.chains|;
        tbl.chains[b := [id] + tbl.chains[b]]
    case DelUnlinking(_, id) => WithoutAll(tbl.chains, id)
    case AllNext(_, el, _) => WithoutAll(tbl.chains, el)
    case _ => []
  }

  /** The thread has gone on in its call, or ended it; at most it has logged its own call. */
  ghost predicate GoneOn(h: Key -> nat, s: State, n: State, t: nat)
    requires t in s.threads
  {
    var pc := s.threads[t];
    var c := pc.c;
    && (forall u {:trigger u in n.threads} {:trigger n.threads[u]} | u != t ::
          (u in n.threads <==> u in s.threads) && (u in s.threads ==> n.threads[u] == s.threads[u]))
    && (forall u | u != t :: u in n.readers <==> u in s.readers)
    && (!Device(pc) ==> n.writer == s.writer)
    && if t in n.threads then
         var pc' := n.threads[t];
         && pc'.c == c && Device(pc') == Device(pc) && !pc'.RWait? && n.responses == s.responses
         && Rank(h, n.tbl, pc') < Rank(h, s.tbl, pc)
         && if Took(pc') == Took(pc) then n.log == s.log
            else
              && Took(pc) < 0 && Took(pc') == |s.log| && |n.log| == |s.log| + 1
              && n.log == s.log + [Entry(c.id, c.op, n.log[|s.log|].result)]
       else
         && |n.responses| == |s.responses| + 1 && s.responses <= n.responses
         && var r := n.responses[|s.responses|];
            && r.call == c.id && r.op == c.op
            && if Took(pc) >= 0 then n.log == s.log && r.result == ResultAt(s, Took(pc))
               else n.log == s.log + [Entry(c.id, c.op, r.result)]
  }

  lemma WalkShorter(h: Key -> nat, tbl: Table, a: Key, cur: nat)
    requires TableOk(h, tbl) && Walking(h, tbl, a, cur) && cur != NULL
    ensures Left(Chain(h, tbl, a), Next(Chain(h, tbl, a), cur)) < Left(Chain(h, tbl, a), cur)
    ensures Left(Chain(h, tbl, a), cur) <= |Chain(h, tbl, a)|
  {
    var ch := Chain(h, tbl, a);
    var k := Position(ch, cur);
    assert k < |ch|;
    if k + 1 < |ch| {
      ChainMember(h, tbl, a, k + 1);
    } else {
      NullBehind(h, tbl, a);
    }
  }

  lemma NullBehind(h: Key -> nat, tbl: Table, a: Key)
    requires TableOk(h, tbl)
    ensures NULL !in Chain(h, tbl, a) && Left(Chain(h, tbl, a), NULL) == 0
  {
    var ch := Chain(h, tbl, a);
    if k :| 0 <= k < |ch| && ch[k] == NULL {
      ChainMember(h, tbl, a, k);
    }
  }

  // The three ways of going on: within the call, taking effect, and answering.

  lemma Moved(h: Key -> nat, s: State, n: State, t: nat, pc: Pc)
    requires t in s.threads && n.threads == s.threads[t := pc] && pc.c == s.threads[t].c && !pc.RWait?
    requires Device(pc) == Device(s.threads[t]) && (!Device(pc) ==> n.writer == s.writer)
    requires n.readers == s.readers || n.readers == s.readers + {t}
    requires n.log == s.log && n.responses == s.responses && Took(pc) == Took(s.threads[t])
    requires Rank(h, n.tbl, pc) < Rank(h, s.tbl, s.threads[t])
    ensures GoneOn(h, s, n, t)
  {
    hide Rank, Took, Device;
  }

  lemma Effected(h: Key -> nat, s: State, n: State, t: nat, pc: Pc, result: Result)
    requires t in s.threads && n.threads == s.threads[t := pc] && pc.c == s.threads[t].c && !pc.RWait?
    requires Device(pc) == Device(s.threads[t]) && (!Device(pc) ==> n.writer == s.writer) && n.readers == s.readers
    requires n.log == s.log + [Entry(pc.c.id, pc.c.op, result)] && n.responses == s.responses
    requires Took(s.threads[t]) < 0 && Took(pc) == |s.log| && Rank(h, n.tbl, pc) < Rank(h, s.tbl, s.threads[t])
    ensures GoneOn(h, s, n, t)
  {
    hide Rank, Took, Device;
  }

  lemma Answered(h: Key -> nat, s: State, n: State, t: nat, result: Result, upto: nat)
    requires t in s.threads && n.threads == s.threads - {t} && (n.readers == s.readers || n.readers == s.readers - {t})
    requires !Device(s.threads[t]) ==> n.writer == s.writer
    requires var c := s.threads[t].c;
             && n.responses == s.responses + [Response(c.id, c.op, result, c.from, upto)]
             && if Took(s.threads[t]) >= 0 then n.log == s.log && result == ResultAt(s, Took(s.threads[t]))
                else n.log == s.log + [Entry(c.id, c.op, result)]
    ensures GoneOn(h, s, n, t)
  {
    hide Rank, Took, Device;
  }

  /** What a step needs in order to get on. */
  ghost predicate Ready(h: Key -> nat, s: State, pc: Pc, t: nat) {
    var tbl, chains := s.tbl, Permitted(h, s.tbl, pc);
    match pc
    case AddWalk(c, cur) => cur != NULL ==> WalkReady(h, s, c, cur)
    case AddMalloc(c) => c.op.AddOp?
    case AddWait(_, _) => Free(s)
    case AddLinking(_, id) => id in tbl.heap && ChainsOk(h, tbl.heap, tbl.list + [id], chains)
    case SetWait(_, _) => Free(s)
    case SetStore(c, id) => id in tbl.heap && c.op.AddOp?
    case DelWalk(c, cur) => cur != NULL ==> WalkReady(h, s, c, cur)
    case DelWait(_, _) => Free(s)
    case DelUnlinking(_, id) =>
      id in tbl.heap && id in tbl.list && ChainsOk(h, tbl.heap, Without(tbl.list, id), chains)
    case DelUnlock(_, _, _) => true
    case DelFree(_, id, _) => id in tbl.heap && !HeldElsewhere(s, t, id)
    case AllWait(_) => Free(s)
    case AllNext(_, el, tmp) =>
      el != NULL ==>
        && el in tbl.heap && el in tbl.list && !HeldElsewhere(s, t, el) && (tmp == NULL || tmp in tbl.heap)
        && ChainsOk(h, tbl.heap - {el}, Without(tbl.list, el), chains) && |Without(tbl.list, el)| < |tbl.list|
    case WUnlock(_, _) => true
    case RWait(c) => !s.writer && Left(Chain(h, tbl, Address(c.op)), At(Chain(h, tbl, Address(c.op)), 0))
                                  <= |Chain(h, tbl, Address(c.op))|
    case RLook(c, cur) => cur != NULL ==> WalkReady(h, s, c, cur)
    case RGot(_, id) => Readable(s, id)
    case RList(c, el, tmp, _, k) => c.op.KeysOp? && (el != NULL ==> PlaceReady(s, el, tmp, k))
    case RSweep(_, el, tmp, _, k) => el != NULL ==> PlaceReady(s, el, tmp, k)
    case RUnlock(_, _) => true
  }

  ghost predicate WalkReady(h: Key -> nat, s: State, c: Call, cur: nat) {
    var ch := Chain(h, s.tbl, Address(c.op));
    Readable(s, cur) && Left(ch, Next(ch, cur)) < Left(ch, cur)
  }

  ghost predicate PlaceReady(s: State, el: nat, tmp: nat, k: nat) {
    Readable(s, el) && (tmp == NULL || Readable(s, tmp)) && k < |s.tbl.list|
  }

  lemma WalkEndStep(h: Key -> nat, s: State, t: nat)
    requires t in s.threads && (s.threads[t].AddWalk? || s.threads[t].DelWalk?) && s.threads[t].cur == NULL
    ensures var c := s.threads[t].c;
            DeviceStep(h, s, t, true, [])
            == if s.threads[t].AddWalk? then To(s, t, AddMalloc(c)) else Answer(Effect(s, c, Code(-1)), t, c, Code(-1))
  {
    hide To, Answer, Effect;
  }

  lemma WalkEndGoes(h: Key -> nat, s: State, t: nat)
    requires t in s.threads && (s.threads[t].AddWalk? || s.threads[t].DelWalk?) && s.threads[t].cur == NULL
    ensures GoneOn(h, s, DeviceStep(h, s, t, true, []), t)
  {
    WalkEndStep(h, s, t);
    hide DeviceStep, GoneOn, Left, Chain;
    var pc, n := s.threads[t], DeviceStep(h, s, t, true, []);
    if pc.AddWalk? {
      Moved(h, s, n, t, AddMalloc(pc.c));
    } else {
      Answered(h, s, n, t, Code(-1), |s.log| + 1);
    }
  }

  lemma WalkOnStep(h: Key -> nat, s: State, t: nat)
    requires t in s.threads && (s.threads[t].AddWalk? || s.threads[t].DelWalk?) && s.threads[t].cur != NULL
    requires Ready(h, s, s.threads[t], t)
    ensures var pc := s.threads[t];
            DeviceStep(h, s, t, true, [])
            == if s.tbl.heap[pc.cur].address == Address(pc.c.op) then
                 To(s, t, if pc.AddWalk? then SetWait(pc.c, pc.cur) else DelWait(pc.c, pc.cur))
               else
                 var next := Next(Chain(h, s.tbl, Address(pc.c.op)), pc.cur);
                 To(s, t, if pc.AddWalk? then AddWalk(pc.c, next) else DelWalk(pc.c, next))
  {
    hide To, Answer, Effect, Left, Next;
  }

  lemma WalkOnGoes(h: Key -> nat, s: State, t: nat)
    requires t in s.threads && (s.threads[t].AddWalk? || s.threads[t].DelWalk?) && s.threads[t].cur != NULL
    requires Ready(h, s, s.threads[t], t)
    ensures GoneOn(h, s, DeviceStep(h, s, t, true, []), t)
  {
    WalkOnStep(h, s, t);
    hide DeviceStep, GoneOn, Left, Chain, Next;
    var pc, n := s.threads[t], DeviceStep(h, s, t, true, []);
    var next := Next(Chain(h, s.tbl, Address(pc.c.op)), pc.cur);
    if s.tbl.heap[pc.cur].address == Address(pc.c.op) {
      Moved(h, s, n, t, if pc.AddWalk? then SetWait(pc.c, pc.cur) else DelWait(pc.c, pc.cur));
    } else {
      Moved(h, s, n, t, if pc.AddWalk? then AddWalk(pc.c, next) else DelWalk(pc.c, next));
    }
  }

  lemma MallocStep(h: Key -> nat, s: State, t: nat)
    requires t in s.threads && s.threads[t].AddMalloc? && Ready(h, s, s.threads[t], t)
    ensures var pc := s.threads[t];
            DeviceStep(h, s, t, true, [])
            == To(s.(tbl := s.tbl.(heap := s.tbl.heap[s.nextId := Cell(pc.c.op.address, pc.c.op.kind, false)]),
                     nextId := s.nextId + 1), t, AddWait(pc.c, s.nextId))
  {
    hide To, Answer, Effect, Left;
  }

  lemma MallocGoes(h: Key -> nat, s: State, t: nat)
    requires t in s.threads && s.threads[t].AddMalloc? && Ready(h, s, s.threads[t], t)
    ensures GoneOn(h, s, DeviceStep(h, s, t, true, []), t)
  {
    MallocStep(h, s, t);
    hide DeviceStep, GoneOn, Left, Chain;
    var pc, n := s.threads[t], DeviceStep(h, s, t, true, []);
    Moved(h, s, n, t, AddWait(pc.c, s.nextId));
  }

  lemma WaitStep(h: Key -> nat, s: State, t: nat)
    requires t in s.threads && (s.threads[t].AddWait? || s.threads[t].SetWait? || s.threads[t].DelWait?)
    requires Ready(h, s, s.threads[t], t)
    ensures var pc := s.threads[t];
            DeviceStep(h, s, t, true, [])
            == match pc
               case AddWait(c, id) => LockTorn(To(s, t, AddLinking(c, id)))
               case SetWait(c, id) => Lock(To(s, t, SetStore(c, id)))
               case _ => LockTorn(To(s, t, DelUnlinking(pc.c, pc.id)))
  {
    hide To, Answer, Effect, Left;
  }

  lemma WaitGoes(h: Key -> nat, s: State, t: nat)
    requires t in s.threads && (s.threads[t].AddWait? || s.threads[t].SetWait? || s.threads[t].DelWait?)
    requires Ready(h, s, s.threads[t], t)
    ensures GoneOn(h, s, DeviceStep(h, s, t, true, []), t)
  {
    WaitStep(h, s, t);
    hide DeviceStep, GoneOn, Left, Chain;
    var pc, n := s.threads[t], DeviceStep(h, s, t, true, []);
    Moved(h, s, n, t, if pc.AddWait? then AddLinking(pc.c, pc.id)
                      else if pc.SetWait? then SetStore(pc.c, pc.id) else DelUnlinking(pc.c, pc.id));
  }

  lemma AllWaitStep(h: Key -> nat, s: State, t: nat)
    requires t in s.threads && s.threads[t].AllWait? && Ready(h, s, s.threads[t], t)
    ensures var pc := s.threads[t];
            DeviceStep(h, s, t, true, [])
            == Lock(To(s, t, AllNext(pc.c, At(s.tbl.list, 0), Next(s.tbl.list, At(s.tbl.list, 0)))))
  {
    hide To, Answer, Effect, Left, Next;
  }

  lemma AllWaitGoes(h: Key -> nat, s: State, t: nat)
    requires t in s.threads && s.threads[t].AllWait? && Ready(h, s, s.threads[t], t)
    ensures GoneOn(h, s, DeviceStep(h, s, t, true, []), t)
  {
    AllWaitStep(h, s, t);
    hide DeviceStep, GoneOn, Left, Chain, Next;
    var pc, n := s.threads[t], DeviceStep(h, s, t, true, []);
    Moved(h, s, n, t, AllNext(pc.c, At(s.tbl.list, 0), Next(s.tbl.list, At(s.tbl.list, 0))));
  }

  lemma LinkStep(h: Key -> nat, s: State, t: nat)
    requires t in s.threads && s.threads[t].AddLinking? && Ready(h, s, s.threads[t], t)
    ensures var pc := s.threads[t];
            DeviceStep(h, s, t, true, Permitted(h, s.tbl, s.threads[t]))
            == To(Effect(s.(tbl := s.tbl.(list := s.tbl.list + [pc.id], chains := Permitted(h, s.tbl, pc)),
                            torn := false), pc.c, Code(0)), t, WUnlock(pc.c, |s.log|))
  {
    hide To, Answer, Effect, Left, Permitted, ChainsOk;
  }

  lemma LinkGoes(h: Key -> nat, s: State, t: nat)
    requires t in s.threads && s.threads[t].AddLinking? && Ready(h, s, s.threads[t], t)
    ensures GoneOn(h, s, DeviceStep(h, s, t, true, Permitted(h, s.tbl, s.threads[t])), t)
  {
    LinkStep(h, s, t);
    hide DeviceStep, GoneOn, Left, Chain, Permitted, ChainsOk;
    var pc, n := s.threads[t], DeviceStep(h, s, t, true, Permitted(h, s.tbl, s.threads[t]));
    Effected(h, s, n, t, WUnlock(pc.c, |s.log|), Code(0));
  }

  lemma StoreStep(h: Key -> nat, s: State, t: nat)
    requires t in s.threads && s.threads[t].SetStore? && Ready(h, s, s.threads[t], t)
    ensures var pc := s.threads[t];
            DeviceStep(h, s, t, true, [])
            == To(Effect(s.(tbl := Stored(s.tbl, pc.id, s.tbl.heap[pc.id].(kind := pc.c.op.kind))), pc.c, Code(0)),
                  t, WUnlock(pc.c, |s.log|))
  {
    hide To, Answer, Effect, Left;
  }

  lemma StoreGoes(h: Key -> nat, s: State, t: nat)
    requires t in s.threads && s.threads[t].SetStore? && Ready(h, s, s.threads[t], t)
    ensures GoneOn(h, s, DeviceStep(h, s, t, true, []), t)
  {
    StoreStep(h, s, t);
    hide DeviceStep, GoneOn, Left, Chain;
    var pc, n := s.threads[t], DeviceStep(h, s, t, true, []);
    Effected(h, s, n, t, WUnlock(pc.c, |s.log|), Code(0));
  }

  lemma UnlinkStep(h: Key -> nat, s: State, t: nat)
    requires t in s.threads && s.threads[t].DelUnlinking? && Ready(h, s, s.threads[t], t)
    ensures var pc := s.threads[t];
            DeviceStep(h, s, t, true, Permitted(h, s.tbl, s.threads[t]))
            == To(Effect(s.(tbl := s.tbl.(list := Without(s.tbl.list, pc.id), chains := Permitted(h, s.tbl, pc)),
                            torn := false), pc.c, Code(0)), t, DelUnlock(pc.c, pc.id, |s.log|))
  {
    hide To, Answer, Effect, Left, Permitted, ChainsOk, Without;
  }

  lemma UnlinkGoes(h: Key -> nat, s: State, t: nat)
    requires t in s.threads && s.threads[t].DelUnlinking? && Ready(h, s, s.threads[t], t)
    ensures GoneOn(h, s, DeviceStep(h, s, t, true, Permitted(h, s.tbl, s.threads[t])), t)
  {
    UnlinkStep(h, s, t);
    hide DeviceStep, GoneOn, Left, Chain, Permitted, ChainsOk, Without;
    var pc, n := s.threads[t], DeviceStep(h, s, t, true, Permitted(h, s.tbl, s.threads[t]));
    Effected(h, s, n, t, DelUnlock(pc.c, pc.id, |s.log|), Code(0));
  }

  lemma LeaveStep(h: Key -> nat, s: State, t: nat)
    requires t in s.threads && (s.threads[t].DelUnlock? || s.threads[t].DelFree? || s.threads[t].WUnlock?)
    requires Ready(h, s, s.threads[t], t)
    ensures var pc := s.threads[t];
            DeviceStep(h, s, t, true, [])
            == match pc
               case DelUnlock(c, id, at) => To(s.(writer := false), t, DelFree(c, id, at))
               case DelFree(c, id, at) => Answer(s.(tbl := s.tbl.(heap := s.tbl.heap - {id})), t, c, ResultAt(s, at))
               case _ => Answer(s.(writer := false), t, pc.c, ResultAt(s, pc.at))
  {
    hide To, Answer, Effect, Left, HeldElsewhere, ResultAt;
  }

  lemma LeaveGoes(h: Key -> nat, s: State, t: nat)
    requires t in s.threads && (s.threads[t].DelUnlock? || s.threads[t].DelFree? || s.threads[t].WUnlock?)
    requires Ready(h, s, s.threads[t], t)
    ensures GoneOn(h, s, DeviceStep(h, s, t, true, []), t)
  {
    LeaveStep(h, s, t);
    hide DeviceStep, GoneOn, Left, Chain, HeldElsewhere, ResultAt;
    var pc, n := s.threads[t], DeviceStep(h, s, t, true, []);
    if pc.DelUnlock? {
      Moved(h, s, n, t, DelFree(pc.c, pc.id, pc.at));
    } else {
      Answered(h, s, n, t, ResultAt(s, pc.at), |s.log|);
    }
  }

  lemma AllStep(h: Key -> nat, s: State, t: nat)
    requires t in s.threads && s.threads[t].AllNext? && Ready(h, s, s.threads[t], t)
    ensures var pc := s.threads[t];
            DeviceStep(h, s, t, true, Permitted(h, s.tbl, s.threads[t]))
            == if pc.el == NULL then To(Effect(s, pc.c, Code(0)), t, WUnlock(pc.c, |s.log|))
               else
                 var list := Without(s.tbl.list, pc.el);
                 To(s.(tbl := Table(s.tbl.heap - {pc.el}, list, Permitted(h, s.tbl, pc))), t,
                    AllNext(pc.c, pc.tmp, if pc.tmp == NULL then NULL else Next(list, pc.tmp)))
  {
    hide To, Answer, Effect, Left, Permitted, ChainsOk, Without, HeldElsewhere, Next;
  }

  lemma AllGoes(h: Key -> nat, s: State, t: nat)
    requires t in s.threads && s.threads[t].AllNext? && Ready(h, s, s.threads[t], t)
    ensures GoneOn(h, s, DeviceStep(h, s, t, true, Permitted(h, s.tbl, s.threads[t])), t)
  {
    AllStep(h, s, t);
    hide DeviceStep, GoneOn, Left, Chain, Permitted, ChainsOk, Without, HeldElsewhere, Next;
    var pc, n := s.threads[t], DeviceStep(h, s, t, true, Permitted(h, s.tbl, s.threads[t]));
    if pc.el == NULL {
      Effected(h, s, n, t, WUnlock(pc.c, |s.log|), Code(0));
    } else {
      var list := Without(s.tbl.list, pc.el);
      Moved(h, s, n, t, AllNext(pc.c, pc.tmp, if pc.tmp == NULL then NULL else Next(list, pc.tmp)));
    }
  }

  /** Where a call that reads the table begins. */
  function Entered(h: Key -> nat, tbl: Table, c: Call): Pc {
    var first := At(tbl.list, 0);
    match c.op
    case SweepOp => RSweep(c, first, Next(tbl.list, first), [], 0)
    case KeysOp(_, _) => RList(c, first, Next(tbl.list, first), [], 0)
    case _ => RLook(c, At(Chain(h, tbl, Address(c.op)), 0))
  }

  lemma EnterStep(h: Key -> nat, s: State, t: nat)
    requires t in s.threads && s.threads[t].RWait? && Ready(h, s, s.threads[t], t)
    ensures var pc := s.threads[t];
            ReaderStep(h, s, t, true)
            == To(s, t, Entered(h, s.tbl, pc.c)).(readers := s.readers + {t})
  {
    hide To, Answer, Effect, Left, Next;
  }

  lemma EnterGoes(h: Key -> nat, s: State, t: nat)
    requires t in s.threads && s.threads[t].RWait? && Ready(h, s, s.threads[t], t)
    ensures GoneOn(h, s, ReaderStep(h, s, t, true), t)
  {
    EnterStep(h, s, t);
    hide ReaderStep, GoneOn, Left, Chain, Next;
    var pc, n := s.threads[t], ReaderStep(h, s, t, true);
    Moved(h, s, n, t, Entered(h, s.tbl, pc.c));
  }

  lemma LookStep(h: Key -> nat, s: State, t: nat)
    requires t in s.threads && s.threads[t].RLook? && Ready(h, s, s.threads[t], t)
    ensures var pc := s.threads[t];
            ReaderStep(h, s, t, true)
            == if pc.cur == NULL then To(Effect(s, pc.c, Kind(65535)), t, RUnlock(pc.c, |s.log|))
               else if s.tbl.heap[pc.cur].address == Address(pc.c.op) then To(s, t, RGot(pc.c, pc.cur))
               else To(s, t, RLook(pc.c, Next(Chain(h, s.tbl, Address(pc.c.op)), pc.cur)))
  {
    hide To, Answer, Effect, Left, Next;
  }

  lemma LookGoes(h: Key -> nat, s: State, t: nat)
    requires t in s.threads && s.threads[t].RLook? && Ready(h, s, s.threads[t], t)
    ensures GoneOn(h, s, ReaderStep(h, s, t, true), t)
  {
    LookStep(h, s, t);
    hide ReaderStep, GoneOn, Left, Chain, Next;
    var pc, n := s.threads[t], ReaderStep(h, s, t, true);
    if pc.cur == NULL {
      Effected(h, s, n, t, RUnlock(pc.c, |s.log|), Kind(65535));
    } else {
      var next := Next(Chain(h, s.tbl, Address(pc.c.op)), pc.cur);
      Moved(h, s, n, t,
            if s.tbl.heap[pc.cur].address == Address(pc.c.op) then RGot(pc.c, pc.cur) else RLook(pc.c, next));
    }
  }

  lemma FoundStep(h: Key -> nat, s: State, t: nat)
    requires t in s.threads && s.threads[t].RGot? && Ready(h, s, s.threads[t], t)
    ensures var pc := s.threads[t];
            ReaderStep(h, s, t, true)
            == var cell := s.tbl.heap[pc.id];
               var n := if pc.c.op.MarkOp? then s.(tbl := Stored(s.tbl, pc.id, cell.(flag := true))) else s;
               To(Effect(n, pc.c, Kind(cell.kind)), t, RUnlock(pc.c, |s.log|))
  {
    hide To, Answer, Effect, Left;
  }

  lemma FoundGoes(h: Key -> nat, s: State, t: nat)
    requires t in s.threads && s.threads[t].RGot? && Ready(h, s, s.threads[t], t)
    ensures GoneOn(h, s, ReaderStep(h, s, t, true), t)
  {
    FoundStep(h, s, t);
    hide ReaderStep, GoneOn, Left, Chain;
    var pc, n := s.threads[t], ReaderStep(h, s, t, true);
    Effected(h, s, n, t, RUnlock(pc.c, |s.log|), Kind(s.tbl.heap[pc.id].kind));
  }

  lemma ReturnStep(h: Key -> nat, s: State, t: nat)
    requires t in s.threads && s.threads[t].RUnlock? && Ready(h, s, s.threads[t], t)
    ensures var pc := s.threads[t];
            ReaderStep(h, s, t, true)
            == Answer(s.(readers := s.readers - {t}), t, pc.c, ResultAt(s, pc.at))
  {
    hide To, Answer, Effect, Left, ResultAt;
  }

  lemma ReturnGoes(h: Key -> nat, s: State, t: nat)
    requires t in s.threads && s.threads[t].RUnlock? && Ready(h, s, s.threads[t], t)
    ensures GoneOn(h, s, ReaderStep(h, s, t, true), t)
  {
    ReturnStep(h, s, t);
    hide ReaderStep, GoneOn, Left, Chain, ResultAt;
    var pc, n := s.threads[t], ReaderStep(h, s, t, true);
    Answered(h, s, n, t, ResultAt(s, pc.at), |s.log|);
  }

  /** What a listing has found when it has looked at its present entry. */
  ghost function More(tbl: Table, pc: Pc): seq<Key>
    requires pc.RList? && pc.el in tbl.heap && pc.c.op.KeysOp?
  {
    var cell := tbl.heap[pc.el];
    if cell.kind == pc.c.op.kind then pc.found + [cell.address] else pc.found
  }

  lemma ListStep(h: Key -> nat, s: State, t: nat)
    requires t in s.threads && s.threads[t].RList? && Ready(h, s, s.threads[t], t)
    ensures var pc := s.threads[t];
            ReaderStep(h, s, t, true)
            == if pc.el == NULL then To(Effect(s, pc.c, Keys(pc.found)), t, RUnlock(pc.c, |s.log|))
               else if s.tbl.heap[pc.el].kind == pc.c.op.kind && |More(s.tbl, pc)| == pc.c.op.rows then
                 To(Effect(s, pc.c, Keys(More(s.tbl, pc))), t, RUnlock(pc.c, |s.log|))
               else
                 var next := if pc.tmp == NULL then NULL else Next(s.tbl.list, pc.tmp);
                 To(s, t, RList(pc.c, pc.tmp, next, More(s.tbl, pc), pc.k + 1))
  {
    hide To, Answer, Effect, Left, Next;
  }

  lemma ListGoes(h: Key -> nat, s: State, t: nat)
    requires t in s.threads && s.threads[t].RList? && Ready(h, s, s.threads[t], t)
    ensures GoneOn(h, s, ReaderStep(h, s, t, true), t)
  {
    ListStep(h, s, t);
    hide ReaderStep, GoneOn, Left, Chain, Next;
    var pc, n := s.threads[t], ReaderStep(h, s, t, true);
    if pc.el == NULL {
      Effected(h, s, n, t, RUnlock(pc.c, |s.log|), Keys(pc.found));
    } else if s.tbl.heap[pc.el].kind == pc.c.op.kind && |More(s.tbl, pc)| == pc.c.op.rows {
      Effected(h, s, n, t, RUnlock(pc.c, |s.log|), Keys(More(s.tbl, pc)));
    } else {
      var next := if pc.tmp == NULL then NULL else Next(s.tbl.list, pc.tmp);
      Moved(h, s, n, t, RList(pc.c, pc.tmp, next, More(s.tbl, pc), pc.k + 1));
    }
  }

  lemma SweepStep(h: Key -> nat, s: State, t: nat)
    requires t in s.threads && s.threads[t].RSweep? && Ready(h, s, s.threads[t], t)
    ensures var pc := s.threads[t];
            ReaderStep(h, s, t, true)
            == if pc.el == NULL then To(Effect(s, pc.c, Keys(pc.reported)), t, RUnlock(pc.c, |s.log|))
               else
                 var cell, next := s.tbl.heap[pc.el], if pc.tmp == NULL then NULL else Next(s.tbl.list, pc.tmp);
                 if cell.flag then
                   To(s.(tbl := Stored(s.tbl, pc.el, cell.(flag := false))), t,
                      RSweep(pc.c, pc.tmp, next, pc.reported, pc.k + 1))
                 else
                   To(s, t, RSweep(pc.c, pc.tmp, next, pc.reported + [cell.address], pc.k + 1))
  {
    hide To, Answer, Effect, Left, Next;
  }

  lemma SweepGoes(h: Key -> nat, s: State, t: nat)
    requires t in s.threads && s.threads[t].RSweep? && Ready(h, s, s.threads[t], t)
    ensures GoneOn(h, s, ReaderStep(h, s, t, true), t)
  {
    SweepStep(h, s, t);
    hide ReaderStep, GoneOn, Left, Chain, Next;
    var pc, n := s.threads[t], ReaderStep(h, s, t, true);
    if pc.el == NULL {
      Effected(h, s, n, t, RUnlock(pc.c, |s.log|), Keys(pc.reported));
    } else {
      var cell, next := s.tbl.heap[pc.el], if pc.tmp == NULL then NULL else Next(s.tbl.list, pc.tmp);
      var more := if cell.flag then pc.reported else pc.reported + [cell.address];
      Moved(h, s, n, t, RSweep(pc.c, pc.tmp, next, more, pc.k + 1));
    }
  }

  lemma AtPlace(h: Key -> nat, tbl: Table, pc: Pc)
    requires TableOk(h, tbl) && PcOk(h, tbl, pc) && (pc.RList? || pc.RSweep?)
    ensures pc.el != NULL ==> pc.el in tbl.heap && pc.k < |tbl.list|
    ensures pc.tmp != NULL ==> pc.tmp in tbl.heap
    ensures pc.RList? ==> pc.c.op.KeysOp?
  {
    TableFacts(h, tbl);
    hide TableOk, OfKind, Snapshot;
  }

  // Why every thread that nobody is in the way of is ready.

  lemma WalkIsReady(h: Key -> nat, s: State, t: nat, cur: nat)
    requires Inv(h, s) && t in s.threads && cur != NULL && !s.torn
    requires Walking(h, s.tbl, Address(s.threads[t].c.op), cur)
    ensures WalkReady(h, s, s.threads[t].c, cur)
  {
    hide Inv, Left, Chain, Next, Walking, TableOk, Position, Legal, ContentsOk, SweepOk, LockOk, CallOk, IdsOk, PcOk;
    var a := Address(s.threads[t].c.op);
    ThreadFacts(h, s, t);
    WalkMember(h, s.tbl, a, cur);
    WalkShorter(h, s.tbl, a, cur);
  }

  lemma DeviceWalkIsReady(h: Key -> nat, s: State, t: nat)
    requires Inv(h, s) && t in s.threads && (s.threads[t].AddWalk? || s.threads[t].DelWalk?)
    ensures Ready(h, s, s.threads[t], t)
  {
    hide Inv, Legal, ContentsOk, SweepOk, LockOk, OfKind, Snapshot, CallOk, IdsOk, TableOk, Walking, Position;
    hide WalkReady, Chain;
    ThreadFacts(h, s, t);
    if s.threads[t].cur != NULL {
      WalkIsReady(h, s, t, s.threads[t].cur);
    }
  }

  lemma LinkIsReady(h: Key -> nat, s: State, t: nat)
    requires Inv(h, s) && t in s.threads && s.threads[t].AddLinking?
    ensures Ready(h, s, s.threads[t], t)
  {
    hide Inv, Legal, ContentsOk, SweepOk, LockOk, OfKind, Snapshot, CallOk, IdsOk, TableOk, Walking, Position;
    hide ChainsOk, NoAddr;
    ThreadFacts(h, s, t);
    CanLink(h, s.tbl, s.threads[t].c.op, s.threads[t].id);
    SomeChains(h, s.tbl);
  }

  lemma UnlinkIsReady(h: Key -> nat, s: State, t: nat)
    requires Inv(h, s) && t in s.threads && s.threads[t].DelUnlinking?
    ensures Ready(h, s, s.threads[t], t)
  {
    hide Inv, Legal, ContentsOk, SweepOk, LockOk, OfKind, Snapshot, CallOk, IdsOk, TableOk, Walking, Position;
    hide ChainsOk, Without, WithoutAll;
    ThreadFacts(h, s, t);
    CanUnlink(h, s.tbl, s.threads[t].id);
  }

  lemma FreeIsReady(h: Key -> nat, s: State, t: nat)
    requires Inv(h, s) && t in s.threads && s.threads[t].DelFree?
    ensures Ready(h, s, s.threads[t], t)
  {
    hide Inv, Legal, ContentsOk, SweepOk, LockOk, OfKind, Snapshot, CallOk, IdsOk, TableOk, Walking, Position;
    hide HeldElsewhere;
    ThreadFacts(h, s, t);
    FreedIsUnheld(h, s, t, s.threads[t].id);
  }

  lemma AllIsReady(h: Key -> nat, s: State, t: nat)
    requires Inv(h, s) && t in s.threads && s.threads[t].AllNext?
    ensures Ready(h, s, s.threads[t], t)
  {
    hide Inv, Legal, ContentsOk, SweepOk, LockOk, OfKind, Snapshot, CallOk, IdsOk, TableOk, Walking, Position;
    hide ChainsOk, Without, WithoutAll, HeldElsewhere;
    ThreadFacts(h, s, t);
    var pc, tbl := s.threads[t], s.tbl;
    TableFacts(h, tbl);
    if pc.el != NULL {
      FreedIsUnheld(h, s, t, pc.el);
      CanUnlink(h, tbl, pc.el);
      WithoutAt(tbl.list, pc.el);
    }
  }

  lemma StoreIsReady(h: Key -> nat, s: State, t: nat)
    requires Inv(h, s) && t in s.threads && s.threads[t].SetStore?
    ensures Ready(h, s, s.threads[t], t)
  {
    hide Inv, Legal, ContentsOk, SweepOk, LockOk, OfKind, Snapshot, CallOk, IdsOk, TableOk, Walking, Position;
    hide NoAddr;
    ThreadFacts(h, s, t);
  }

  lemma MallocIsReady(h: Key -> nat, s: State, t: nat)
    requires Inv(h, s) && t in s.threads && s.threads[t].AddMalloc?
    ensures Ready(h, s, s.threads[t], t)
  {
    hide Inv, Legal, ContentsOk, SweepOk, LockOk, OfKind, Snapshot, CallOk, IdsOk, TableOk, Walking, Position;
    hide NoAddr;
    ThreadFacts(h, s, t);
  }

  lemma WaitIsReady(h: Key -> nat, s: State, t: nat)
    requires Inv(h, s) && t in s.threads && Unblocked(s, t)
    requires var pc := s.threads[t]; pc.AddWait? || pc.SetWait? || pc.DelWait? || pc.AllWait?
    ensures Ready(h, s, s.threads[t], t)
  {
    hide Inv, Legal, ContentsOk, SweepOk, LockOk, OfKind, Snapshot, CallOk, IdsOk, TableOk, Walking, Position;
    hide PcOk;
    ThreadFacts(h, s, t);
  }

  lemma DeviceIsReady(h: Key -> nat, s: State, t: nat)
    requires Inv(h, s) && t in s.threads && Device(s.threads[t]) && Unblocked(s, t)
    ensures Ready(h, s, s.threads[t], t)
  {
    hide Inv, Ready, Unblocked;
    match s.threads[t]
    case AddWalk(_, _) => DeviceWalkIsReady(h, s, t);
    case DelWalk(_, _) => DeviceWalkIsReady(h, s, t);
    case AddMalloc(_) => MallocIsReady(h, s, t);
    case AddLinking(_, _) => LinkIsReady(h, s, t);
    case SetStore(_, _) => StoreIsReady(h, s, t);
    case DelUnlinking(_, _) => UnlinkIsReady(h, s, t);
    case DelFree(_, _, _) => FreeIsReady(h, s, t);
    case AllNext(_, _, _) => AllIsReady(h, s, t);
    case DelUnlock(_, _, _) => LeaveIsReady(h, s, t);
    case WUnlock(_, _) => LeaveIsReady(h, s, t);
    case AddWait(_, _) => WaitIsReady(h, s, t);
    case SetWait(_, _) => WaitIsReady(h, s, t);
    case DelWait(_, _) => WaitIsReady(h, s, t);
    case AllWait(_) => WaitIsReady(h, s, t);
  }

  lemma LeaveIsReady(h: Key -> nat, s: State, t: nat)
    requires t in s.threads && (s.threads[t].DelUnlock? || s.threads[t].WUnlock? || s.threads[t].RUnlock?)
    ensures Ready(h, s, s.threads[t], t)
  {
    hide Chain, Position, Without, ChainsOk;
  }

  lemma SomeChains(h: Key -> nat, tbl: Table)
    requires TableOk(h, tbl)
    ensures |tbl.chains| > 0
  {
  }

  lemma LookIsReady(h: Key -> nat, s: State, t: nat)
    requires Inv(h, s) && t in s.threads && s.threads[t].RLook?
    ensures Ready(h, s, s.threads[t], t)
  {
    hide Inv, Legal, ContentsOk, SweepOk, LockOk, OfKind, Snapshot, CallOk, IdsOk, TableOk, Walking, Position;
    hide WalkReady, Chain;
    ThreadFacts(h, s, t);
    if s.threads[t].cur != NULL {
      WalkIsReady(h, s, t, s.threads[t].cur);
    }
  }

  lemma GotIsReady(h: Key -> nat, s: State, t: nat)
    requires Inv(h, s) && t in s.threads && s.threads[t].RGot?
    ensures Ready(h, s, s.threads[t], t)
  {
    hide Inv, Legal, ContentsOk, SweepOk, LockOk, OfKind, Snapshot, CallOk, IdsOk, TableOk, Walking, Position;
    hide Chain;
    ThreadFacts(h, s, t);
    TableFacts(h, s.tbl);
  }

  lemma ListIsReady(h: Key -> nat, s: State, t: nat)
    requires Inv(h, s) && t in s.threads && (s.threads[t].RList? || s.threads[t].RSweep?)
    ensures Ready(h, s, s.threads[t], t)
  {
    hide Inv, Legal, ContentsOk, SweepOk, LockOk, OfKind, Snapshot, CallOk, IdsOk, TableOk, Walking, Position;
    hide Chain, PcOk;
    ThreadFacts(h, s, t);
    AtPlace(h, s.tbl, s.threads[t]);
  }

  lemma EnterIsReady(h: Key -> nat, s: State, t: nat)
    requires t in s.threads && s.threads[t].RWait? && Unblocked(s, t)
    ensures Ready(h, s, s.threads[t], t)
  {
    hide Chain;
  }

  lemma ReaderIsReady(h: Key -> nat, s: State, t: nat)
    requires Inv(h, s) && t in s.threads && !Device(s.threads[t]) && Unblocked(s, t)
    ensures Ready(h, s, s.threads[t], t)
  {
    hide Inv, Ready, Unblocked;
    match s.threads[t]
    case RWait(_) => EnterIsReady(h, s, t);
    case RLook(_, _) => LookIsReady(h, s, t);
    case RGot(_, _) => GotIsReady(h, s, t);
    case RList(_, _, _, _, _) => ListIsReady(h, s, t);
    case RSweep(_, _, _, _, _) => ListIsReady(h, s, t);
    case RUnlock(_, _) => LeaveIsReady(h, s, t);
  }

  /** A thread that nobody is in the way of, and to which nothing is refused, goes on. */
  lemma GoesOn(h: Key -> nat, s: State, t: nat)
    requires Inv(h, s) && t in s.threads && Unblocked(s, t)
    ensures GoneOn(h, s, Step(h, s, Goes(t, true, Permitted(h, s.tbl, s.threads[t]))), t)
  {
    hide Inv, DeviceStep, ReaderStep, GoneOn, Ready;
    if Device(s.threads[t]) {
      DeviceIsReady(h, s, t);
    } else {
      ReaderIsReady(h, s, t);
    }
    match s.threads[t]
    case AddWalk(_, cur) =>
      if cur == NULL {
        WalkEndGoes(h, s, t);
      } else {
        WalkOnGoes(h, s, t);
      }
    case DelWalk(_, cur) =>
      if cur == NULL {
        WalkEndGoes(h, s, t);
      } else {
        WalkOnGoes(h, s, t);
      }
    case AddMalloc(_) => MallocGoes(h, s, t);
    case AddWait(_, _) => WaitGoes(h, s, t);
    case SetWait(_, _) => WaitGoes(h, s, t);
    case DelWait(_, _) => WaitGoes(h, s, t);
    case AllWait(_) => AllWaitGoes(h, s, t);
    case AddLinking(_, _) => LinkGoes(h, s, t);
    case SetStore(_, _) => StoreGoes(h, s, t);
    case DelUnlinking(_, _) => UnlinkGoes(h, s, t);
    case DelUnlock(_, _, _) => LeaveGoes(h, s, t);
    case DelFree(_, _, _) => LeaveGoes(h, s, t);
    case WUnlock(_, _) => LeaveGoes(h, s, t);
    case AllNext(_, _, _) => AllGoes(h, s, t);
    case RWait(_) => EnterGoes(h, s, t);
    case RLook(_, _) => LookGoes(h, s, t);
    case RGot(_, _) => FoundGoes(h, s, t);
    case RUnlock(_, _) => ReturnGoes(h, s, t);
    case RList(_, _, _, _, _) => ListGoes(h, s, t);
    case RSweep(_, _, _, _, _) => SweepGoes(h, s, t);
  }

  // ----- and is answered ----------------------------------------------------------------------

  /** All the events are steps of thread `t` in which nothing is refused. */
  ghost predicate Alone(evs: seq<Event>, t: nat) {
    forall i {:trigger evs[i]} | 0 <= i < |evs| :: evs[i].Goes? && evs[i].t == t && evs[i].ok
  }

  /** Thread `t` has left its call with an answer: that of the call's place in the log. All
      other threads are where they were. */
  ghost predicate Done(s: State, e: State, t: nat)
    requires t in s.threads
  {
    var pc := s.threads[t];
    && e.threads == s.threads - {t} && (forall u | u != t :: u in e.readers <==> u in s.readers)
    && (!Device(pc) ==> e.writer == s.writer)
    && |e.responses| == |s.responses| + 1 && s.responses <= e.responses
    && var r := e.responses[|s.responses|];
       && r.call == pc.c.id && r.op == pc.c.op
       && if Took(pc) >= 0 then e.log == s.log && r.result == ResultAt(s, Took(pc))
          else e.log == s.log + [Entry(pc.c.id, pc.c.op, r.result)]
  }

  lemma StaysUnblocked(h: Key -> nat, s: State, n: State, t: nat)
    requires Inv(h, s) && Inv(h, n) && t in s.threads && t in n.threads && Unblocked(s, t) && GoneOn(h, s, n, t)
    ensures Unblocked(n, t)
  {
    ThreadFacts(h, n, t);
    assert t in n.readers <==> HoldsRead(n.threads[t]) by { assert LockOk(n); }
    hide Inv, TableOk, Legal, ContentsOk, SweepOk, LockOk, CallOk, PcOk, Rank;
    if Device(n.threads[t]) {
      assert t !in n.readers;
      assert n.readers == {};
    }
  }

  lemma LastStep(h: Key -> nat, s: State, n: State, t: nat)
    requires t in s.threads && t !in n.threads && GoneOn(h, s, n, t)
    ensures Done(s, n, t)
  {
    hide Rank, Took, Device;
    assert n.threads == s.threads - {t};
  }

  lemma FirstSteps(h: Key -> nat, s: State, n: State, e: State, t: nat)
    requires t in s.threads && t in n.threads && GoneOn(h, s, n, t) && Done(n, e, t)
    ensures Done(s, e, t)
  {
    hide Rank, Device;
    assert e.threads == s.threads - {t};
    var r, pc, pc' := e.responses[|s.responses|], s.threads[t], n.threads[t];
    if Took(pc) < 0 && Took(pc') >= 0 {
      assert r.result == n.log[|s.log|].result;
    }
  }

  /** A thread that nobody is in the way of finishes its call, when it is refused nothing. */
  lemma {:induction false} Finishes(h: Key -> nat, s: State, t: nat) returns (evs: seq<Event>)
    requires Inv(h, s) && t in s.threads && Unblocked(s, t)
    ensures Alone(evs, t) && Inv(h, Run(h, s, evs)) && Done(s, Run(h, s, evs), t)
    decreases Rank(h, s.tbl, s.threads[t])
  {
    hide Inv, Step, Unblocked, Done, Permitted, Rank, GoneOn, Alone, Run;
    var ev := Goes(t, true, Permitted(h, s.tbl, s.threads[t]));
    var n := Step(h, s, ev);
    GoesOn(h, s, t);
    StepInv(h, s, ev);
    if t in n.threads {
      StaysUnblocked(h, s, n, t);
      SmallerRank(h, s, n, t);
      var rest := Finishes(h, n, t);
      FirstSteps(h, s, n, Run(h, n, rest), t);
      evs := [ev] + rest;
      RunFirst(h, s, ev, rest, t);
    } else {
      LastStep(h, s, n, t);
      evs := [ev] + [];
      RunFirst(h, s, ev, [], t);
    }
  }

  lemma RunFirst(h: Key -> nat, s: State, ev: Event, rest: seq<Event>, t: nat)
    ensures Run(h, s, [ev] + rest) == Run(h, Step(h, s, ev), rest)
    ensures ev.Goes? && ev.t == t && ev.ok && Alone(rest, t) ==> Alone([ev] + rest, t)
    ensures Alone([], t) && Run(h, Step(h, s, ev), []) == Step(h, s, ev)
  {
    hide Step;
    assert ([ev] + rest)[1..] == rest;
  }

  lemma SmallerRank(h: Key -> nat, s: State, n: State, t: nat)
    requires t in s.threads && t in n.threads && GoneOn(h, s, n, t)
    ensures Rank(h, n.tbl, n.threads[t]) < Rank(h, s.tbl, s.threads[t])
  {
    hide Rank;
  }

  /** What a thread may call: only the device thread adds and deletes, addresses have at most 16
      characters, only the cloud thread marks and sweeps, and lists have room for an address. */
  ghost predicate MayCall(t: nat, op: Op) {
    match op
    case AddOp(a, _) => t == DEVICE && |a| <= 16
    case DeleteOp(_) => t == DEVICE
    case DeleteAllOp => t == DEVICE
    case MarkOp(_) => t == CLOUD
    case SweepOp => t == CLOUD
    case KeysOp(_, rows) => rows > 0
    case FindOp(_) => true
  }

  lemma Begun(h: Key -> nat, s: State, t: nat, op: Op)
    requires Inv(h, s) && s.threads == map[] && MayCall(t, op)
    ensures var n := Begin(h, s, t, op);
            && t in n.threads && n.threads == map[t := n.threads[t]] && n.threads[t].c.op == op && Unblocked(n, t)
            && Took(n.threads[t]) < 0 && n.log == s.log && n.responses == s.responses && n.tbl == s.tbl
  {
    assert LockOk(s);
    assert s.readers == {};
    hide Inv, LockOk, Chain, At;
  }

  lemma QuietContents(h: Key -> nat, s: State)
    requires Inv(h, s) && s.threads == map[]
    ensures Replay(s.log) == Snapshot(s.tbl.heap, s.tbl.list) && Legal(s.log)
  {
    hide TableOk, Replay, Snapshot, LockOk, ThreadsOk, CallsOk, ResponsesOk, Legal;
    NoneCleared(Replay(s.log));
  }

  lemma LastLogged(log: seq<Entry>, e: Entry)
    requires Legal(log + [e])
    ensures (Replay(log + [e]), e.result) == Apply(Replay(log), e.op)
  {
    var all := log + [e];
    assert all[..|all| - 1] == log && all[|all| - 1] == e;
    hide Apply;
  }

  /** After every run that has left nobody in a call: every operation that a thread may make,
      made alone and refused nothing, is answered after finitely many steps, with the answer and
      the contents of the sequential operation. */
  lemma SoloCall(h: Key -> nat, buckets: nat, before: seq<Event>, t: nat, op: Op) returns (evs: seq<Event>)
    requires buckets > 0 && MayCall(t, op) && Run(h, Initial(buckets), before).threads == map[]
    ensures evs != [] && evs[0] == Begins(t, op) && Alone(evs[1..], t)
    ensures var s := Run(h, Initial(buckets), before);
            var e := Run(h, s, evs);
            && e.threads == map[] && |e.responses| == |s.responses| + 1 && s.responses <= e.responses
            && e.responses[|s.responses|].op == op
            && (Snapshot(e.tbl.heap, e.tbl.list), e.responses[|s.responses|].result)
               == Apply(Snapshot(s.tbl.heap, s.tbl.list), op)
  {
    InitialInv(h, buckets);
    RunInv(h, Initial(buckets), before);
    var s := Run(h, Initial(buckets), before);
    Begun(h, s, t, op);
    StepInv(h, s, Begins(t, op));
    QuietContents(h, s);
    var n := Step(h, s, Begins(t, op));
    assert n == Begin(h, s, t, op);
    hide Inv, Step, Unblocked, Begin, Initial, Apply, Legal, Replay, Snapshot, MayCall;
    var rest := Finishes(h, n, t);
    var e := Run(h, n, rest);
    evs := [Begins(t, op)] + rest;
    assert evs[1..] == rest && Run(h, s, evs) == e;
    assert e.threads == map[];
    QuietContents(h, e);
    LastLogged(s.log, e.log[|s.log|]);
  }

  // ----- nobody waits for ever -----------------------------------------------------------------

  /** Whenever somebody is in a call, nobody is in the way of one of them. */
  lemma SomebodyCan(h: Key -> nat, s: State) returns (t: nat)
    requires Inv(h, s) && s.threads != map[]
    ensures t in s.threads && Unblocked(s, t)
  {
    assert LockOk(s);
    hide Inv, TableOk;
    if s.readers != {} {
      t :| t in s.readers;
      assert HoldsRead(s.threads[t]);
    } else if DEVICE in s.threads && Device(s.threads[DEVICE]) {
      t := DEVICE;
    } else {
      t :| t in s.threads;
      assert s.writer ==> DEVICE in s.threads && HoldsWrite(s.threads[DEVICE]);
    }
  }

  lemma DoneIsNoFailure(h: Key -> nat, s: State, e: State, t: nat)
    requires Inv(h, s) && Inv(h, e) && t in s.threads && Done(s, e, t)
    ensures |e.responses| == |s.responses| + 1 && s.responses <= e.responses
    ensures e.responses[|s.responses|].result != Failed && |e.threads| == |s.threads| - 1
  {
    InvAnswerable(h, s, t);
    assert Legal(e.log);
    if Took(s.threads[t]) < 0 {
      NeverFailed(e.log, |s.log|);
    }
    assert e.threads.Keys == s.threads.Keys - {t} && |e.threads.Keys| == |e.threads| && |s.threads.Keys| == |s.threads|;
  }

  /** No deadlock: from every state of every run all calls under way can be finished, none of them
      failing. */
  lemma {:induction false} AllFinish(h: Key -> nat, s: State) returns (evs: seq<Event>)
    requires Inv(h, s)
    ensures forall i {:trigger evs[i]} | 0 <= i < |evs| :: evs[i].Goes? && evs[i].ok
    ensures var e := Run(h, s, evs);
            && e.threads == map[] && |e.responses| == |s.responses| + |s.threads| && s.responses <= e.responses
            && forall i {:trigger e.responses[i]} | |s.responses| <= i < |e.responses| ::
                 e.responses[i].result != Failed
    decreases |s.threads|
  {
    hide Inv, Step, Unblocked, Done;
    evs := [];
    if s.threads != map[] {
      var t := SomebodyCan(h, s);
      var first := Finishes(h, s, t);
      var n := Run(h, s, first);
      DoneIsNoFailure(h, s, n, t);
      var rest := AllFinish(h, n);
      RunBoth(h, s, first, rest);
      evs := first + rest;
    }
  }

  lemma {:induction false} RunBoth(h: Key -> nat, s: State, a: seq<Event>, b: seq<Event>)
    ensures Run(h, s, a + b) == Run(h, Run(h, s, a), b)
    decreases |a|
  {
    hide Step;
    if a == [] {
      assert a + b == b;
    } else {
      RunBoth(h, Step(h, s, a[0]), a[1..], b);
      assert (a + b)[1..] == a[1..] + b;
    }
  }

  /** The same said of runs. */
  lemma EveryRunCanFinish(h: Key -> nat, buckets: nat, evs: seq<Event>) returns (more: seq<Event>)
    requires buckets > 0
    ensures forall i {:trigger more[i]} | 0 <= i < |more| :: more[i].Goes? && more[i].ok
    ensures var s, e := Run(h, Initial(buckets), evs), Run(h, Initial(buckets), evs + more);
            && e.threads == map[] && |e.responses| == |s.responses| + |s.threads| && s.responses <= e.responses
            && forall i {:trigger e.responses[i]} | |s.responses| <= i < |e.responses| ::
                 e.responses[i].result != Failed
  {
    InitialInv(h, buckets);
    RunInv(h, Initial(buckets), evs);
    hide Inv, Run, Initial;
    more := AllFinish(h, Run(h, Initial(buckets), evs));
    RunBoth(h, Initial(buckets), evs, more);
  }
}
