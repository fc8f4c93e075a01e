/** The dispatcher: a table of channels, updated in place by the modules' calls and read by
    the dispatcher thread's scan. Every operation is a step of `Routing`. */
module Dispatch {
  import opened Routing
  import opened RoutingLedger

  const MODULE_ID_UNSPECIFIED: int := 0
  const DP_GATEWAY_INVALID: int := -1
  const RET_OK: int := 0
  const RET_FAIL: int := -1
  const MAX_TRIES: nat := 3

  /** What the socket layer answers to one attempt at sending. */
  datatype Answer = Sent | Interrupted | Failed

  /** A message gets through when one of the first tries does, all before it interrupted. */
  predicate Delivered(answer: nat -> Answer) {
    exists k | 0 <= k < MAX_TRIES :: answer(k) == Sent && forall j | 0 <= j < k :: answer(j) == Interrupted
  }

  function Oks(answers: nat -> nat -> Answer, count: nat): (oks: seq<bool>)
    ensures |oks| == count && forall k | 0 <= k < count :: oks[k] == Delivered(answers(k))
  {
    seq(count, (k: nat) => Delivered(answers(k)))
  }

  /** The dispatcher's part of a round for module `i`, when its descriptor is `ready`. */
  ghost function Served(n: Net, lo: nat, i: nat, ready: set<nat>, answers: nat -> nat -> Answer): Net
    requires |n.fds| == |n.modes| && lo <= |n.fds| && i < |n.fds|
  {
    if n.fds[i] in ready && Pending(n, i) then
      var p := n.up[n.fds[i]][0];
      Dispatch(n, lo, i, Oks(answers, |Targets(n, lo, p.src, p.dest)|))
    else n
  }

  /** The first modules up to `i` served in turn. */
  ghost function Scanned(n: Net, lo: nat, i: nat, ready: set<nat>, answers: nat -> nat -> nat -> Answer): (r: Net)
    requires |n.fds| == |n.modes| && lo <= i <= |n.fds|
    ensures r.fds == n.fds && r.modes == n.modes
  {
    if i == lo then n
    else
      var before := Scanned(n, lo, i - 1, ready, answers);
      ServedTables(before, lo, i - 1, ready, answers(i - 1));
      Served(before, lo, i - 1, ready, answers(i - 1))
  }

  lemma ServedTables(n: Net, lo: nat, i: nat, ready: set<nat>, answers: nat -> nat -> Answer)
    requires |n.fds| == |n.modes| && lo <= |n.fds| && i < |n.fds|
    ensures Served(n, lo, i, ready, answers).fds == n.fds && Served(n, lo, i, ready, answers).modes == n.modes
  {
    if n.fds[i] in ready && Pending(n, i) {
      var p := n.up[n.fds[i]][0];
      var ts := Targets(n, lo, p.src, p.dest);
      ForwardAllFds(Take(n, i), p, ts, Oks(answers, |ts|));
    }
  }

  lemma {:induction false} ForwardAllUp(n: Net, p: Packet, targets: seq<nat>, oks: seq<bool>)
    requires |oks| == |targets| && forall k | 0 <= k < |targets| :: targets[k] < |n.fds|
    ensures ForwardAll(n, p, targets, oks).up == n.up
    decreases |targets|
  {
    if targets != [] {
      ForwardAllUp(Forward(n, p, targets[0], oks[0]), p, targets[1..], oks[1..]);
    }
  }

  lemma ServedUp(n: Net, lo: nat, i: nat, ready: set<nat>, answers: nat -> nat -> Answer)
    requires |n.fds| == |n.modes| && lo <= |n.fds| && i < |n.fds|
    ensures Served(n, lo, i, ready, answers).up
         == if n.fds[i] in ready && Pending(n, i) then n.up[n.fds[i] := n.up[n.fds[i]][1..]] else n.up
  {
    if n.fds[i] in ready && Pending(n, i) {
      var p := n.up[n.fds[i]][0];
      var ts := Targets(n, lo, p.src, p.dest);
      ForwardAllUp(Take(n, i), p, ts, Oks(answers, |ts|));
    }
  }

  /** A scan takes exactly one message from every ready module that has one, and none from
      any other: no module is starved by another one's traffic. */
  lemma {:induction false} ScanTakesOne(n: Net, lo: nat, i: nat, ready: set<nat>,
                                        answers: nat -> nat -> nat -> Answer, d: nat)
    requires Inv(n) && |n.fds| == |n.modes| && lo <= i <= |n.fds| && d in n.up
    ensures d in n.owner && Scanned(n, lo, i, ready, answers).up.Keys == n.up.Keys
    ensures Scanned(n, lo, i, ready, answers).up[d]
         == if lo <= n.owner[d] < i && d in ready && n.up[d] != [] then n.up[d][1..] else n.up[d]
    decreases i
  {
    hide Inv, Scanned, Served, Pending;
    Registrant(n, d);
    if lo < i {
      var before := Scanned(n, lo, i - 1, ready, answers);
      ScanTakesOne(n, lo, i - 1, ready, answers, d);
      ScanStep(n, lo, i, ready, answers);
      var e := n.fds[i - 1];
      if e in n.up {
        ScanTakesOne(n, lo, i - 1, ready, answers, e);
        Registrant(n, e);
        OwnEnd(n, i - 1);
      }
    } else {
      assert Scanned(n, lo, i, ready, answers) == n by { ScanStart(n, lo, ready, answers); }
    }
  }

  lemma ScanStart(n: Net, lo: nat, ready: set<nat>, answers: nat -> nat -> nat -> Answer)
    requires |n.fds| == |n.modes| && lo <= |n.fds|
    ensures Scanned(n, lo, lo, ready, answers) == n
  {
  }

  lemma ScanStep(n: Net, lo: nat, i: nat, ready: set<nat>, answers: nat -> nat -> nat -> Answer)
    requires |n.fds| == |n.modes| && lo < i <= |n.fds|
    ensures var before, e := Scanned(n, lo, i - 1, ready, answers), n.fds[i - 1];
            Scanned(n, lo, i, ready, answers).up ==
            if e in ready && e in before.up && before.up[e] != [] then before.up[e := before.up[e][1..]] else before.up
  {
    ServedUp(Scanned(n, lo, i - 1, ready, answers), lo, i - 1, ready, answers(i - 1));
    hide Served;
  }

  lemma Registrant(n: Net, d: nat)
    requires Inv(n) && d in n.up
    ensures d in n.owner && n.owner[d] < |n.fds| && n.fds[n.owner[d]] == d
  {
  }

  lemma NextEnd(n: Net)
    requires Inv(n)
    ensures n.nextFd != NO_FD
  {
  }

  lemma OwnEnd(n: Net, i: nat)
    requires Inv(n) && i < |n.fds| && n.fds[i] in n.up
    ensures n.fds[i] in n.owner && n.owner[n.fds[i]] == i
  {
    assert n.fds[i] in n.owner && n.fds[i] != NO_FD;
  }

  lemma {:induction false} RunSnoc(n: Net, lo: nat, evs: seq<Event>, ev: Event)
    requires Inv(n) && lo <= |n.fds|
    ensures var n' := Run(n, lo, evs);
            Inv(n') && |n'.fds| == |n'.modes| == |n.fds| && Run(n, lo, evs + [ev]) == Step(n', lo, ev)
    decreases |evs|
  {
    hide Inv, Step;
    WiredSizes(n);
    StepInv(n, lo, ev);
    if evs != [] {
      StepInv(n, lo, evs[0]);
      RunSnoc(Step(n, lo, evs[0]), lo, evs[1..], ev);
      assert (evs + [ev])[0] == evs[0] && (evs + [ev])[1..] == evs[1..] + [ev];
    } else {
      assert [] + [ev] == [ev] && [ev][1..] == [];
      assert Run(Step(n, lo, ev), lo, []) == Step(n, lo, ev);
    }
  }

  lemma ListenersStep(n: Net, src: int, i: nat)
    requires |n.fds| == |n.modes| && i < |n.fds|
    ensures Listeners(n, src, i)
         == (if n.fds[i] != NO_FD && i != src && n.modes[i] == SendRecv then [i] else []) + Listeners(n, src, i + 1)
  {
  }

  lemma ForwardAllStep(n: Net, p: Packet, targets: seq<nat>, oks: seq<bool>, i: nat)
    requires |oks| == |targets| && i < |targets| && forall k | 0 <= k < |targets| :: targets[k] < |n.fds|
    ensures ForwardAll(n, p, targets[i..], oks[i..])
         == ForwardAll(Forward(n, p, targets[i], oks[i]), p, targets[i + 1..], oks[i + 1..])
  {
    assert targets[i..][1..] == targets[i + 1..] && oks[i..][1..] == oks[i + 1..];
  }

  class Dispatcher {
    const lo: nat                       // the first module that takes part
    const hi: nat                       // one more than the last; as a destination: all
    const fdArray: array<nat>
    const modeArray: array<Mode>
    // the sockets, and what went through them
    var up: map<nat, seq<Packet>>
    var down: map<nat, seq<Packet>>
    var nextFd: nat
    var owner: map<nat, nat>
    var chMode: map<nat, Mode>
    var recvd: map<nat, seq<Packet>>
    var sent: seq<seq<Packet>>
    ghost var history: seq<Event>       // all that happened so far

    /** The state of the protocol. */
    ghost function View(): Net
      reads this, fdArray, modeArray
    {
      Net(fdArray[..], modeArray[..], up, down, owner, chMode, recvd, nextFd, sent)
    }

    ghost predicate Valid()
      reads this, fdArray, modeArray
    {
      && lo <= hi == fdArray.Length == modeArray.Length
      && Inv(View()) && View() == Run(Initial(hi), lo, history)
    }

    /** Records the event that has led from state `was` to the present one. */
    ghost method Record(was: Net, ev: Event)
      requires lo <= hi == fdArray.Length == modeArray.Length && Inv(was)
      requires was == Run(Initial(hi), lo, history) && |was.fds| == |was.modes| == hi
      requires View() == Step(was, lo, ev)
      modifies this`history
      ensures Valid() && View() == old(View()) && history == old(history) + [ev]
    {
      hide Inv, Step, Run;
      StepInv(was, lo, ev);
      RunSnoc(Initial(hi), lo, history, ev);
      history := history + [ev];
      assert View() == old(View());
    }

    constructor (lo: nat, hi: nat)
      requires lo <= hi
      ensures Valid() && this.lo == lo && this.hi == hi && View() == Initial(hi)
      ensures fresh(fdArray) && fresh(modeArray)
    {
      this.lo, this.hi := lo, hi;
      fdArray := new nat[hi](_ => NO_FD);
      modeArray := new Mode[hi](_ => SendRecv);
      up, down, owner, chMode, recvd := map[], map[], map[], map[], map[];
      nextFd := 1;
      sent := seq(hi, _ => []);
      history := [];
      new;
      assert fdArray[..] == seq(hi, _ => NO_FD) && modeArray[..] == seq(hi, _ => SendRecv);
    }

    /** Makes a channel for a module that has none. */
    method RegisterChannel(m: int, mode: Mode, pairOk: bool) returns (ret: int)
      requires Valid()
      modifies this, fdArray, modeArray
      ensures Valid()
      ensures if lo <= m < hi && old(fdArray[m]) == NO_FD && pairOk then
                View() == Register(old(View()), m, mode) && ret == LocalEnd(old(nextFd))
              else View() == old(View()) && ret == -1
      ensures if lo <= m < hi && old(fdArray[m]) == NO_FD && pairOk then
                && history == old(history) + [MakeChannel(m, mode)]
                && fdArray[m] != NO_FD && modeArray[m] == mode && ret == fdArray[m] + 1
                && forall k | 0 <= k < hi && k != m ::
                     fdArray[k] == old(fdArray[k]) && modeArray[k] == old(modeArray[k])
              else history == old(history)
    {
      hide Inv;
      if m >= hi || m < lo {
        return RET_FAIL;
      }
      if fdArray[m] != NO_FD {
        return RET_FAIL;
      }
      if !pairOk {
        return RET_FAIL;
      }
      ghost var was := View();
      NextEnd(was);
      var d := nextFd;
      up, down, nextFd := up[d := []], down[d := []], d + 2;
      owner, chMode, recvd := owner[d := m], chMode[d := mode], recvd[d := []];
      fdArray[m] := d;
      modeArray[m] := mode;
      assert View() == Register(was, m, mode);
      assert fdArray[m] == d && modeArray[m] == mode;
      Record(was, MakeChannel(m, mode));
      assert View().fds[m] == fdArray[m];
      return LocalEnd(d);
    }

    /** Removes a module's channel, and closes the descriptor the module hands in. */
    method DelChannel(m: int, fd: int)
      requires Valid()
      modifies this, fdArray, modeArray
      ensures Valid()
      ensures View() == if lo <= m < hi then CloseLocalEnd(CloseDispatchEnd(old(View()), m), fd) else old(View())
      ensures history == old(history) + if lo <= m < hi then [DropDispatchEnd(m), DropLocalEnd(fd)] else []
    {
      hide Inv;
      if m >= hi || m < lo {
        return;
      }
      ghost var was := View();
      if fdArray[m] != NO_FD {
        up := up - {fdArray[m]};
        fdArray[m] := NO_FD;
        modeArray[m] := SendRecv;
      }
      assert View() == CloseDispatchEnd(was, m);
      Record(was, DropDispatchEnd(m));
      was := View();
      if fd > 0 {
        down := down - {(fd - 1) as nat};
      }
      assert View() == CloseLocalEnd(was, fd);
      Record(was, DropLocalEnd(fd));
    }

    /** Tries to send until a try is not interrupted, three times at most. */
    method TrySend(fd: int, answer: nat -> Answer) returns (ok: bool)
      ensures ok == (fd >= 0 && Delivered(answer))
      ensures ok <==> fd >= 0 && (|| answer(0).Sent?
                                  || (answer(0).Interrupted? && answer(1).Sent?)
                                  || (answer(0).Interrupted? && answer(1).Interrupted? && answer(2).Sent?))
    {
      if fd < 0 {
        return false;
      }
      var count, last := 1, answer(0);
      while last == Interrupted && count < MAX_TRIES
        invariant 1 <= count <= MAX_TRIES && last == answer(count - 1)
        invariant forall j | 0 <= j < count - 1 :: answer(j) == Interrupted
        decreases MAX_TRIES - count
      {
        last := answer(count);
        count := count + 1;
      }
      ok := last == Sent;
      if ok {
        assert answer(count - 1) == Sent;
      } else {
        ghost var tried: nat := count - 1;
        forall k | 0 <= k < MAX_TRIES && forall j | 0 <= j < k :: answer(j) == Interrupted
          ensures answer(k) != Sent
        {
          assert k > tried ==> answer(tried) == Interrupted;
        }
      }
    }

    /** A module's send: the message waits for the dispatcher, or is lost. */
    method SendUpward(fd: int, src: int, dest: int, msg: int, answer: nat -> Answer) returns (ret: int)
      requires Valid()
      modifies this`up, this`sent, this`history
      ensures Valid()
      ensures if CanSend(old(View()), fd) && Delivered(answer) then
                View() == Send(old(View()), fd, src, dest, msg) && ret == 0
              else View() == old(View()) && ret == -1
      ensures history == old(history) + if ret == 0 then [SendUp(fd, src, dest, msg)] else []
    {
      hide Inv;
      ret := RET_FAIL;
      ghost var was := View();
      var ok := TrySend(fd, answer);
      if ok && fd - 1 in down && fd - 1 in up && fd - 1 in owner && owner[fd - 1] < |sent| {
        var d: nat := fd - 1;
        var p := Packet(owner[d], |sent[owner[d]]|, src, dest, msg);
        assert CanSend(was, fd);
        up := up[d := up[d] + [p]];
        sent := sent[owner[d] := sent[owner[d]] + [p]];
        assert View() == Send(was, fd, src, dest, msg);
        Record(was, SendUp(fd, src, dest, msg));
        ret := RET_OK;
      }
    }

    method SendMsg(fd: int, dest: int, msg: int, answer: nat -> Answer) returns (ret: int)
      requires Valid()
      modifies this`up, this`sent, this`history
      ensures Valid()
      ensures if CanSend(old(View()), fd) && Delivered(answer) then
                View() == Send(old(View()), fd, 0, dest, msg) && ret == 0
              else View() == old(View()) && ret == -1
      ensures history == old(history) + if ret == 0 then [SendUp(fd, 0, dest, msg)] else []
    {
      ret := SendUpward(fd, MODULE_ID_UNSPECIFIED, dest, msg, answer);
    }

    method SendMultimsg(fd: int, local: int, msg: int, answer: nat -> Answer) returns (ret: int)
      requires Valid()
      modifies this`up, this`sent, this`history
      ensures Valid()
      ensures if CanSend(old(View()), fd) && Delivered(answer) then
                View() == Send(old(View()), fd, local, hi, msg) && ret == 0
              else View() == old(View()) && ret == -1
      ensures history == old(history) + if ret == 0 then [SendUp(fd, local, hi, msg)] else []
    {
      ret := SendUpward(fd, local, hi, msg, answer);
    }

    /** `p` came through channel `d` because some module had asked to have `msg` sent to the
        module of that channel. */
    ghost predicate AskedOf(d: nat, p: Packet, msg: int)
      reads this`history
    {
      var l := LedgerOf(hi, history);
      d / 2 < |l.made| && Asked(hi, l, p, l.made[d / 2]) && l.asked[p.origin][p.number].msg == msg
    }

    /** A module reads its next message, if there is one. */
    method RecvMsg(fd: int, selected: bool) returns (msg: int)
      requires Valid()
      modifies this`down, this`recvd, this`history
      ensures Valid()
      ensures if selected && CanReceive(old(View()), fd) then
                View() == Receive(old(View()), fd) && msg == old(down)[fd - 1][0].msg
              else View() == old(View()) && msg == -1
      ensures if selected && CanReceive(old(View()), fd) then
                history == old(history) + [Read(fd)] && AskedOf(fd - 1, old(down)[fd - 1][0], msg)
              else history == old(history)
    {
      hide Inv;
      msg := DP_GATEWAY_INVALID;
      ghost var was := View();
      if selected && fd > 0 && fd - 1 in down && down[fd - 1] != [] && fd - 1 in recvd {
        var d: nat := fd - 1;
        assert CanReceive(was, fd);
        var p := down[d][0];
        down, recvd := down[d := down[d][1..]], recvd[d := recvd[d] + [p]];
        assert View() == Receive(was, fd);
        Record(was, Read(fd));
        msg := p.msg;
        assert |was.recvd[d]| < |recvd[d]| && recvd[d][|was.recvd[d]|] == p;
        ReadAsAsked(hi, lo, history, d, |was.recvd[d]|);
      }
    }

    /** The descriptors a message goes to. */
    method GetFd(dest: int, src: int) returns (ok: bool, fds: seq<nat>)
      requires lo <= hi == fdArray.Length == modeArray.Length
      ensures var ts := Targets(View(), lo, src, dest);
              && ok == (ts != []) && |fds| == |ts|
              && forall k | 0 <= k < |ts| :: fds[k] == fdArray[ts[k]]
      ensures lo <= dest < hi ==>
                && (ok <==> fdArray[dest] != NO_FD)
                && fds == if ok then [fdArray[dest]] else []
      ensures dest < lo || dest > hi ==> !ok && fds == []
    {
      hide Inv;
      fds := [];
      if dest > hi || dest < lo {
        return false, [];
      }
      if dest != hi {
        var fd := fdArray[dest];
        if fd == NO_FD {
          return false, [];
        }
        return true, [fd];
      }
      fds := GetListeners(src);
      ok := fds != [];
    }

    /** The descriptors a broadcast goes to. */
    method GetListeners(src: int) returns (fds: seq<nat>)
      requires lo <= hi == fdArray.Length == modeArray.Length
      ensures var ts := Listeners(View(), src, lo);
              |fds| == |ts| && forall k | 0 <= k < |ts| :: fds[k] == fdArray[ts[k]]
    {
      hide Listeners;
      fds := [];
      ghost var n, ts: seq<nat> := View(), [];
      for i := lo to hi
        invariant ts + Listeners(n, src, i) == Listeners(n, src, lo)
        invariant |fds| == |ts| && forall k | 0 <= k < |ts| :: ts[k] < hi && fds[k] == fdArray[ts[k]]
      {
        ListenersStep(n, src, i);
        if fdArray[i] != NO_FD && i != src && modeArray[i] == SendRecv {
          assert ts + ([i] + Listeners(n, src, i + 1)) == (ts + [i]) + Listeners(n, src, i + 1);
          fds, ts := fds + [fdArray[i]], ts + [i];
        }
      }
      assert Listeners(n, src, hi) == [] by { NoListeners(n, src); }
    }

    lemma NoListeners(n: Net, src: int)
      requires |n.fds| == |n.modes|
      ensures Listeners(n, src, |n.fds|) == []
    {
    }

    /** Sends a message to everything it is addressed to; the result is that of the last send. */
    method TransferMsg(p: Packet, answers: nat -> nat -> Answer) returns (ret: int)
      requires lo <= hi == fdArray.Length == modeArray.Length
      modifies this`down
      ensures var ts := Targets(old(View()), lo, p.src, p.dest);
              && View() == ForwardAll(old(View()), p, ts, Oks(answers, |ts|))
              && (ret == 0 || ret == -1)
              && (ret == 0 <==> ts != [] && Delivered(answers(|ts| - 1))
                                     && old(fdArray[ts[|ts| - 1]] in down))
    {
      hide Inv, ForwardAll, Targets;
      var ok, fds := GetFd(p.dest, p.src);
      ret := RET_FAIL;
      ghost var n, ts := View(), Targets(View(), lo, p.src, p.dest);
      if !ok {
        ForwardNone(n, p);
        return;
      }
      ghost var oks := Oks(answers, |ts|);
      assert ts[0..] == ts && oks[0..] == oks;
      for i := 0 to |fds|
        invariant ForwardAll(View(), p, ts[i..], oks[i..]) == ForwardAll(n, p, ts, oks)
        invariant View() == n.(down := down) && down.Keys == n.down.Keys
        invariant ret == RET_OK || ret == RET_FAIL
        invariant i > 0 ==> (ret == RET_OK <==> oks[i - 1] && n.fds[ts[i - 1]] in n.down)
      {
        var sent := TrySend(fds[i], answers(i));
        ghost var before := View();
        ForwardAllStep(before, p, ts, oks, i);
        if sent && fds[i] in down {
          down := down[fds[i] := down[fds[i]] + [p]];
          ret := RET_OK;
        } else {
          ret := RET_FAIL;
        }
        assert View() == Forward(before, p, ts[i], oks[i]);
      }
      assert ts[|ts|..] == [] && oks[|ts|..] == [];
      ForwardNone(View(), p);
    }

    lemma ForwardNone(n: Net, p: Packet)
      ensures ForwardAll(n, p, [], []) == n
    {
    }

    /** Reads one message of module `i`, if its descriptor is ready, and passes it on. */
    method Serve(i: nat, ready: set<nat>, answers: nat -> nat -> Answer)
      requires Valid() && lo <= i < hi
      modifies this`up, this`down, this`history
      ensures Valid() && View() == Served(old(View()), lo, i, ready, answers)
    {
      hide Inv, Served, ForwardAll, Targets, Oks;
      ghost var n := View();
      ServedCases(n, lo, i, ready, answers);
      var fd := fdArray[i];
      if fd == NO_FD {
        NoEnd(n, i);
        return;
      }
      if fd in ready && fd in up && up[fd] != [] {
        var p := up[fd][0];
        up := up[fd := up[fd][1..]];
        assert View() == Take(n, i);
        SameTargets(n, View(), lo, p.src, p.dest);
        var ret := TransferMsg(p, answers);
        Record(n, PassOn(i, Oks(answers, |Targets(n, lo, p.src, p.dest)|)));
      }
    }

    lemma ServedCases(n: Net, lo: nat, i: nat, ready: set<nat>, answers: nat -> nat -> Answer)
      requires |n.fds| == |n.modes| && lo <= |n.fds| && i < |n.fds|
      ensures !(n.fds[i] in ready && Pending(n, i)) ==> Served(n, lo, i, ready, answers) == n
      ensures n.fds[i] in ready && Pending(n, i) ==>
        var p := n.up[n.fds[i]][0];
        var ts := Targets(n, lo, p.src, p.dest);
        Served(n, lo, i, ready, answers) == ForwardAll(Take(n, i), p, ts, Oks(answers, |ts|))
    {
    }

    lemma NoEnd(n: Net, i: nat)
      requires Inv(n) && i < |n.fds| && n.fds[i] == NO_FD
      ensures !Pending(n, i)
    {
    }

    /** One round of the dispatcher thread over the descriptors that are ready. */
    method Scan(ready: set<nat>, answers: nat -> nat -> nat -> Answer)
      requires Valid()
      modifies this`up, this`down, this`history
      ensures Valid() && View() == Scanned(old(View()), lo, hi, ready, answers)
    {
      hide Inv, Served;
      for i := lo to hi
        invariant Valid() && View() == Scanned(old(View()), lo, i, ready, answers)
      {
        Serve(i, ready, answers(i));
      }
    }
  }

  lemma {:induction false} SameListeners(n: Net, n': Net, src: int, i: nat)
    requires |n.fds| == |n.modes| && i <= |n.fds| && n'.fds == n.fds && n'.modes == n.modes
    ensures Listeners(n', src, i) == Listeners(n, src, i)
    decreases |n.fds| - i
  {
    if i < |n.fds| {
      SameListeners(n, n', src, i + 1);
    }
  }

  lemma SameTargets(n: Net, n': Net, lo: nat, src: int, dest: int)
    requires |n.fds| == |n.modes| && lo <= |n.fds| && n'.fds == n.fds && n'.modes == n.modes
    ensures Targets(n', lo, src, dest) == Targets(n, lo, src, dest)
  {
    SameListeners(n, n', src, lo);
  }
}
