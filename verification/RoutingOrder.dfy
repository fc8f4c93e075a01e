/** In what order a module reads the messages of another one: always the order of sending,
    as long as it does not go back to a channel older than one it has read from. */
module RoutingOrder {
  import opened Routing

  /** One read: the channel, how many messages had been read from it before, and the message. */
  datatype Reading = Reading(channel: nat, at: nat, packet: Packet)

  /** What module `r` reads during a run, in the order of time. */
  ghost function Readings(n: Net, lo: nat, evs: seq<Event>, r: nat): seq<Reading>
    requires Inv(n) && lo <= |n.fds|
    decreases |evs|
  {
    if evs == [] then []
    else
      StepInv(n, lo, evs[0]);
      var rest := Readings(Step(n, lo, evs[0]), lo, evs[1..], r);
      if evs[0].Read? && CanReceive(n, evs[0].fd) && evs[0].fd - 1 in n.owner && n.owner[evs[0].fd - 1] == r then
        var d: nat := evs[0].fd - 1;
        [Reading(d, |n.recvd[d]|, n.down[d][0])] + rest
      else rest
  }

  ghost function Packets(rs: seq<Reading>): (ps: seq<Packet>)
    ensures |ps| == |rs| && forall i | 0 <= i < |rs| :: ps[i] == rs[i].packet
  {
    if rs == [] then [] else [rs[0].packet] + Packets(rs[1..])
  }

  lemma {:induction false} ForwardAllKeeps(n: Net, p: Packet, targets: seq<nat>, oks: seq<bool>)
    requires |oks| == |targets| && forall k | 0 <= k < |targets| :: targets[k] < |n.fds|
    ensures var n' := ForwardAll(n, p, targets, oks);
            n'.owner == n.owner && n'.recvd == n.recvd && n'.down.Keys == n.down.Keys
    decreases |targets|
  {
    if targets != [] {
      var n' := Forward(n, p, targets[0], oks[0]);
      assert n'.down.Keys == n.down.Keys;
      ForwardAllKeeps(n', p, targets[1..], oks[1..]);
    }
  }

  lemma DispatchKeeps(n: Net, lo: nat, i: nat, oks: seq<bool>)
    requires |n.fds| == |n.modes| && lo <= |n.fds| && i < |n.fds| && Pending(n, i)
    requires var p := n.up[n.fds[i]][0]; |oks| == |Targets(n, lo, p.src, p.dest)|
    ensures var n' := Dispatch(n, lo, i, oks);
            n'.owner == n.owner && n'.recvd == n.recvd && n'.down.Keys == n.down.Keys
  {
    var p := n.up[n.fds[i]][0];
    ForwardAllKeeps(Take(n, i), p, Targets(n, lo, p.src, p.dest), oks);
  }

  /** Channels keep their owner, and what was read from them stays read. */
  ghost predicate Grown(n: Net, n': Net) {
    forall d {:trigger d in n.owner} {:trigger n'.recvd[d]} | d in n.owner ::
      && d in n'.owner && n'.owner[d] == n.owner[d]
      && d in n.recvd && d in n'.recvd && n.recvd[d] <= n'.recvd[d]
  }

  lemma StepGrows(n: Net, lo: nat, ev: Event)
    requires Inv(n) && lo <= |n.fds|
    ensures Grown(n, Step(n, lo, ev))
  {
    assert Wired(n);
    assert n.nextFd !in n.owner;
    if ev.PassOn? && ev.i < |n.fds| && Pending(n, ev.i) {
      var p := n.up[n.fds[ev.i]][0];
      if |ev.oks| == |Targets(n, lo, p.src, p.dest)| {
        DispatchKeeps(n, lo, ev.i, ev.oks);
      }
    }
    hide Inv, Dispatch;
  }

  lemma {:induction false} RunGrows(n: Net, lo: nat, evs: seq<Event>)
    requires Inv(n) && lo <= |n.fds|
    ensures Grown(n, Run(n, lo, evs))
    decreases |evs|
  {
    hide Step;
    if evs != [] {
      StepInv(n, lo, evs[0]);
      StepGrows(n, lo, evs[0]);
      RunGrows(Step(n, lo, evs[0]), lo, evs[1..]);
      hide Inv;
    } else {
      assert Wired(n);
    }
  }

  /** Every reading is found at its place in what its channel has delivered at the end. */
  ghost predicate Recorded(n: Net, rs: seq<Reading>, r: nat) {
    forall i {:trigger rs[i]} | 0 <= i < |rs| ::
      var x := rs[i];
      && x.channel in n.owner && n.owner[x.channel] == r && x.channel in n.recvd
      && x.at < |n.recvd[x.channel]| && n.recvd[x.channel][x.at] == x.packet
  }

  /** Readings come behind what the channels have delivered already. */
  ghost predicate Behind(n: Net, rs: seq<Reading>) {
    forall i {:trigger rs[i]} | 0 <= i < |rs| && rs[i].channel in n.recvd ::
      rs[i].at >= |n.recvd[rs[i].channel]|
  }

  ghost predicate Advancing(rs: seq<Reading>) {
    forall i, j | 0 <= i < j < |rs| && rs[i].channel == rs[j].channel :: rs[i].at < rs[j].at
  }

  /** `x` is what is read next from its channel. */
  ghost predicate NextRead(n: Net, n1: Net, x: Reading, r: nat) {
    && x.channel in n.owner && n.owner[x.channel] == r && x.channel in n.recvd && x.channel in n1.recvd
    && x.channel in n.down && x.at == |n.recvd[x.channel]| && n1.recvd[x.channel] == n.recvd[x.channel] + [x.packet]
  }

  lemma ReadingsStep(n: Net, lo: nat, evs: seq<Event>, r: nat)
    requires Inv(n) && lo <= |n.fds| && evs != []
    ensures var n1 := Step(n, lo, evs[0]);
            && Inv(n1) && lo <= |n1.fds|
            && var rs, rest := Readings(n, lo, evs, r), Readings(n1, lo, evs[1..], r);
               rs == rest || (rs != [] && rs == [rs[0]] + rest && NextRead(n, n1, rs[0], r))
  {
    hide Inv, Send, Register, Dispatch, CloseDispatchEnd, CloseLocalEnd, Targets, CanSend, Pending, Run;
    StepInv(n, lo, evs[0]);
    SameKeys(n);
  }

  lemma GrownFurther(n: Net, n1: Net, end: Net, rest: seq<Reading>, r: nat)
    requires Grown(n, n1) && n.owner.Keys == n.recvd.Keys && Behind(n1, rest)
    ensures Behind(n, rest)
  {
    forall i | 0 <= i < |rest| && rest[i].channel in n.recvd
      ensures rest[i].at >= |n.recvd[rest[i].channel]|
    {
      assert rest[i].channel in n.owner;
    }
  }

  lemma PutFirst(n: Net, n1: Net, end: Net, x: Reading, rest: seq<Reading>, r: nat)
    requires NextRead(n, n1, x, r) && Grown(n, n1) && Grown(n1, end)
    requires Recorded(end, rest, r) && Behind(n1, rest) && Behind(n, rest) && Advancing(rest)
    ensures Recorded(end, [x] + rest, r) && Behind(n, [x] + rest) && Advancing([x] + rest)
  {
    var rs := [x] + rest;
    assert x.channel in n1.owner;
    assert end.recvd[x.channel][x.at] == x.packet;
    forall i | 0 < i < |rs| && rs[i].channel == x.channel ensures rs[i].at > x.at {
      assert rs[i] == rest[i - 1];
    }
  }

  lemma {:induction false} ReadingsRecorded(n: Net, lo: nat, evs: seq<Event>, r: nat)
    requires Inv(n) && lo <= |n.fds|
    ensures var rs := Readings(n, lo, evs, r);
            Recorded(Run(n, lo, evs), rs, r) && Behind(n, rs) && Advancing(rs)
    decreases |evs|
  {
    hide Inv, Step, Recorded, Behind, Advancing, Grown, NextRead, Readings;
    if evs != [] {
      WiredSizes(n);
      StepInv(n, lo, evs[0]);
      var n1 := Step(n, lo, evs[0]);
      var rs, rest, end := Readings(n, lo, evs, r), Readings(n1, lo, evs[1..], r), Run(n, lo, evs);
      ReadingsStep(n, lo, evs, r);
      StepGrows(n, lo, evs[0]);
      RunGrows(n1, lo, evs[1..]);
      ReadingsRecorded(n1, lo, evs[1..], r);
      SameKeys(n);
      GrownFurther(n, n1, end, rest, r);
      if rs != rest {
        PutFirst(n, n1, end, rs[0], rest, r);
      }
    } else {
      NothingRead(n, lo, r);
    }
  }

  lemma NothingRead(n: Net, lo: nat, r: nat)
    requires Inv(n) && lo <= |n.fds|
    ensures Readings(n, lo, [], r) == [] && Recorded(n, [], r) && Behind(n, []) && Advancing([])
  {
  }

  lemma SameKeys(n: Net)
    requires Inv(n)
    ensures n.owner.Keys == n.recvd.Keys
  {
  }

  /** Of two messages of one origin, the one read from the older channel was sent first, and
      of two from the same channel the one read first. */
  lemma SentFirst(n: Net, rs: seq<Reading>, r: nat, i: nat, j: nat)
    requires Inv(n) && Recorded(n, rs, r) && Advancing(rs) && i < j < |rs|
    requires rs[i].packet.origin == rs[j].packet.origin
    ensures rs[i].packet.number < rs[j].packet.number <==> rs[i].channel <= rs[j].channel
  {
    var x, y := rs[i], rs[j];
    ReadPart(n, x.channel);
    ReadPart(n, y.channel);
    hide Inv;
    if x.channel < y.channel {
      ReadInOrder(n, x.channel, y.channel);
    } else if y.channel < x.channel {
      ReadInOrder(n, y.channel, x.channel);
    }
  }

  /** The messages of origin `o` come from channels in the order in which these were made. */
  ghost predicate NeverBackFor(rs: seq<Reading>, o: nat) {
    forall i, j | 0 <= i < j < |rs| && rs[i].packet.origin == o == rs[j].packet.origin ::
      rs[i].channel <= rs[j].channel
  }

  ghost predicate NeverBack(rs: seq<Reading>) {
    forall i, j | 0 <= i < j < |rs| :: rs[i].channel <= rs[j].channel
  }

  lemma ReadingGenuine(n: Net, rs: seq<Reading>, r: nat, i: nat)
    requires Inv(n) && Recorded(n, rs, r) && i < |rs|
    ensures Genuine(n, rs[i].packet)
  {
    ReadPart(n, rs[i].channel);
  }

  lemma InTurnIff(n: Net, rs: seq<Reading>, r: nat, o: nat)
    requires Inv(n) && Recorded(n, rs, r) && Advancing(rs)
    ensures InTurn(Packets(rs), o) <==> NeverBackFor(rs, o)
    ensures forall i | 0 <= i < |rs| :: Genuine(n, Packets(rs)[i])
  {
    hide Inv, Advancing, Recorded, Genuine;
    var ps := Packets(rs);
    forall i | 0 <= i < |rs| ensures Genuine(n, ps[i]) {
      ReadingGenuine(n, rs, r, i);
    }
    forall i, j | 0 <= i < j < |rs| && rs[i].packet.origin == o == rs[j].packet.origin
      ensures ps[i].number < ps[j].number <==> rs[i].channel <= rs[j].channel
    {
      SentFirst(n, rs, r, i, j);
    }
  }

  ghost predicate Ascending(a: seq<Packet>) {
    forall i, j | 0 <= i < j < |a| :: a[i].number < a[j].number
  }

  /** What is left of a log in which every message stands at its number is still in the order
      of the numbers. */
  lemma {:induction false} LeftInOrder(a: seq<Packet>, log: seq<Packet>, k: nat)
    requires k <= |log| && Subsequence(a, log[k..])
    requires forall i {:trigger log[i]} | 0 <= i < |log| :: log[i].number == i
    ensures forall i | 0 <= i < |a| :: a[i].number >= k
    ensures Ascending(a)
    decreases |log| - k
  {
    if a != [] {
      assert log[k..][1..] == log[k + 1..] && log[k..][0] == log[k];
      if Subsequence(a, log[k + 1..]) {
        LeftInOrder(a, log, k + 1);
      } else {
        LeftInOrder(a[1..], log, k + 1);
        assert a == [log[k]] + a[1..];
      }
    }
  }

  lemma {:induction false} FromOriginHas(s: seq<Packet>, o: nat, i: nat)
    requires i < |s| && s[i].origin == o
    ensures s[i] in FromOrigin(s, o)
  {
    if i > 0 {
      FromOriginHas(s[1..], o, i - 1);
    }
  }

  lemma {:induction false} InTurnAgain(s: seq<Packet>, o: nat)
    requires Ascending(FromOrigin(s, o))
    ensures InTurn(s, o)
  {
    if s != [] {
      var a, rest := FromOrigin(s, o), FromOrigin(s[1..], o);
      assert rest == if s[0].origin == o then a[1..] else a;
      assert Ascending(rest);
      InTurnAgain(s[1..], o);
      forall j | 0 < j < |s| && s[0].origin == o == s[j].origin ensures s[0].number < s[j].number {
        FromOriginHas(s[1..], o, j - 1);
        assert s[1..][j - 1] == s[j];
        var k :| 0 <= k < |rest| && rest[k] == s[j];
        assert a[k + 1] == s[j] && a[0] == s[0];
      }
      assert forall j | 0 < j < |s| :: s[j] == s[1..][j - 1];
    }
  }

  lemma LogIsNumbered(n: Net, o: nat)
    requires Inv(n) && o < |n.sent|
    ensures forall i {:trigger n.sent[o][i]} | 0 <= i < |n.sent[o]| :: n.sent[o][i].number == i
    ensures n.sent[o][0..] == n.sent[o]
  {
  }

  /** After every run: what `r` has read of the messages of origin `o`, in the order of time, is
      a subsequence of what `o` sent exactly if it never went back from one channel to an older
      one between two of them. */
  lemma InOrderIff(hi: nat, lo: nat, evs: seq<Event>, r: nat, o: nat)
    requires lo <= hi && o < hi
    ensures var n, rs := Run(Initial(hi), lo, evs), Readings(Initial(hi), lo, evs, r);
            && |n.sent| == hi
            && (Subsequence(FromOrigin(Packets(rs), o), n.sent[o]) <==> NeverBackFor(rs, o))
  {
    var n, rs := Run(Initial(hi), lo, evs), Readings(Initial(hi), lo, evs, r);
    var ps := Packets(rs);
    RunInv(Initial(hi), lo, evs);
    RunSize(Initial(hi), lo, evs);
    ReadingsRecorded(Initial(hi), lo, evs, r);
    WiredSizes(n);
    InTurnIff(n, rs, r, o);
    LogIsNumbered(n, o);
    hide Inv, InTurn, NeverBackFor, Readings, Run, Initial, Subsequence;
    if InTurn(ps, o) {
      FromOriginIsSubsequence(ps, o, n.sent[o], 0);
    }
    if Subsequence(FromOrigin(ps, o), n.sent[o]) {
      LeftInOrder(FromOrigin(ps, o), n.sent[o], 0);
      InTurnAgain(ps, o);
    }
  }

  /** In a run in which `r` never goes back to an older channel, it reads the messages of
      every origin in the order in which they were sent. */
  lemma NeverBackInOrder(hi: nat, lo: nat, evs: seq<Event>, r: nat, o: nat)
    requires lo <= hi && o < hi
    requires NeverBack(Readings(Initial(hi), lo, evs, r))
    ensures var n := Run(Initial(hi), lo, evs);
            |n.sent| == hi && Subsequence(FromOrigin(Packets(Readings(Initial(hi), lo, evs, r)), o), n.sent[o])
  {
    hide Readings, Run, Initial, Subsequence;
    InOrderIff(hi, lo, evs, r, o);
  }

  // ----- registering again only after the old channel's end is closed ------------------------

  /** The module holds no open end of a channel of its own. */
  ghost predicate NoOpenEnd(n: Net, m: nat) {
    forall d {:trigger d in n.down} | d in n.down && d in n.owner :: n.owner[d] != m
  }

  /** In this run a module that registers holds no open end of an earlier channel. */
  ghost predicate Careful(n: Net, lo: nat, evs: seq<Event>)
    requires Inv(n) && lo <= |n.fds|
    decreases |evs|
  {
    evs == [] ||
    (StepInv(n, lo, evs[0]);
     && (evs[0].MakeChannel? ==> NoOpenEnd(n, evs[0].m))
     && Careful(Step(n, lo, evs[0]), lo, evs[1..]))
  }

  /** Only the latest channel of a module has its end of it open. */
  ghost predicate OldClosed(n: Net) {
    forall d, e {:trigger d in n.down, e in n.owner} |
      d in n.down && d in n.owner && e in n.owner && n.owner[d] == n.owner[e] :: e <= d
  }

  lemma CarefulStep(n: Net, lo: nat, ev: Event)
    requires Inv(n) && lo <= |n.fds| && OldClosed(n)
    requires ev.MakeChannel? ==> NoOpenEnd(n, ev.m)
    ensures OldClosed(Step(n, lo, ev))
  {
    var n' := Step(n, lo, ev);
    assert forall d | d in n.owner :: d < n.nextFd;
    if ev.PassOn? && ev.i < |n.fds| && Pending(n, ev.i) {
      var p := n.up[n.fds[ev.i]][0];
      if |ev.oks| == |Targets(n, lo, p.src, p.dest)| {
        DispatchKeeps(n, lo, ev.i, ev.oks);
      }
    }
    hide Inv, Dispatch;
    assert ev.Read? ==> n'.down.Keys == n.down.Keys;
  }

  /** The readings are from no channel older than one the module has had. */
  ghost predicate Above(n: Net, rs: seq<Reading>, r: nat) {
    forall i, e {:trigger rs[i], e in n.owner} | 0 <= i < |rs| && e in n.owner && n.owner[e] == r ::
      e <= rs[i].channel
  }

  lemma AboveFirst(n: Net, n1: Net, x: Reading, rest: seq<Reading>, r: nat)
    requires OldClosed(n) && Grown(n, n1) && NextRead(n, n1, x, r) && Above(n, rest, r) && NeverBack(rest)
    ensures NeverBack([x] + rest) && Above(n, [x] + rest, r)
  {
    assert forall i | 0 <= i < |rest| :: x.channel <= rest[i].channel;
  }

  lemma AboveBefore(n: Net, n1: Net, rest: seq<Reading>, r: nat)
    requires Grown(n, n1) && Above(n1, rest, r)
    ensures Above(n, rest, r)
  {
    assert forall e | e in n.owner :: e in n1.owner && n1.owner[e] == n.owner[e];
  }

  lemma {:induction false} CarefulNeverBack(n: Net, lo: nat, evs: seq<Event>, r: nat)
    requires Inv(n) && lo <= |n.fds| && OldClosed(n) && Careful(n, lo, evs)
    ensures NeverBack(Readings(n, lo, evs, r)) && Above(n, Readings(n, lo, evs, r), r)
    decreases |evs|
  {
    hide Inv, Step, Run, Readings, OldClosed, Grown, NextRead, NeverBack, Above;
    if evs != [] {
      WiredSizes(n);
      StepInv(n, lo, evs[0]);
      var n1 := Step(n, lo, evs[0]);
      var rs, rest := Readings(n, lo, evs, r), Readings(n1, lo, evs[1..], r);
      StepGrows(n, lo, evs[0]);
      CarefulStep(n, lo, evs[0]);
      CarefulNeverBack(n1, lo, evs[1..], r);
      ReadingsStep(n, lo, evs, r);
      AboveBefore(n, n1, rest, r);
      if rs != rest {
        AboveFirst(n, n1, rs[0], rest, r);
      }
    } else {
      NothingAbove(n, lo, r);
    }
  }

  lemma NothingAbove(n: Net, lo: nat, r: nat)
    requires Inv(n) && lo <= |n.fds|
    ensures NeverBack(Readings(n, lo, [], r)) && Above(n, Readings(n, lo, [], r), r)
  {
  }

  /** A module that closes its end before it registers again reads every origin in order. */
  lemma CarefulInOrder(hi: nat, lo: nat, evs: seq<Event>, r: nat, o: nat)
    requires lo <= hi && o < hi && Careful(Initial(hi), lo, evs)
    ensures var n := Run(Initial(hi), lo, evs);
            |n.sent| == hi && Subsequence(FromOrigin(Packets(Readings(Initial(hi), lo, evs, r)), o), n.sent[o])
  {
    CarefulNeverBack(Initial(hi), lo, evs, r);
    NeverBackInOrder(hi, lo, evs, r, o);
  }

  /** Deleting with the module's own descriptor leaves it without an open end. */
  lemma DelClosesEnd(n: Net, m: nat)
    requires Inv(n) && OldClosed(n) && m < |n.fds| && n.fds[m] != NO_FD
    ensures var n' := CloseLocalEnd(CloseDispatchEnd(n, m), LocalEnd(n.fds[m]));
            NoOpenEnd(n', m) && OldClosed(n')
  {
    assert Wired(n) && Latest(n.owner, n.fds);
    RegisteredChannel(n, m);
  }

  // ----- without that, the order can be lost -------------------------------------------------

  /** Module 1 registers, writes to itself, is deleted with descriptor 0, registers again,
      writes to itself again, and then reads its new channel first. */
  function Careless(): (evs: seq<Event>)
    ensures |evs| == 9
  {
    [MakeChannel(1, SendRecv), SendUp(2, 0, 1, 7), PassOn(1, [true]), DropDispatchEnd(1),
     MakeChannel(1, SendRecv), SendUp(4, 0, 1, 8), PassOn(1, [true]), Read(4), Read(2)]
  }

  function First(): Packet { Packet(1, 0, 0, 1, 7) }
  function Second(): Packet { Packet(1, 1, 0, 1, 8) }

  /** The state after the first `k` events. */
  ghost function After(k: nat): Net
    requires k <= 9
  {
    var (p, q) := (First(), Second());
    var none: map<nat, seq<Packet>> := map[];
    if k == 0 then Net([0, 0], [SendRecv, SendRecv], none, none, map[], map[], none, 1, [[], []])
    else if k == 1 then FirstLife([0, 1], map[1 := []], [], [])
    else if k == 2 then FirstLife([0, 1], map[1 := [p]], [], [p])
    else if k == 3 then FirstLife([0, 1], map[1 := []], [p], [p])
    else if k == 4 then FirstLife([0, 0], none, [p], [p])
    else if k == 5 then SecondLife([], [p], [], [], [], [p])
    else if k == 6 then SecondLife([q], [p], [], [], [], [p, q])
    else if k == 7 then SecondLife([], [p], [q], [], [], [p, q])
    else if k == 8 then SecondLife([], [p], [], [], [q], [p, q])
    else SecondLife([], [], [], [p], [q], [p, q])
  }

  ghost function FirstLife(fds: seq<nat>, up: map<nat, seq<Packet>>, down: seq<Packet>, sent: seq<Packet>): Net {
    Net(fds, [SendRecv, SendRecv], up, map[1 := down], map[1 := 1], map[1 := SendRecv], map[1 := []], 3, [[], sent])
  }

  ghost function SecondLife(up: seq<Packet>, down1: seq<Packet>, down3: seq<Packet>,
                            read1: seq<Packet>, read3: seq<Packet>, sent: seq<Packet>): Net {
    Net([0, 3], [SendRecv, SendRecv], map[3 := up], map[1 := down1, 3 := down3], map[1 := 1, 3 := 1],
        map[1 := SendRecv, 3 := SendRecv], map[1 := read1, 3 := read3], 5, [[], sent])
  }

  ghost predicate CarelessGoesOn(k: nat)
    requires k < 9
  {
    |After(k).fds| == |After(k).modes| == 2 && Step(After(k), 1, Careless()[k]) == After(k + 1)
  }

  lemma OneMore(p: Packet)
    ensures [] + [p] == [p] && [p][1..] == []
  {
  }

  lemma SameNet(a: Net, b: Net)
    requires a.fds == b.fds && a.modes == b.modes && a.up == b.up && a.down == b.down && a.owner == b.owner
    requires a.chMode == b.chMode && a.recvd == b.recvd && a.nextFd == b.nextFd && a.sent == b.sent
    ensures a == b
  {
  }

  lemma CarelessRegisters(k: nat)
    requires k == 0 || k == 4
    ensures CarelessGoesOn(k)
  {
    hide Dispatch, Send, Receive, CanReceive;
    SameNet(Step(After(k), 1, Careless()[k]), After(k + 1));
  }

  lemma CarelessSends(k: nat)
    requires k == 1 || k == 5
    ensures CarelessGoesOn(k)
  {
    hide Dispatch, Register, Receive, CanReceive;
    assert CanSend(After(k), if k == 1 then 2 else 4);
    OneMore(if k == 1 then First() else Second());
    assert [First()] + [Second()] == [First(), Second()];
    SameNet(Step(After(k), 1, Careless()[k]), After(k + 1));
  }

  lemma CarelessDrops(k: nat)
    requires k == 3
    ensures CarelessGoesOn(k)
  {
    hide Dispatch, Register, Receive, CanReceive, Send;
    SameNet(Step(After(k), 1, Careless()[k]), After(k + 1));
  }

  lemma CarelessPasses(k: nat)
    requires k == 2 || k == 6
    ensures CarelessGoesOn(k)
  {
    hide Receive, Send, Register;
    var n, p := After(k), if k == 2 then First() else Second();
    assert n.up[n.fds[1]][0] == p && Targets(n, 1, p.src, p.dest) == [1];
    var t := Take(n, 1);
    assert ForwardAll(t, p, [1], [true]) == Forward(t, p, 1, true);
    assert Step(n, 1, Careless()[k]) == Forward(t, p, 1, true);
    OneMore(p);
    SameNet(Step(After(k), 1, Careless()[k]), After(k + 1));
  }

  lemma CarelessReads(k: nat)
    requires k == 7 || k == 8
    ensures CarelessGoesOn(k)
  {
    hide Dispatch, Send, Register;
    assert CanReceive(After(k), if k == 7 then 4 else 2);
    OneMore(if k == 7 then Second() else First());
    SameNet(Step(After(k), 1, Careless()[k]), After(k + 1));
  }

  lemma CarelessStep(k: nat)
    requires k < 9
    ensures CarelessGoesOn(k)
  {
    hide CarelessGoesOn;
    if k == 2 || k == 6 {
      CarelessPasses(k);
    } else if k == 7 || k == 8 {
      CarelessReads(k);
    } else if k == 0 || k == 4 {
      CarelessRegisters(k);
    } else if k == 1 || k == 5 {
      CarelessSends(k);
    } else {
      CarelessDrops(k);
    }
  }

  lemma {:induction false} CarelessInv(k: nat)
    requires k <= 9
    ensures Inv(After(k)) && |After(k).fds| == 2
  {
    hide Inv, Step, After, Careless;
    if k > 0 {
      CarelessInv(k - 1);
      CarelessStep(k - 1);
      StepInv(After(k - 1), 1, Careless()[k - 1]);
    } else {
      CarelessStart();
    }
  }

  lemma CarelessStart()
    ensures After(0) == Initial(2) && Inv(After(0)) && |After(0).fds| == 2
  {
  }

  lemma CarelessEvents()
    ensures forall k | 0 <= k < 9 :: Careless()[k].Read? <==> k >= 7
    ensures Careless()[7] == Read(4) && Careless()[8] == Read(2)
  {
  }

  lemma {:induction false} CarelessFrom(k: nat)
    requires k <= 9
    ensures Inv(After(k)) && |After(k).fds| == 2
    ensures Run(After(k), 1, Careless()[k..]) == After(9)
    ensures Readings(After(k), 1, Careless()[k..], 1)
         == (if k < 8 then [Reading(3, 0, Second())] else []) + (if k < 9 then [Reading(1, 0, First())] else [])
    decreases 9 - k
  {
    hide Inv, Step, Careless;
    CarelessInv(k);
    if k < 9 {
      CarelessStep(k);
      CarelessFrom(k + 1);
      var evs := Careless()[k..];
      assert evs[1..] == Careless()[k + 1..] && evs[0] == Careless()[k];
      CarelessEvents();
      var rest := Readings(After(k + 1), 1, evs[1..], 1);
      if k == 7 {
        assert Readings(After(7), 1, evs, 1) == [Reading(3, 0, Second())] + rest;
      } else if k == 8 {
        assert Readings(After(8), 1, evs, 1) == [Reading(1, 0, First())] + rest;
      } else {
        assert Readings(After(k), 1, evs, 1) == rest;
      }
    }
  }

  lemma Swapped(p: Packet, q: Packet)
    requires p != q
    ensures !Subsequence([q, p], [p, q])
  {
    assert [p, q][1..] == [q] && [q, p][1..] == [p];
    assert !Subsequence([q, p], [q]);
  }

  /** The run reads the second message before the first. */
  lemma CarelessOutOfOrder()
    ensures var rs := Readings(Initial(2), 1, Careless(), 1);
            var n := Run(Initial(2), 1, Careless());
            && |n.sent| == 2
            && Packets(rs) == [Second(), First()] && n.sent[1] == [First(), Second()]
            && !Subsequence(FromOrigin(Packets(rs), 1), n.sent[1])
  {
    hide Inv, Step, Careless, Run, Readings, Subsequence, Packets, FromOrigin;
    CarelessStart();
    CarelessFrom(0);
    assert Careless()[0..] == Careless();
    var rs := Readings(Initial(2), 1, Careless(), 1);
    assert rs == [Reading(3, 0, Second()), Reading(1, 0, First())];
    CarelessPackets(rs);
    Swapped(First(), Second());
  }

  lemma CarelessPackets(rs: seq<Reading>)
    requires rs == [Reading(3, 0, Second()), Reading(1, 0, First())]
    ensures Packets(rs) == [Second(), First()] && FromOrigin(Packets(rs), 1) == [Second(), First()]
  {
    assert rs[1..] == [Reading(1, 0, First())] && Packets(rs[1..]) == [First()];
    OneMore(First());
    assert [Second(), First()][1..] == [First()] && FromOrigin([First()], 1) == [First()];
  }
}
