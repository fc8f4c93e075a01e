/** What a run of the protocol amounts to, read from its events alone: which channels were made
    and in which mode, and what the modules asked to have sent. */
module RoutingLedger {
  import opened Routing

  /** What a send was asked to carry, and what a registration was asked for. */
  datatype Request = Request(src: int, dest: int, msg: int)
  datatype Making = Making(m: nat, mode: Mode)

  /** Channel `j` is the `j`th that was made; its ends are the descriptors 2j + 1, which the
      dispatcher holds, and 2j + 2, which its module holds. */
  datatype Ledger = Ledger(
    made: seq<Making>,
    current: map<nat, nat>,        // the channel of every registered module
    closed: set<nat>,              // the channels whose modules have closed their ends
    asked: seq<seq<Request>>)      // what every module has sent

  function Blank(hi: nat): Ledger {
    Ledger([], map[], {}, seq(hi, _ => []))
  }

  /** The channel that a module's descriptor belongs to; as many as there are channels if none. */
  function ChannelOf(l: Ledger, fd: int): nat {
    if fd > 0 && fd % 2 == 0 && fd / 2 - 1 < |l.made| then fd / 2 - 1 else |l.made|
  }

  function Note(l: Ledger, ev: Event): Ledger {
    match ev
    case MakeChannel(m, mode) =>
      if m < |l.asked| && m !in l.current then
        l.(made := l.made + [Making(m, mode)], current := l.current[m := |l.made|])
      else l
    case DropDispatchEnd(m) => l.(current := l.current - {m})
    case DropLocalEnd(fd) => if ChannelOf(l, fd) < |l.made| then l.(closed := l.closed + {ChannelOf(l, fd)}) else l
    case SendUp(fd, src, dest, msg) =>
      var j := ChannelOf(l, fd);
      if Current(l, j) && j !in l.closed && l.made[j].m < |l.asked| then
        var m := l.made[j].m;
        l.(asked := l.asked[m := l.asked[m] + [Request(src, dest, msg)]])
      else l
    case PassOn(_, _) => l
    case Read(_) => l
  }

  /** The ledger after a run. */
  function LedgerFrom(l: Ledger, evs: seq<Event>): Ledger
    decreases |evs|
  {
    if evs == [] then l else LedgerFrom(Note(l, evs[0]), evs[1..])
  }

  function LedgerOf(hi: nat, evs: seq<Event>): Ledger {
    LedgerFrom(Blank(hi), evs)
  }

  // ----- the protocol's state is what the ledger says ------------------------------------

  ghost predicate ChannelsMatch(owner: map<nat, nat>, chMode: map<nat, Mode>, nextFd: nat, made: seq<Making>) {
    && nextFd == 2 * |made| + 1
    && (forall d: nat {:trigger d in owner} :: d in owner <==> d % 2 == 1 && d / 2 < |made|)
    && (forall d {:trigger owner[d]} | d in owner :: owner[d] == made[d / 2].m)
    && (forall d {:trigger chMode[d]} | d in owner :: d in chMode && chMode[d] == made[d / 2].mode)
  }

  ghost predicate RowsMatch(fds: seq<nat>, modes: seq<Mode>, l: Ledger) {
    && |fds| == |modes| == |l.asked|
    && (forall m {:trigger m in l.current} | m in l.current ::
          m < |fds| && l.current[m] < |l.made| && l.made[l.current[m]].m == m)
    && forall m {:trigger fds[m]} | 0 <= m < |fds| ::
         if m in l.current then fds[m] == 2 * l.current[m] + 1 && modes[m] == l.made[l.current[m]].mode
         else fds[m] == NO_FD
  }

  /** Channel `j` is the one its module is registered with. */
  predicate Current(l: Ledger, j: nat) {
    j < |l.made| && l.made[j].m in l.current && l.current[l.made[j].m] == j
  }

  ghost predicate EndsMatch(down: set<nat>, up: set<nat>, l: Ledger) {
    && (forall d: nat {:trigger d in down} :: d in down <==> d % 2 == 1 && d / 2 < |l.made| && d / 2 !in l.closed)
    && (forall d: nat {:trigger d in up} :: d in up <==> d % 2 == 1 && Current(l, d / 2))
    && forall j {:trigger j in l.closed} | j in l.closed :: j < |l.made|
  }

  ghost predicate SentMatch(sent: seq<seq<Packet>>, asked: seq<seq<Request>>) {
    && |sent| == |asked|
    && (forall o {:trigger sent[o]} {:trigger asked[o]} | 0 <= o < |sent| :: |sent[o]| == |asked[o]|)
    && forall o, k {:trigger sent[o][k]} | 0 <= o < |sent| && 0 <= k < |sent[o]| ::
         sent[o][k] == Packet(o, k, asked[o][k].src, asked[o][k].dest, asked[o][k].msg)
  }

  ghost predicate Matches(n: Net, l: Ledger) {
    && ChannelsMatch(n.owner, n.chMode, n.nextFd, l.made)
    && RowsMatch(n.fds, n.modes, l)
    && EndsMatch(n.down.Keys, n.up.Keys, l)
    && SentMatch(n.sent, l.asked)
  }

  lemma BlankMatches(hi: nat)
    ensures Matches(Initial(hi), Blank(hi))
  {
  }

  lemma MakeMatches(n: Net, l: Ledger, m: nat, mode: Mode)
    requires Matches(n, l) && m < |n.fds| && n.fds[m] == NO_FD
    ensures Matches(Register(n, m, mode), Note(l, MakeChannel(m, mode)))
  {
    hide SentMatch;
    var n', l' := Register(n, m, mode), Note(l, MakeChannel(m, mode));
    var d := n.nextFd;
    assert m !in l.current && d == 2 * |l.made| + 1;
    assert d % 2 == 1 && d / 2 == |l.made|;
    assert ChannelsMatch(n'.owner, n'.chMode, n'.nextFd, l'.made);
    assert RowsMatch(n'.fds, n'.modes, l');
    MadeEnds(n, l, m, mode);
  }

  lemma MadeEnds(n: Net, l: Ledger, m: nat, mode: Mode)
    requires Matches(n, l) && m < |n.fds| && n.fds[m] == NO_FD && n.nextFd == 2 * |l.made| + 1 && m !in l.current
    ensures EndsMatch(Register(n, m, mode).down.Keys, Register(n, m, mode).up.Keys, Note(l, MakeChannel(m, mode)))
  {
    hide SentMatch, ChannelsMatch;
    var n', l' := Register(n, m, mode), Note(l, MakeChannel(m, mode));
    forall d: nat
      ensures d in n'.down <==> d % 2 == 1 && d / 2 < |l'.made| && d / 2 !in l'.closed
    {
    }
    forall d: nat
      ensures d in n'.up <==> d % 2 == 1 && Current(l', d / 2)
    {
    }
  }

  lemma DropMatches(n: Net, l: Ledger, m: nat)
    requires Matches(n, l) && m < |n.fds| == |n.modes|
    ensures Matches(CloseDispatchEnd(n, m), Note(l, DropDispatchEnd(m)))
  {
    hide SentMatch, ChannelsMatch;
    var n', l' := CloseDispatchEnd(n, m), Note(l, DropDispatchEnd(m));
    forall d: nat
      ensures d in n'.up <==> d % 2 == 1 && Current(l', d / 2)
    {
    }
  }

  lemma CloseMatches(n: Net, l: Ledger, fd: int)
    requires Matches(n, l)
    ensures Matches(CloseLocalEnd(n, fd), Note(l, DropLocalEnd(fd)))
  {
    hide SentMatch, ChannelsMatch;
    var n', l' := CloseLocalEnd(n, fd), Note(l, DropLocalEnd(fd));
    if fd > 0 {
      var e: nat := fd - 1;
      assert ChannelOf(l, fd) < |l.made| <==> e % 2 == 1 && e / 2 < |l.made|;
      assert ChannelOf(l, fd) < |l.made| ==> ChannelOf(l, fd) == e / 2;
      forall d: nat ensures d in n'.down <==> d % 2 == 1 && d / 2 < |l'.made| && d / 2 !in l'.closed {
        assert d in n'.down <==> d in n.down && d != e;
      }
    }
  }

  /** A module's descriptor can be sent through exactly as the ledger says. */
  lemma CanSendIff(n: Net, l: Ledger, fd: int)
    requires Matches(n, l)
    ensures var j := ChannelOf(l, fd);
            CanSend(n, fd) <==> Current(l, j) && j !in l.closed && l.made[j].m < |l.asked|
    ensures CanSend(n, fd) ==> n.owner[fd - 1] == l.made[ChannelOf(l, fd)].m
  {
    if fd > 0 {
      var d: nat := fd - 1;
      assert d % 2 == 1 <==> fd % 2 == 0;
      assert d % 2 == 1 ==> d / 2 == fd / 2 - 1;
      assert d in n.down.Keys <==> d in n.down;
      assert d in n.up.Keys <==> d in n.up;
    }
  }

  lemma SendMatches(n: Net, l: Ledger, fd: int, src: int, dest: int, msg: int)
    requires Matches(n, l) && CanSend(n, fd)
    ensures Matches(Send(n, fd, src, dest, msg), Note(l, SendUp(fd, src, dest, msg)))
  {
    CanSendIff(n, l, fd);
    hide ChannelsMatch;
    var n', l' := Send(n, fd, src, dest, msg), Note(l, SendUp(fd, src, dest, msg));
    assert n'.up.Keys == n.up.Keys;
  }

  lemma {:induction false} ForwardKeeps(n: Net, p: Packet, targets: seq<nat>, oks: seq<bool>)
    requires |oks| == |targets| && forall k | 0 <= k < |targets| :: targets[k] < |n.fds|
    ensures var n' := ForwardAll(n, p, targets, oks);
            n' == n.(down := n'.down) && n'.down.Keys == n.down.Keys
    decreases |targets|
  {
    if targets != [] {
      var n' := Forward(n, p, targets[0], oks[0]);
      assert n'.down.Keys == n.down.Keys;
      ForwardKeeps(n', p, targets[1..], oks[1..]);
    }
  }

  lemma StepMatches(n: Net, lo: nat, l: Ledger, ev: Event)
    requires |n.fds| == |n.modes| && lo <= |n.fds| && Matches(n, l)
    ensures Matches(Step(n, lo, ev), Note(l, ev))
  {
    hide Register, CloseDispatchEnd, CloseLocalEnd, Send, Targets, ForwardAll;
    match ev
    case MakeChannel(m, mode) =>
      if m < |n.fds| && n.fds[m] == NO_FD {
        MakeMatches(n, l, m, mode);
      } else {
        hide ChannelsMatch, EndsMatch, SentMatch;
      }
    case DropDispatchEnd(m) =>
      if m < |n.fds| {
        DropMatches(n, l, m);
      } else {
        assert m !in l.current;
        assert l.current - {m} == l.current;
      }
    case DropLocalEnd(fd) => CloseMatches(n, l, fd);
    case SendUp(fd, src, dest, msg) =>
      CanSendIff(n, l, fd);
      if CanSend(n, fd) {
        SendMatches(n, l, fd, src, dest, msg);
      } else {
        hide ChannelsMatch, EndsMatch, SentMatch, RowsMatch;
      }
    case PassOn(i, oks) =>
      hide ChannelsMatch, EndsMatch, SentMatch, RowsMatch;
      if i < |n.fds| && Pending(n, i) {
        var p := n.up[n.fds[i]][0];
        if |oks| == |Targets(n, lo, p.src, p.dest)| {
          ForwardKeeps(Take(n, i), p, Targets(n, lo, p.src, p.dest), oks);
          assert Take(n, i).up.Keys == n.up.Keys;
        }
      }
    case Read(fd) =>
      hide ChannelsMatch, EndsMatch, SentMatch, RowsMatch;
      assert CanReceive(n, fd) ==> Receive(n, fd).down.Keys == n.down.Keys;
  }

  lemma {:induction false} RunMatches(n: Net, lo: nat, l: Ledger, evs: seq<Event>)
    requires Inv(n) && lo <= |n.fds| && Matches(n, l)
    ensures Matches(Run(n, lo, evs), LedgerFrom(l, evs))
    decreases |evs|
  {
    hide Inv, Step, Matches, Note;
    if evs != [] {
      WiredSizes(n);
      StepInv(n, lo, evs[0]);
      StepMatches(n, lo, l, evs[0]);
      RunMatches(Step(n, lo, evs[0]), lo, Note(l, evs[0]), evs[1..]);
    }
  }

  lemma EveryRunMatches(hi: nat, lo: nat, evs: seq<Event>)
    requires lo <= hi
    ensures Matches(Run(Initial(hi), lo, evs), LedgerOf(hi, evs))
  {
    hide Matches;
    BlankMatches(hi);
    RunMatches(Initial(hi), lo, Blank(hi), evs);
  }

  // ----- what callers see ------------------------------------------------------------------

  /** After every run: a module is registered exactly as the events say, with the mode asked
      for when its channel was made. */
  lemma RegisteredAsAsked(hi: nat, lo: nat, evs: seq<Event>, m: nat)
    requires lo <= hi && m < hi
    ensures var n, l := Run(Initial(hi), lo, evs), LedgerOf(hi, evs);
            && |n.fds| == |n.modes| == hi
            && (n.fds[m] != NO_FD <==> m in l.current)
            && (m in l.current ==>
                  && l.current[m] < |l.made| && l.made[l.current[m]] == Making(m, n.modes[m])
                  && n.fds[m] == 2 * l.current[m] + 1)
  {
    EveryRunMatches(hi, lo, evs);
    RunInv(Initial(hi), lo, evs);
    RunSize(Initial(hi), lo, evs);
    WiredSizes(Run(Initial(hi), lo, evs));
    hide Inv, Run, ChannelsMatch, EndsMatch, SentMatch;
  }

  /** After every run: what a module has sent, message by message, is what its successful sends
      were asked to carry. */
  lemma SentAsAsked(hi: nat, lo: nat, evs: seq<Event>, o: nat)
    requires lo <= hi && o < hi
    ensures var n, l := Run(Initial(hi), lo, evs), LedgerOf(hi, evs);
            && |n.sent| == |l.asked| == hi && |n.sent[o]| == |l.asked[o]|
            && forall k | 0 <= k < |n.sent[o]| ::
                 var r := l.asked[o][k]; n.sent[o][k] == Packet(o, k, r.src, r.dest, r.msg)
  {
    EveryRunMatches(hi, lo, evs);
    RunInv(Initial(hi), lo, evs);
    RunSize(Initial(hi), lo, evs);
    WiredSizes(Run(Initial(hi), lo, evs));
    hide Inv, Run, ChannelsMatch, EndsMatch;
  }

  /** `p`, read by module `m` from a channel made in `mode`, is what a send was asked to carry to
      `m`, or to all under another source, and then `m` had asked to receive. */
  ghost predicate Asked(hi: nat, l: Ledger, p: Packet, ch: Making) {
    && p.origin < |l.asked| && p.number < |l.asked[p.origin]|
    && var r := l.asked[p.origin][p.number];
       && r == Request(p.src, p.dest, p.msg)
       && (r.dest == ch.m || (r.dest == hi && r.src != ch.m && ch.mode == SendRecv))
  }

  /** After every run: what a module reads is what some module asked to have sent to it; a
      channel made for sending only delivers nothing but messages that name its module. */
  lemma ReadAsAsked(hi: nat, lo: nat, evs: seq<Event>, d: nat, i: nat)
    requires lo <= hi
    requires var n := Run(Initial(hi), lo, evs); d in n.recvd && i < |n.recvd[d]|
    ensures var n, l := Run(Initial(hi), lo, evs), LedgerOf(hi, evs);
            && d / 2 < |l.made| && Asked(hi, l, n.recvd[d][i], l.made[d / 2])
            && (l.made[d / 2].mode == SendOnly ==> n.recvd[d][i].dest == l.made[d / 2].m)
  {
    var n, l := Run(Initial(hi), lo, evs), LedgerOf(hi, evs);
    EveryRunMatches(hi, lo, evs);
    RunInv(Initial(hi), lo, evs);
    RunSize(Initial(hi), lo, evs);
    WiredSizes(n);
    ReadOnce(hi, lo, evs, d, i, d, i);
    hide Inv, Run, EndsMatch, RowsMatch;
  }
}
