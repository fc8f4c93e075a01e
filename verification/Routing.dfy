/** The message routing protocol as a state machine: modules, their channels to the
    dispatcher, and what every run of it keeps. */
module Routing {

  datatype Mode = SendRecv | SendOnly

  /** A message on its way. `origin` and `number` only identify it: it is the message
      number `number` that module `origin` managed to send. */
  datatype Packet = Packet(origin: nat, number: nat, src: int, dest: int, msg: int)

  /** A channel is a socket pair and is named by the dispatcher's end of it. `up` holds what
      the module has sent and the dispatcher has not read, while that end is open; `down`
      what the dispatcher has sent and the module has not read, while the module's is. */
  datatype Net = Net(
    fds: seq<nat>,                    // the dispatcher's end for every module, or 0
    modes: seq<Mode>,
    up: map<nat, seq<Packet>>,
    down: map<nat, seq<Packet>>,
    owner: map<nat, nat>,             // of every channel ever made: its module,
    chMode: map<nat, Mode>,           //   its mode,
    recvd: map<nat, seq<Packet>>,     //   and what the module has read from it
    nextFd: nat,
    sent: seq<seq<Packet>>)           // what every module managed to send

  const NO_FD: nat := 0

  /** The module's end of a channel. */
  function LocalEnd(d: nat): nat {
    d + 1
  }

  /** No module is registered yet. */
  function Initial(hi: nat): (n: Net)
    ensures Inv(n)
  {
    Net(seq(hi, _ => NO_FD), seq(hi, _ => SendRecv), map[], map[], map[], map[], map[], 1, seq(hi, _ => []))
  }

  // ----- steps -------------------------------------------------------------------

  function Register(n: Net, m: nat, mode: Mode): Net
    requires m < |n.fds| == |n.modes|
  {
    var d := n.nextFd;
    n.(fds := n.fds[m := d], modes := n.modes[m := mode],
       up := n.up[d := []], down := n.down[d := []], owner := n.owner[d := m],
       chMode := n.chMode[d := mode], recvd := n.recvd[d := []], nextFd := d + 2)
  }

  /** Closes the dispatcher's end of a module's channel. */
  function CloseDispatchEnd(n: Net, m: nat): Net
    requires m < |n.fds| == |n.modes|
  {
    if n.fds[m] == NO_FD then n
    else n.(up := n.up - {n.fds[m]}, fds := n.fds[m := NO_FD], modes := n.modes[m := SendRecv])
  }

  /** Closes a module's end of some channel. */
  function CloseLocalEnd(n: Net, fd: int): Net {
    if fd > 0 then n.(down := n.down - {fd - 1}) else n
  }

  /** The descriptor is a module's open end of a channel whose other end is open. */
  predicate CanSend(n: Net, fd: int) {
    fd > 0 && fd - 1 in n.down && fd - 1 in n.up && fd - 1 in n.owner && n.owner[fd - 1] < |n.sent|
  }

  function Send(n: Net, fd: int, src: int, dest: int, msg: int): Net
    requires CanSend(n, fd)
  {
    var d := fd - 1;
    var o := n.owner[d];
    var p := Packet(o, |n.sent[o]|, src, dest, msg);
    n.(up := n.up[d := n.up[d] + [p]], sent := n.sent[o := n.sent[o] + [p]])
  }

  /** The modules a broadcast with the given claimed source goes to, from `i` on. */
  function Listeners(n: Net, src: int, i: nat): (r: seq<nat>)
    requires |n.fds| == |n.modes| && i <= |n.fds|
    ensures forall k | 0 <= k < |r| :: i <= r[k] < |n.fds|
    decreases |n.fds| - i
  {
    if i == |n.fds| then []
    else if n.fds[i] != NO_FD && i != src && n.modes[i] == SendRecv then [i] + Listeners(n, src, i + 1)
    else Listeners(n, src, i + 1)
  }

  /** The modules a message goes to; none when the lookup fails. */
  function Targets(n: Net, lo: nat, src: int, dest: int): (r: seq<nat>)
    requires |n.fds| == |n.modes| && lo <= |n.fds|
    ensures forall k | 0 <= k < |r| :: lo <= r[k] < |n.fds|
  {
    if dest < lo || dest > |n.fds| then []
    else if dest < |n.fds| then (if n.fds[dest] != NO_FD then [dest] else [])
    else Listeners(n, src, lo)
  }

  /** Hands a packet to one module, unless the send fails or the module's end is closed. */
  function Forward(n: Net, p: Packet, r: nat, ok: bool): Net
    requires r < |n.fds|
  {
    var d := n.fds[r];
    if ok && d in n.down then n.(down := n.down[d := n.down[d] + [p]]) else n
  }

  /** Hands a packet to every target in turn. */
  function ForwardAll(n: Net, p: Packet, targets: seq<nat>, oks: seq<bool>): Net
    requires |oks| == |targets| && forall k | 0 <= k < |targets| :: targets[k] < |n.fds|
    decreases |targets|
  {
    if targets == [] then n
    else ForwardAll(Forward(n, p, targets[0], oks[0]), p, targets[1..], oks[1..])
  }

  /** The dispatcher has something to read from module `i`. */
  predicate Pending(n: Net, i: nat)
    requires i < |n.fds|
  {
    n.fds[i] in n.up && n.up[n.fds[i]] != []
  }

  function Take(n: Net, i: nat): Net
    requires i < |n.fds| && Pending(n, i)
  {
    n.(up := n.up[n.fds[i] := n.up[n.fds[i]][1..]])
  }

  /** The dispatcher reads one message from module `i` and passes it on. */
  function Dispatch(n: Net, lo: nat, i: nat, oks: seq<bool>): Net
    requires |n.fds| == |n.modes| && lo <= |n.fds| && i < |n.fds| && Pending(n, i)
    requires var p := n.up[n.fds[i]][0]; |oks| == |Targets(n, lo, p.src, p.dest)|
  {
    var p := n.up[n.fds[i]][0];
    ForwardAll(Take(n, i), p, Targets(n, lo, p.src, p.dest), oks)
  }

  predicate CanReceive(n: Net, fd: int) {
    fd > 0 && fd - 1 in n.down && n.down[fd - 1] != [] && fd - 1 in n.recvd
  }

  function Receive(n: Net, fd: int): Net
    requires CanReceive(n, fd)
  {
    var d := fd - 1;
    n.(down := n.down[d := n.down[d][1..]], recvd := n.recvd[d := n.recvd[d] + [n.down[d][0]]])
  }

  // ----- what every state of a run satisfies ------------------------------------------

  /** Everything the dispatcher ever put into a channel that is not lost, in order. */
  ghost function Stream(n: Net, d: nat): seq<Packet> {
    (if d in n.recvd then n.recvd[d] else []) + (if d in n.down then n.down[d] else [])
  }

  ghost predicate OwnersOk(owner: map<nat, nat>, nextFd: nat, modules: nat) {
    forall d {:trigger d in owner} | d in owner :: 0 < d < nextFd && owner[d] < modules
  }

  /** The dispatcher's end is open for the channels in `fds` only. */
  ghost predicate UpEnds(up: set<nat>, owner: map<nat, nat>, fds: seq<nat>) {
    forall d {:trigger d in up} | d in up ::
      d in owner && owner[d] < |fds| && fds[owner[d]] == d
  }

  ghost predicate Registered(fds: seq<nat>, modes: seq<Mode>, up: set<nat>,
                             owner: map<nat, nat>, chMode: map<nat, Mode>)
    requires |fds| == |modes|
  {
    forall m {:trigger fds[m]} | 0 <= m < |fds| && fds[m] != NO_FD ::
      && fds[m] in up && fds[m] in owner && owner[fds[m]] == m
      && fds[m] in chMode && chMode[fds[m]] == modes[m]
  }

  /** A registered channel is its module's latest. */
  ghost predicate Latest(owner: map<nat, nat>, fds: seq<nat>) {
    forall d {:trigger owner[d]} | d in owner && owner[d] < |fds| && fds[owner[d]] != NO_FD ::
      d <= fds[owner[d]]
  }

  /** The tables fit together. */
  ghost predicate Wired(n: Net) {
    && |n.fds| == |n.modes| == |n.sent| && n.nextFd > 0
    && n.owner.Keys == n.chMode.Keys == n.recvd.Keys && n.down.Keys <= n.owner.Keys
    && OwnersOk(n.owner, n.nextFd, |n.fds|)
    && UpEnds(n.up.Keys, n.owner, n.fds)
    && Registered(n.fds, n.modes, n.up.Keys, n.owner, n.chMode)
    && Latest(n.owner, n.fds)
  }

  /** `p` is what its origin sent under its number. */
  ghost predicate Genuine(n: Net, p: Packet) {
    p.origin < |n.sent| && p.number < |n.sent[p.origin]| && n.sent[p.origin][p.number] == p
  }

  /** A module may get `p` through channel `d`: it was sent to it, or broadcast by another
      claimed source while it was registered to receive. */
  ghost predicate Addressed(n: Net, p: Packet, d: nat)
  {
    && d in n.owner && d in n.chMode
    && (|| p.dest == n.owner[d]
        || (p.dest == |n.fds| && p.src != n.owner[d] && n.chMode[d] == SendRecv))
  }

  /** Messages of one origin come in the order of their numbers. */
  ghost predicate Rising(s: seq<Packet>) {
    forall i, j | 0 <= i < j < |s| && s[i].origin == s[j].origin :: s[i].number < s[j].number
  }

  /** Every message of `s` was sent before any message of the same origin in `t`. */
  ghost predicate Before(s: seq<Packet>, t: seq<Packet>) {
    forall i, j | 0 <= i < |s| && 0 <= j < |t| && s[i].origin == t[j].origin :: s[i].number < t[j].number
  }

  ghost predicate Logged(n: Net) {
    forall m, k {:trigger n.sent[m][k]} | 0 <= m < |n.sent| && 0 <= k < |n.sent[m]| ::
      n.sent[m][k].origin == m && n.sent[m][k].number == k
  }

  ghost predicate UpOk(n: Net)
    requires Wired(n)
  {
    forall d {:trigger n.up[d]} | d in n.up ::
      Rising(n.up[d])
      && forall i {:trigger n.up[d][i]} | 0 <= i < |n.up[d]| ::
           Genuine(n, n.up[d][i]) && n.up[d][i].origin == n.owner[d]
  }

  ghost predicate StreamOk(n: Net, d: nat)
    requires Wired(n) && d in n.owner
  {
    && Rising(Stream(n, d))
    && forall i {:trigger Stream(n, d)[i]} | 0 <= i < |Stream(n, d)| ::
         Genuine(n, Stream(n, d)[i]) && Addressed(n, Stream(n, d)[i], d)
  }

  ghost predicate StreamsOk(n: Net)
    requires Wired(n)
  {
    forall d {:trigger Stream(n, d)} | d in n.owner :: StreamOk(n, d)
  }

  /** What has been passed on was sent before what has not. */
  ghost predicate PassedFirst(n: Net)
    requires Wired(n)
  {
    forall d, e {:trigger Stream(n, d), n.up[e]} | d in n.owner && e in n.up ::
      Before(Stream(n, d), n.up[e])
  }

  /** What went into a module's earlier channel was sent before what went into a later one. */
  ghost predicate OldFirst(n: Net)
    requires Wired(n)
  {
    forall d, e {:trigger Stream(n, d), Stream(n, e)} |
      d in n.owner && e in n.owner && d < e && n.owner[d] == n.owner[e] ::
      Before(Stream(n, d), Stream(n, e))
  }

  ghost predicate Inv(n: Net) {
    Wired(n) && Logged(n) && UpOk(n) && StreamsOk(n) && PassedFirst(n) && OldFirst(n)
  }

  // ----- steps that only lose or consume messages ----------------------------------------

  /** `t` is `s`, possibly without its first message. */
  predicate Consumed(s: seq<Packet>, t: seq<Packet>) {
    t == s || (s != [] && t == s[1..])
  }

  lemma BeforeParts(s: seq<Packet>, t: seq<Packet>, s': seq<Packet>, t': seq<Packet>)
    requires Before(s, t) && s' <= s && (t' <= t || Consumed(t, t'))
    ensures Before(s', t')
  {
  }

  lemma RisingParts(s: seq<Packet>, s': seq<Packet>)
    requires Rising(s) && (s' <= s || Consumed(s, s'))
    ensures Rising(s')
  {
  }

  /** `n'` has lost or consumed some messages of `n`. */
  ghost predicate Shrunk(n: Net, n': Net)
    requires Wired(n) && Wired(n')
  {
    && n'.sent == n.sent && n'.owner == n.owner && n'.chMode == n.chMode && |n'.fds| == |n.fds|
    && (forall d {:trigger Stream(n', d)} | d in n.owner :: Stream(n', d) <= Stream(n, d))
    && (forall e {:trigger n'.up[e]} | e in n'.up :: e in n.up && Consumed(n.up[e], n'.up[e]))
  }

  lemma ShrunkInv(n: Net, n': Net)
    requires Inv(n) && Wired(n') && Shrunk(n, n')
    ensures Inv(n')
  {
    hide Wired, Rising, Before, Genuine, Addressed, Stream;
    assert Logged(n');
    forall d | d in n'.up ensures Rising(n'.up[d]) {
      RisingParts(n.up[d], n'.up[d]);
    }
    ShrunkUp(n, n');
    forall d | d in n'.owner ensures StreamOk(n', d) {
      ShrunkStream(n, n', d);
    }
    forall d, e | d in n'.owner && e in n'.up ensures Before(Stream(n', d), n'.up[e]) {
      BeforeParts(Stream(n, d), n.up[e], Stream(n', d), n'.up[e]);
    }
    forall d, e | d in n'.owner && e in n'.owner && d < e && n'.owner[d] == n'.owner[e]
      ensures Before(Stream(n', d), Stream(n', e))
    {
      BeforeParts(Stream(n, d), Stream(n, e), Stream(n', d), Stream(n', e));
    }
  }

  lemma ShrunkUp(n: Net, n': Net)
    requires Wired(n) && UpOk(n) && Wired(n') && Shrunk(n, n')
    ensures UpOk(n')
  {
    forall d | d in n'.up
      ensures d in n'.owner && Rising(n'.up[d])
      ensures forall i {:trigger n'.up[d][i]} | 0 <= i < |n'.up[d]| ::
                Genuine(n', n'.up[d][i]) && n'.up[d][i].origin == n'.owner[d]
    {
      ShrunkQueue(n, n', d);
    }
  }

  lemma ShrunkQueue(n: Net, n': Net, d: nat)
    requires Wired(n) && UpOk(n) && Wired(n') && Shrunk(n, n') && d in n'.up
    ensures d in n'.owner && Rising(n'.up[d])
    ensures forall i {:trigger n'.up[d][i]} | 0 <= i < |n'.up[d]| ::
              Genuine(n', n'.up[d][i]) && n'.up[d][i].origin == n'.owner[d]
  {
    assert d in n.up && d in n'.owner && n.owner[d] == n'.owner[d];
    var q, q' := n.up[d], n'.up[d];
    assert Consumed(q, q');
    assert forall i {:trigger q[i]} | 0 <= i < |q| :: Genuine(n, q[i]) && q[i].origin == n.owner[d];
    assert Rising(q);
    assert n'.sent == n.sent;
    hide Wired, UpOk, Shrunk, Rising;
    RisingParts(q, q');
    forall i | 0 <= i < |q'| ensures Genuine(n', q'[i]) && q'[i].origin == n'.owner[d] {
      assert q'[i] == q[i] || q'[i] == q[i + 1];
    }
  }

  lemma ShrunkStream(n: Net, n': Net, d: nat)
    requires Wired(n) && Wired(n') && Shrunk(n, n') && d in n.owner && StreamOk(n, d)
    ensures StreamOk(n', d)
  {
    var s, s' := Stream(n, d), Stream(n', d);
    hide Wired, Stream, Before;
    RisingParts(s, s');
    forall i | 0 <= i < |s'| ensures Genuine(n', s'[i]) && Addressed(n', s'[i], d) {
      assert s'[i] == s[i];
    }
  }

  lemma CloseDispatchEndWired(n: Net, m: nat)
    requires Wired(n) && m < |n.fds|
    ensures Wired(CloseDispatchEnd(n, m))
  {
    var n' := CloseDispatchEnd(n, m);
    assert forall d | d in n'.up :: d in n.up && d != n.fds[m];
    assert forall k | 0 <= k < |n'.fds| && n'.fds[k] != NO_FD :: n'.fds[k] == n.fds[k] && k != m;
  }

  lemma CloseDispatchEndShrinks(n: Net, m: nat)
    requires Wired(n) && m < |n.fds| == |n.modes| && Wired(CloseDispatchEnd(n, m))
    ensures Shrunk(n, CloseDispatchEnd(n, m))
  {
    hide Wired;
    var n' := CloseDispatchEnd(n, m);
    assert forall d :: Stream(n', d) == Stream(n, d);
  }

  lemma CloseDispatchEndInv(n: Net, m: nat)
    requires Inv(n) && m < |n.fds|
    ensures Inv(CloseDispatchEnd(n, m))
  {
    hide Logged, UpOk, StreamsOk, PassedFirst, OldFirst, Shrunk;
    CloseDispatchEndWired(n, m);
    CloseDispatchEndShrinks(n, m);
    ShrunkInv(n, CloseDispatchEnd(n, m));
  }

  lemma CloseLocalEndWired(n: Net, fd: int)
    requires Wired(n)
    ensures Wired(CloseLocalEnd(n, fd))
  {
    var n' := CloseLocalEnd(n, fd);
    assert forall d | d in n'.down :: d in n.down;
  }

  lemma CloseLocalEndShrinks(n: Net, fd: int)
    requires Wired(n) && Wired(CloseLocalEnd(n, fd))
    ensures Shrunk(n, CloseLocalEnd(n, fd))
  {
    hide Wired;
    var n' := CloseLocalEnd(n, fd);
    forall d ensures Stream(n', d) <= Stream(n, d) {
    }
  }

  lemma CloseLocalEndInv(n: Net, fd: int)
    requires Inv(n)
    ensures Inv(CloseLocalEnd(n, fd))
  {
    hide Wired, Logged, UpOk, StreamsOk, PassedFirst, OldFirst, Shrunk;
    CloseLocalEndWired(n, fd);
    CloseLocalEndShrinks(n, fd);
    ShrunkInv(n, CloseLocalEnd(n, fd));
  }

  lemma ReceiveKeepsStreams(n: Net, fd: int, d: nat)
    requires Wired(n) && CanReceive(n, fd)
    ensures Stream(Receive(n, fd), d) == Stream(n, d)
  {
    if d == fd - 1 {
      assert n.down[d] == [n.down[d][0]] + n.down[d][1..];
    }
  }

  lemma ReceiveWired(n: Net, fd: int)
    requires Wired(n) && CanReceive(n, fd)
    ensures Wired(Receive(n, fd))
  {
    var n' := Receive(n, fd);
    assert n'.down.Keys == n.down.Keys && n'.recvd.Keys == n.recvd.Keys;
  }

  lemma ReceiveInv(n: Net, fd: int)
    requires Inv(n) && CanReceive(n, fd)
    ensures Inv(Receive(n, fd))
  {
    hide Wired, Logged, UpOk, StreamsOk, PassedFirst, OldFirst, Stream;
    ReceiveWired(n, fd);
    var n' := Receive(n, fd);
    forall d | d in n.owner ensures Stream(n', d) <= Stream(n, d) {
      ReceiveKeepsStreams(n, fd, d);
    }
    ShrunkInv(n, n');
  }

  lemma TakeWired(n: Net, i: nat)
    requires Wired(n) && i < |n.fds| && Pending(n, i)
    ensures Wired(Take(n, i))
  {
    assert Take(n, i).up.Keys == n.up.Keys;
  }

  lemma TakeInv(n: Net, i: nat)
    requires Inv(n) && i < |n.fds| && Pending(n, i)
    ensures Inv(Take(n, i))
  {
    hide Wired, Logged, UpOk, StreamsOk, PassedFirst, OldFirst;
    TakeWired(n, i);
    var n' := Take(n, i);
    assert forall d :: Stream(n', d) == Stream(n, d);
    ShrunkInv(n, n');
  }

  // ----- registration and sending --------------------------------------------------------

  lemma RegisterEnds(fds: seq<nat>, up: set<nat>, owner: map<nat, nat>, nextFd: nat, m: nat, c: nat)
    requires OwnersOk(owner, nextFd, |fds|) && UpEnds(up, owner, fds) && Latest(owner, fds)
    requires m < |fds| && fds[m] == NO_FD && c >= nextFd
    ensures UpEnds(up + {c}, owner[c := m], fds[m := c]) && Latest(owner[c := m], fds[m := c])
  {
  }

  lemma RegisterModes(fds: seq<nat>, modes: seq<Mode>, up: set<nat>, owner: map<nat, nat>,
                      chMode: map<nat, Mode>, m: nat, mode: Mode, c: nat)
    requires |fds| == |modes| && m < |fds| && Registered(fds, modes, up, owner, chMode) && c !in owner
    ensures Registered(fds[m := c], modes[m := mode], up + {c}, owner[c := m], chMode[c := mode])
  {
  }

  lemma RegisterOwners(owner: map<nat, nat>, nextFd: nat, modules: nat, m: nat)
    requires OwnersOk(owner, nextFd, modules) && m < modules && nextFd > 0
    ensures nextFd !in owner && OwnersOk(owner[nextFd := m], nextFd + 2, modules)
  {
  }

  lemma RegisterWired(n: Net, m: nat, mode: Mode)
    requires Wired(n) && m < |n.fds| && n.fds[m] == NO_FD
    ensures Wired(Register(n, m, mode))
  {
    hide UpEnds, Latest, Registered, OwnersOk;
    var n', c := Register(n, m, mode), n.nextFd;
    assert n'.up.Keys == n.up.Keys + {c};
    RegisterOwners(n.owner, n.nextFd, |n.fds|, m);
    RegisterEnds(n.fds, n.up.Keys, n.owner, n.nextFd, m, c);
    RegisterModes(n.fds, n.modes, n.up.Keys, n.owner, n.chMode, m, mode, c);
    assert n'.owner.Keys == n.owner.Keys + {c} && n'.chMode.Keys == n'.owner.Keys
        && n'.recvd.Keys == n'.owner.Keys && n'.down.Keys <= n'.owner.Keys;
  }

  lemma RegisterStreams(n: Net, m: nat, mode: Mode, d: nat)
    requires Wired(n) && m < |n.fds| && n.fds[m] == NO_FD
    ensures Stream(Register(n, m, mode), d) == if d == n.nextFd then [] else Stream(n, d)
  {
  }

  /** `n'` has one more channel, through which nothing has gone yet. */
  lemma AddedInv(n: Net, n': Net, c: nat)
    requires Inv(n) && Wired(n') && c !in n.owner && n'.sent == n.sent && |n'.fds| == |n.fds|
    requires c in n'.owner && n'.owner.Keys == n.owner.Keys + {c}
    requires forall d | d in n.owner :: n'.owner[d] == n.owner[d] && d in n.chMode && n'.chMode[d] == n.chMode[d]
    requires forall d :: Stream(n', d) == if d == c then [] else Stream(n, d)
    requires n'.up == n.up[c := []]
    ensures Inv(n')
  {
    hide Wired, UpOk, StreamsOk, PassedFirst, OldFirst, Stream;
    assert Logged(n');
    AddedUp(n, n', c);
    AddedStreams(n, n', c);
    AddedFirst(n, n', c);
  }

  lemma AddedFirst(n: Net, n': Net, c: nat)
    requires Wired(n) && PassedFirst(n) && OldFirst(n) && Wired(n') && c !in n.owner
    requires n'.owner.Keys == n.owner.Keys + {c}
    requires forall d | d in n.owner :: n'.owner[d] == n.owner[d]
    requires forall d :: Stream(n', d) == if d == c then [] else Stream(n, d)
    requires n'.up == n.up[c := []]
    ensures PassedFirst(n') && OldFirst(n')
  {
    hide Wired, Before, Stream;
    EmptyFirst();
    forall d, e | d in n'.owner && e in n'.up ensures Before(Stream(n', d), n'.up[e]) {
      assert d == c || e == c || (d in n.owner && e in n.up);
    }
  }

  lemma AddedUp(n: Net, n': Net, c: nat)
    requires Wired(n) && UpOk(n) && Wired(n') && c !in n.owner && n'.sent == n.sent
    requires forall d | d in n.owner :: d in n'.owner && n'.owner[d] == n.owner[d]
    requires n'.up == n.up[c := []]
    ensures UpOk(n')
  {
    assert forall d | d in n.up :: d in n.owner;
    hide Wired, Rising, Genuine;
    EmptyRises();
    SameGenuine(n, n');
  }

  lemma EmptyRises()
    ensures Rising([])
  {
  }

  lemma EmptyFirst()
    ensures forall s :: Before(s, []) && Before([], s)
  {
  }

  lemma SameGenuine(n: Net, n': Net)
    requires n'.sent == n.sent
    ensures forall p :: Genuine(n', p) == Genuine(n, p)
  {
  }

  lemma AddedStreams(n: Net, n': Net, c: nat)
    requires Wired(n) && StreamsOk(n) && Wired(n') && n'.sent == n.sent && |n'.fds| == |n.fds|
    requires n'.owner.Keys == n.owner.Keys + {c} && c !in n.owner
    requires forall d | d in n.owner :: n'.owner[d] == n.owner[d] && d in n.chMode && n'.chMode[d] == n.chMode[d]
    requires forall d :: Stream(n', d) == if d == c then [] else Stream(n, d)
    ensures StreamsOk(n')
  {
    assert n'.chMode.Keys == n'.owner.Keys;
    hide Wired, Rising, Before, Genuine, Stream;
    EmptyRises();
    SameGenuine(n, n');
    forall d | d in n'.owner ensures StreamOk(n', d) {
      if d != c {
        assert StreamOk(n, d);
      }
    }
  }

  lemma RegisterKeys(n: Net, m: nat, mode: Mode)
    requires Inv(n) && m < |n.fds| && n.fds[m] == NO_FD
    ensures var n', c := Register(n, m, mode), n.nextFd;
            && c !in n.owner && n'.owner.Keys == n.owner.Keys + {c}
            && (forall d | d in n.owner :: n'.owner[d] == n.owner[d] && d in n.chMode && n'.chMode[d] == n.chMode[d])
  {
    assert Wired(n);
    hide Logged, UpOk, StreamsOk, PassedFirst, OldFirst, UpEnds, Registered, Latest;
  }

  lemma RegisterInv(n: Net, m: nat, mode: Mode)
    requires Inv(n) && m < |n.fds| && n.fds[m] == NO_FD
    ensures Inv(Register(n, m, mode))
  {
    var n', c := Register(n, m, mode), n.nextFd;
    RegisterWired(n, m, mode);
    RegisterKeys(n, m, mode);
    hide Inv, Wired, Stream;
    forall d ensures Stream(n', d) == if d == c then [] else Stream(n, d) {
      RegisterStreams(n, m, mode, d);
    }
    AddedInv(n, n', c);
  }

  /** A message that is sent has the highest number of its origin so far. */
  lemma SendInv(n: Net, fd: int, src: int, dest: int, msg: int)
    requires Inv(n) && CanSend(n, fd)
    ensures Inv(Send(n, fd, src, dest, msg))
  {
    var n', c := Send(n, fd, src, dest, msg), fd - 1;
    assert Wired(n') by {
      assert n'.up.Keys == n.up.Keys && |n'.sent| == |n.sent|;
    }
    assert forall d :: Stream(n', d) == Stream(n, d);
    SendLogged(n, fd, src, dest, msg);
    SendUp(n, fd, src, dest, msg);
    SendStreams(n, fd, src, dest, msg);
    hide Wired, UpOk, StreamsOk, Logged, Stream, Before;
    forall d, e | d in n.owner && e in n.up ensures Before(Stream(n', d), n'.up[e]) {
      SendPassedFirst(n, fd, src, dest, msg, d, e);
    }
  }

  lemma SendLogged(n: Net, fd: int, src: int, dest: int, msg: int)
    requires Wired(n) && Logged(n) && CanSend(n, fd)
    ensures Logged(Send(n, fd, src, dest, msg))
    ensures forall p | Genuine(n, p) :: Genuine(Send(n, fd, src, dest, msg), p)
  {
  }

  lemma SendUp(n: Net, fd: int, src: int, dest: int, msg: int)
    requires Wired(n) && UpOk(n) && CanSend(n, fd) && Wired(Send(n, fd, src, dest, msg))
    requires forall p | Genuine(n, p) :: Genuine(Send(n, fd, src, dest, msg), p)
    ensures UpOk(Send(n, fd, src, dest, msg))
  {
    var n', c := Send(n, fd, src, dest, msg), fd - 1;
    var o := n.owner[c];
    var p := Packet(o, |n.sent[o]|, src, dest, msg);
    assert Genuine(n', p);
    forall i | 0 <= i < |n.up[c]| ensures n.up[c][i].origin == o && n.up[c][i].number < p.number {
      assert Genuine(n, n.up[c][i]);
    }
    assert Rising(n'.up[c]);
  }

  lemma SendStreams(n: Net, fd: int, src: int, dest: int, msg: int)
    requires Wired(n) && StreamsOk(n) && CanSend(n, fd) && Wired(Send(n, fd, src, dest, msg))
    requires forall p | Genuine(n, p) :: Genuine(Send(n, fd, src, dest, msg), p)
    requires forall d :: Stream(Send(n, fd, src, dest, msg), d) == Stream(n, d)
    ensures StreamsOk(Send(n, fd, src, dest, msg))
  {
    var n' := Send(n, fd, src, dest, msg);
    hide Wired, Rising, Before, Genuine, Stream, CanSend;
    forall d | d in n'.owner ensures StreamOk(n', d) {
      assert StreamOk(n, d);
    }
  }

  lemma SendPassedFirst(n: Net, fd: int, src: int, dest: int, msg: int, d: nat, e: nat)
    requires Inv(n) && CanSend(n, fd) && d in n.owner && e in n.up
    ensures Before(Stream(n, d), Send(n, fd, src, dest, msg).up[e])
  {
    var s := Stream(n, d);
    assert Before(s, n.up[e]);
    forall i | 0 <= i < |s| && s[i].origin == n.owner[e] ensures s[i].number < |n.sent[s[i].origin]| {
      assert StreamOk(n, d) && Genuine(n, s[i]);
    }
  }

  // ----- passing a message on --------------------------------------------------------------

  /** `p` may be put into the channel of module `r`: it is addressed to it, and was sent after
      everything of its origin that `r` has got so far. */
  ghost predicate Ready(n: Net, p: Packet, r: nat)
    requires Wired(n)
  {
    && r < |n.fds| && n.fds[r] != NO_FD && Addressed(n, p, n.fds[r])
    && forall d {:trigger Stream(n, d)} | d in n.owner && n.owner[d] == r :: Before(Stream(n, d), [p])
  }

  /** `p` was sent before everything that waits to be passed on. */
  ghost predicate Oldest(n: Net, p: Packet) {
    Genuine(n, p) && forall e {:trigger n.up[e]} | e in n.up :: Before([p], n.up[e])
  }

  lemma ForwardFrame(n: Net, p: Packet, r: nat, ok: bool)
    requires Wired(n) && r < |n.fds| && n.fds[r] != NO_FD
    ensures var n' := Forward(n, p, r, ok);
            && Wired(n') && n'.fds == n.fds && n'.modes == n.modes && n'.up == n.up
            && n'.owner == n.owner && n'.chMode == n.chMode && n'.sent == n.sent
            && forall d :: Stream(n', d)
                 == if d == n.fds[r] && ok && d in n.down then Stream(n, d) + [p] else Stream(n, d)
  {
    var n' := Forward(n, p, r, ok);
    hide UpEnds, Registered, Latest, OwnersOk;
    assert n'.down.Keys == n.down.Keys;
    forall d ensures Stream(n', d)
                 == if d == n.fds[r] && ok && d in n.down then Stream(n, d) + [p] else Stream(n, d) {
    }
  }

  lemma RisingSnoc(s: seq<Packet>, p: Packet)
    requires Rising(s) && Before(s, [p])
    ensures Rising(s + [p])
  {
    assert [p][0] == p;
  }

  lemma BeforeSnoc(s: seq<Packet>, p: Packet, t: seq<Packet>)
    requires Before(s, t) && Before([p], t)
    ensures Before(s + [p], t)
  {
    assert [p][0] == p;
  }

  lemma BeforeSnocRight(s: seq<Packet>, t: seq<Packet>, p: Packet)
    requires Before(s, t) && Before(s, [p])
    ensures Before(s, t + [p])
  {
    assert [p][0] == p;
  }

  /** `n'` differs from `n` in that `p` has gone into channel `c`. */
  ghost predicate Appended(n: Net, n': Net, p: Packet, c: nat) {
    && n'.up == n.up && n'.owner == n.owner && n'.chMode == n.chMode && n'.sent == n.sent
    && |n'.fds| == |n.fds|
    && forall d {:trigger Stream(n', d)} :: Stream(n', d) == if d == c then Stream(n, d) + [p] else Stream(n, d)
  }

  lemma AppendedFirst(n: Net, n': Net, p: Packet, c: nat)
    requires Wired(n) && PassedFirst(n) && Wired(n') && Appended(n, n', p, c) && Oldest(n, p)
    ensures PassedFirst(n')
  {
    hide Wired, Before, Stream;
    forall d, e | d in n'.owner && e in n'.up ensures Before(Stream(n', d), n'.up[e]) {
      if d == c {
        BeforeSnoc(Stream(n, c), p, n.up[e]);
      }
    }
  }

  lemma AppendedOld(n: Net, n': Net, p: Packet, r: nat)
    requires Wired(n) && OldFirst(n) && Wired(n') && r < |n.fds| && n.fds[r] != NO_FD
    requires Appended(n, n', p, n.fds[r]) && Ready(n, p, r)
    ensures OldFirst(n')
  {
    var c := n.fds[r];
    RegisteredChannel(n, r);
    hide Wired, Before, Stream;
    forall d, e | d in n'.owner && e in n'.owner && d < e && n'.owner[d] == n'.owner[e]
      ensures Before(Stream(n', d), Stream(n', e))
    {
      if e == c {
        BeforeSnocRight(Stream(n, d), Stream(n, c), p);
      } else if d == c {
        LatestChannel(n, r, e);
      }
    }
  }

  lemma ForwardInv(n: Net, p: Packet, r: nat, ok: bool)
    requires Inv(n) && Ready(n, p, r) && Oldest(n, p)
    ensures Inv(Forward(n, p, r, ok))
  {
    hide Wired, Rising, Before, Stream, UpOk, StreamsOk, PassedFirst, OldFirst, Logged;
    var n', c := Forward(n, p, r, ok), n.fds[r];
    ForwardFrame(n, p, r, ok);
    if ok && c in n.down {
      RegisteredChannel(n, r);
      ForwardStreams(n, n', p, c);
      AppendedFirst(n, n', p, c);
      AppendedOld(n, n', p, r);
      SameLogged(n, n');
      SameUp(n, n');
    } else {
      assert n' == n;
    }
  }

  lemma SameLogged(n: Net, n': Net)
    requires Logged(n) && n'.sent == n.sent
    ensures Logged(n')
  {
  }

  lemma RegisteredChannel(n: Net, r: nat)
    requires Wired(n) && r < |n.fds| && n.fds[r] != NO_FD
    ensures n.fds[r] in n.owner && n.owner[n.fds[r]] == r
  {
  }

  lemma LatestChannel(n: Net, r: nat, e: nat)
    requires Wired(n) && r < |n.fds| && n.fds[r] != NO_FD && e in n.owner && n.owner[e] == r
    ensures e <= n.fds[r]
  {
  }

  lemma SameUp(n: Net, n': Net)
    requires Wired(n) && UpOk(n) && Wired(n')
    requires n'.up == n.up && n'.owner == n.owner && n'.sent == n.sent
    ensures UpOk(n')
  {
    assert forall d | d in n.up :: d in n.owner;
    hide Wired, Rising, Genuine;
    SameGenuine(n, n');
  }

  lemma ForwardStreams(n: Net, n': Net, p: Packet, c: nat)
    requires Wired(n) && StreamsOk(n) && Wired(n') && c in n.owner
    requires Appended(n, n', p, c)
    requires Genuine(n, p) && Addressed(n, p, c) && Before(Stream(n, c), [p])
    ensures StreamsOk(n')
  {
    hide Wired, Rising, Before, Stream, Genuine;
    SameGenuine(n, n');
    forall d | d in n'.owner ensures StreamOk(n', d) {
      assert StreamOk(n, d);
      if d == c {
        RisingSnoc(Stream(n, c), p);
      }
    }
  }

  /** Passing a message on to several modules, one after another. */
  lemma {:induction false} ForwardAllInv(n: Net, p: Packet, targets: seq<nat>, oks: seq<bool>)
    requires Inv(n) && Oldest(n, p) && |oks| == |targets|
    requires forall k | 0 <= k < |targets| :: targets[k] < |n.fds| && Ready(n, p, targets[k])
    requires forall j, k | 0 <= j < k < |targets| :: targets[j] != targets[k]
    ensures Inv(ForwardAll(n, p, targets, oks))
    decreases |targets|
  {
    hide Wired, Stream, Logged, UpOk, StreamsOk, PassedFirst, OldFirst, Before, Genuine, Addressed, Ready, Oldest;
    if targets != [] {
      var n', r := Forward(n, p, targets[0], oks[0]), targets[0];
      ReadyTarget(n, p, r);
      ForwardInv(n, p, r, oks[0]);
      ForwardFrame(n, p, r, oks[0]);
      forall k | 1 <= k < |targets| ensures Ready(n', p, targets[k]) {
        StillReady(n, p, r, oks[0], targets[k]);
      }
      StillOldest(n, n', p);
      ForwardAllInv(n', p, targets[1..], oks[1..]);
    }
  }

  lemma ReadyTarget(n: Net, p: Packet, r: nat)
    requires Wired(n) && Ready(n, p, r)
    ensures r < |n.fds| && n.fds[r] != NO_FD
  {
  }

  lemma StillReady(n: Net, p: Packet, r: nat, ok: bool, q: nat)
    requires Wired(n) && Ready(n, p, r) && Ready(n, p, q) && r != q
    ensures Wired(Forward(n, p, r, ok)) && Ready(Forward(n, p, r, ok), p, q)
  {
    hide Wired, Stream, Before, Forward;
    ForwardFrame(n, p, r, ok);
    RegisteredChannel(n, r);
    RegisteredChannel(n, q);
  }

  lemma StillOldest(n: Net, n': Net, p: Packet)
    requires Oldest(n, p) && n'.up == n.up && n'.sent == n.sent
    ensures Oldest(n', p)
  {
    hide Before;
  }

  lemma {:induction false} ListenersFacts(n: Net, src: int, i: nat)
    requires |n.fds| == |n.modes| && i <= |n.fds|
    ensures var l := Listeners(n, src, i);
            && (forall j, k | 0 <= j < k < |l| :: l[j] < l[k])
            && (forall r :: r in l <==> i <= r < |n.fds| && n.fds[r] != NO_FD && r != src && n.modes[r] == SendRecv)
    decreases |n.fds| - i
  {
    if i < |n.fds| {
      ListenersFacts(n, src, i + 1);
    }
  }

  /** The dispatcher's round for one message keeps everything in order. */
  lemma DispatchInv(n: Net, lo: nat, i: nat, oks: seq<bool>)
    requires Inv(n) && lo <= |n.fds| && i < |n.fds| && Pending(n, i)
    requires var p := n.up[n.fds[i]][0]; |oks| == |Targets(n, lo, p.src, p.dest)|
    ensures Inv(Dispatch(n, lo, i, oks))
  {
    var n', p, e := Take(n, i), n.up[n.fds[i]][0], n.fds[i];
    var ts := Targets(n, lo, p.src, p.dest);
    TakeInv(n, i);
    TakenIsOldest(n, i);
    ListenersFacts(n, p.src, lo);
    forall k | 0 <= k < |ts| ensures Ready(n', p, ts[k]) {
      TakenIsReady(n, lo, i, ts[k]);
    }
    ForwardAllInv(n', p, ts, oks);
  }

  lemma TakenIsOldest(n: Net, i: nat)
    requires Inv(n) && i < |n.fds| && Pending(n, i)
    ensures Oldest(Take(n, i), n.up[n.fds[i]][0])
  {
    var e := n.fds[i];
    var p, q := n.up[e][0], n.up[e];
    assert Genuine(n, q[0]) && Rising(q);
    forall d | d in n.up && d != e ensures Before([p], n.up[d]) {
      assert n.owner[d] != n.owner[e];
      assert forall k | 0 <= k < |n.up[d]| :: n.up[d][k].origin == n.owner[d];
    }
    assert Before([p], q[1..]);
  }

  lemma TakenIsReady(n: Net, lo: nat, i: nat, r: nat)
    requires Inv(n) && lo <= |n.fds| && i < |n.fds| && Pending(n, i)
    requires var p := n.up[n.fds[i]][0]; r in Targets(n, lo, p.src, p.dest)
    ensures Wired(Take(n, i)) && Ready(Take(n, i), n.up[n.fds[i]][0], r)
  {
    var n', e := Take(n, i), n.fds[i];
    var p := n.up[e][0];
    TakeWired(n, i);
    ListenersFacts(n, p.src, lo);
    assert r < |n.fds| && n.fds[r] != NO_FD;
    RegisteredChannel(n, r);
    assert n.chMode[n.fds[r]] == n.modes[r];
    forall d | d in n.owner && n.owner[d] == r ensures Before(Stream(n', d), [p]) {
      assert Stream(n', d) == Stream(n, d);
      assert Before(Stream(n, d), n.up[e]);
    }
  }

  // ----- runs ----------------------------------------------------------------------------

  datatype Event =
    | MakeChannel(m: nat, mode: Mode)
    | DropDispatchEnd(m: nat)
    | DropLocalEnd(fd: int)
    | SendUp(fd: int, src: int, dest: int, msg: int)
    | PassOn(i: nat, oks: seq<bool>)
    | Read(fd: int)

  /** One event; an event that is not possible changes nothing. */
  ghost function Step(n: Net, lo: nat, ev: Event): Net
    requires |n.fds| == |n.modes| && lo <= |n.fds|
  {
    match ev
    case MakeChannel(m, mode) =>
      if m < |n.fds| && n.fds[m] == NO_FD then Register(n, m, mode) else n
    case DropDispatchEnd(m) => if m < |n.fds| then CloseDispatchEnd(n, m) else n
    case DropLocalEnd(fd) => CloseLocalEnd(n, fd)
    case SendUp(fd, src, dest, msg) => if CanSend(n, fd) then Send(n, fd, src, dest, msg) else n
    case PassOn(i, oks) =>
      if i < |n.fds| && Pending(n, i)
         && |oks| == |Targets(n, lo, n.up[n.fds[i]][0].src, n.up[n.fds[i]][0].dest)|
      then Dispatch(n, lo, i, oks) else n
    case Read(fd) => if CanReceive(n, fd) then Receive(n, fd) else n
  }

  lemma {:induction false} ForwardAllFds(n: Net, p: Packet, targets: seq<nat>, oks: seq<bool>)
    requires |oks| == |targets| && forall k | 0 <= k < |targets| :: targets[k] < |n.fds|
    ensures ForwardAll(n, p, targets, oks).fds == n.fds && ForwardAll(n, p, targets, oks).modes == n.modes
    decreases |targets|
  {
    if targets != [] {
      ForwardAllFds(Forward(n, p, targets[0], oks[0]), p, targets[1..], oks[1..]);
    }
  }

  lemma StepInv(n: Net, lo: nat, ev: Event)
    requires Inv(n) && lo <= |n.fds|
    ensures Inv(Step(n, lo, ev)) && |Step(n, lo, ev).fds| == |n.fds|
  {
    hide Inv;
    assert |n.fds| == |n.modes| by { WiredSizes(n); }
    match ev
    case MakeChannel(m, mode) =>
      if m < |n.fds| && n.fds[m] == NO_FD {
        RegisterInv(n, m, mode);
      }
    case DropDispatchEnd(m) =>
      if m < |n.fds| {
        CloseDispatchEndInv(n, m);
      }
    case DropLocalEnd(fd) => CloseLocalEndInv(n, fd);
    case SendUp(fd, src, dest, msg) =>
      if CanSend(n, fd) {
        SendInv(n, fd, src, dest, msg);
      }
    case PassOn(i, oks) =>
      if i < |n.fds| && Pending(n, i) {
        var p := n.up[n.fds[i]][0];
        var ts := Targets(n, lo, p.src, p.dest);
        if |oks| == |ts| {
          DispatchInv(n, lo, i, oks);
          ForwardAllFds(Take(n, i), p, ts, oks);
        }
      }
    case Read(fd) =>
      if CanReceive(n, fd) {
        ReceiveInv(n, fd);
      }
  }

  lemma WiredSizes(n: Net)
    requires Inv(n)
    ensures |n.fds| == |n.modes| == |n.sent|
  {
  }

  /** The state after a run of events. */
  ghost function Run(n: Net, lo: nat, evs: seq<Event>): Net
    requires Inv(n) && lo <= |n.fds|
    decreases |evs|
  {
    if evs == [] then n
    else
      StepInv(n, lo, evs[0]);
      Run(Step(n, lo, evs[0]), lo, evs[1..])
  }

  lemma {:induction false} RunInv(n: Net, lo: nat, evs: seq<Event>)
    requires Inv(n) && lo <= |n.fds|
    ensures Inv(Run(n, lo, evs))
    decreases |evs|
  {
    if evs != [] {
      StepInv(n, lo, evs[0]);
      RunInv(Step(n, lo, evs[0]), lo, evs[1..]);
    }
  }

  /** `a` is `b` with some messages left out. */
  ghost predicate Subsequence(a: seq<Packet>, b: seq<Packet>)
    decreases |b|
  {
    if a == [] then true
    else b != [] && (Subsequence(a, b[1..]) || (a[0] == b[0] && Subsequence(a[1..], b[1..])))
  }

  /** The messages of one origin. */
  ghost function FromOrigin(s: seq<Packet>, o: nat): seq<Packet> {
    if s == [] then []
    else (if s[0].origin == o then [s[0]] else []) + FromOrigin(s[1..], o)
  }

  /** What a module has read from the given channels, one channel after the other. */
  ghost function ReadFrom(n: Net, cs: seq<nat>): seq<Packet>
    requires forall k | 0 <= k < |cs| :: cs[k] in n.recvd
  {
    if cs == [] then [] else n.recvd[cs[0]] + ReadFrom(n, cs[1..])
  }

  /** Messages of origin `o` come in the order of their numbers. */
  ghost predicate InTurn(s: seq<Packet>, o: nat) {
    forall i, j | 0 <= i < j < |s| && s[i].origin == o == s[j].origin :: s[i].number < s[j].number
  }

  lemma {:induction false} FromOriginIsSubsequence(s: seq<Packet>, o: nat, log: seq<Packet>, k: nat)
    requires k <= |log| && InTurn(s, o)
    requires forall i | 0 <= i < |s| && s[i].origin == o ::
               k <= s[i].number < |log| && log[s[i].number] == s[i]
    ensures Subsequence(FromOrigin(s, o), log[k..])
    decreases |s| + |log| - k
  {
    if s != [] {
      if s[0].origin != o {
        assert FromOrigin(s, o) == FromOrigin(s[1..], o);
        FromOriginIsSubsequence(s[1..], o, log, k);
      } else if s[0].number == k {
        assert log[k..][0] == s[0] && log[k..][1..] == log[k + 1..];
        assert FromOrigin(s, o)[1..] == FromOrigin(s[1..], o);
        FromOriginIsSubsequence(s[1..], o, log, k + 1);
      } else {
        assert log[k..][1..] == log[k + 1..];
        FromOriginIsSubsequence(s, o, log, k + 1);
      }
    }
  }

  lemma {:induction false} ReadFromRises(n: Net, r: nat, cs: seq<nat>)
    requires Inv(n)
    requires forall k | 0 <= k < |cs| :: cs[k] in n.owner && n.owner[cs[k]] == r
    requires forall j, k | 0 <= j < k < |cs| :: cs[j] < cs[k]
    ensures forall k | 0 <= k < |cs| :: cs[k] in n.recvd
    ensures Rising(ReadFrom(n, cs))
    ensures forall i | 0 <= i < |ReadFrom(n, cs)| :: Genuine(n, ReadFrom(n, cs)[i])
    ensures forall d | d in n.owner && n.owner[d] == r && (forall k | 0 <= k < |cs| :: d < cs[k]) ::
              Before(n.recvd[d], ReadFrom(n, cs))
  {
    if cs != [] {
      var c, rest := cs[0], ReadFrom(n, cs[1..]);
      ReadFromRises(n, r, cs[1..]);
      ReadPart(n, c);
      var a := n.recvd[c];
      hide Inv, Rising, Before, Genuine;
      RisingConcat(a, rest);
      forall i | 0 <= i < |a + rest| ensures Genuine(n, (a + rest)[i]) {
        assert (a + rest)[i] == if i < |a| then a[i] else rest[i - |a|];
      }
      forall d | d in n.owner && n.owner[d] == r && (forall k | 0 <= k < |cs| :: d < cs[k])
        ensures Before(n.recvd[d], a + rest)
      {
        ReadInOrder(n, d, c);
        assert Before(n.recvd[d], rest);
        BeforeConcat(n.recvd[d], a, rest);
      }
    } else {
      EmptyFirst();
      EmptyRises();
    }
  }

  lemma ReadInOrder(n: Net, d: nat, e: nat)
    requires Inv(n) && d in n.owner && e in n.owner && d < e && n.owner[d] == n.owner[e]
    ensures d in n.recvd && e in n.recvd && Before(n.recvd[d], n.recvd[e])
  {
    ReadPart(n, d);
    ReadPart(n, e);
    assert Before(Stream(n, d), Stream(n, e));
    BeforeParts(Stream(n, d), Stream(n, e), n.recvd[d], n.recvd[e]);
  }

  lemma RisingConcat(a: seq<Packet>, b: seq<Packet>)
    requires Rising(a) && Rising(b) && Before(a, b)
    ensures Rising(a + b)
  {
  }

  lemma BeforeConcat(s: seq<Packet>, a: seq<Packet>, b: seq<Packet>)
    requires Before(s, a) && Before(s, b)
    ensures Before(s, a + b)
  {
  }

  lemma ReadPart(n: Net, d: nat)
    requires Inv(n) && d in n.owner
    ensures d in n.recvd && n.recvd[d] <= Stream(n, d) && Rising(n.recvd[d])
    ensures forall i | 0 <= i < |n.recvd[d]| :: Genuine(n, n.recvd[d][i]) && Addressed(n, n.recvd[d][i], d)
  {
    assert StreamOk(n, d);
    assert forall i | 0 <= i < |n.recvd[d]| :: n.recvd[d][i] == Stream(n, d)[i];
  }

  /** After every run: what a module reads from its channels, in the order it made them, is
      for every origin a subsequence of what that origin sent. */
  lemma InOrder(hi: nat, lo: nat, evs: seq<Event>, r: nat, cs: seq<nat>, o: nat)
    requires lo <= hi && o < hi
    requires var n := Run(Initial(hi), lo, evs);
             forall k | 0 <= k < |cs| :: cs[k] in n.owner && n.owner[cs[k]] == r
    requires forall j, k | 0 <= j < k < |cs| :: cs[j] < cs[k]
    ensures var n := Run(Initial(hi), lo, evs);
            && |n.sent| == hi && (forall k | 0 <= k < |cs| :: cs[k] in n.recvd)
            && Subsequence(FromOrigin(ReadFrom(n, cs), o), n.sent[o])
  {
    var n := Run(Initial(hi), lo, evs);
    RunInv(Initial(hi), lo, evs);
    RunSize(Initial(hi), lo, evs);
    ReadFromRises(n, r, cs);
    FromOriginIsSubsequence(ReadFrom(n, cs), o, n.sent[o], 0);
    assert n.sent[o][0..] == n.sent[o];
  }

  lemma {:induction false} RunSize(n: Net, lo: nat, evs: seq<Event>)
    requires Inv(n) && lo <= |n.fds|
    ensures |Run(n, lo, evs).fds| == |n.fds|
    decreases |evs|
  {
    if evs != [] {
      StepInv(n, lo, evs[0]);
      RunSize(Step(n, lo, evs[0]), lo, evs[1..]);
    }
  }

  /** After every run: what a module has read was sent to it, or broadcast by another claimed
      source while it was registered to receive, and it reads nothing twice. */
  lemma ReadOnce(hi: nat, lo: nat, evs: seq<Event>, d: nat, i: nat, e: nat, j: nat)
    requires lo <= hi
    requires var n := Run(Initial(hi), lo, evs);
             && d in n.owner && e in n.owner && n.owner[d] == n.owner[e]
             && d in n.recvd && e in n.recvd && i < |n.recvd[d]| && j < |n.recvd[e]|
    ensures var n := Run(Initial(hi), lo, evs);
            Genuine(n, n.recvd[d][i]) && Addressed(n, n.recvd[d][i], d)
    ensures var n := Run(Initial(hi), lo, evs);
            n.recvd[d][i] == n.recvd[e][j] ==> d == e && i == j
  {
    var n := Run(Initial(hi), lo, evs);
    RunInv(Initial(hi), lo, evs);
    ReadPart(n, d);
    ReadPart(n, e);
    assert d < e ==> Before(Stream(n, d), Stream(n, e));
    assert e < d ==> Before(Stream(n, e), Stream(n, d));
  }
}
