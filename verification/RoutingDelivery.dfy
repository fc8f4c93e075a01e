/** Whom the dispatcher hands a message to, said without the lists and loops it uses. */
module RoutingDelivery {
  import opened Routing

  /** Module `r` is registered and `p` is for it: named, or one of all but the claimed source that
      have asked to receive. */
  ghost predicate Meant(n: Net, lo: nat, p: Packet, r: nat)
    requires |n.fds| == |n.modes|
  {
    && lo <= r < |n.fds| && n.fds[r] != NO_FD
    && (p.dest == r || (p.dest == |n.fds| && p.src != r && n.modes[r] == SendRecv))
  }

  /** The targets of a message are exactly the modules it is meant for, each once. */
  lemma TargetsIff(n: Net, lo: nat, p: Packet)
    requires |n.fds| == |n.modes| && lo <= |n.fds|
    ensures var ts := Targets(n, lo, p.src, p.dest);
            && (forall r :: r in ts <==> Meant(n, lo, p, r))
            && (forall j, k | 0 <= j < k < |ts| :: ts[j] < ts[k])
  {
    ListenersFacts(n, p.src, lo);
    hide Listeners;
  }

  /** What handing `p` on makes of channel `d`. */
  ghost predicate Handed(n: Net, n': Net, p: Packet, targets: seq<nat>, oks: seq<bool>, d: nat)
    requires |oks| == |targets| && forall k | 0 <= k < |targets| :: targets[k] < |n.fds|
    requires d in n.down && d in n'.down
  {
    n'.down[d] == n.down[d] + if exists k :: 0 <= k < |targets| && n.fds[targets[k]] == d && oks[k] then [p] else []
  }

  lemma {:induction false} ForwardAllHands(n: Net, p: Packet, targets: seq<nat>, oks: seq<bool>, d: nat)
    requires |oks| == |targets| && forall k | 0 <= k < |targets| :: targets[k] < |n.fds|
    requires forall j, k | 0 <= j < k < |targets| :: n.fds[targets[j]] != n.fds[targets[k]]
    requires d in n.down
    ensures d in ForwardAll(n, p, targets, oks).down && Handed(n, ForwardAll(n, p, targets, oks), p, targets, oks, d)
    decreases |targets|
  {
    if targets != [] {
      var n1 := Forward(n, p, targets[0], oks[0]);
      ForwardAllHands(n1, p, targets[1..], oks[1..], d);
      var end := ForwardAll(n, p, targets, oks);
      if n.fds[targets[0]] == d && oks[0] {
        assert n1.down[d] == n.down[d] + [p];
        assert forall k | 0 <= k < |targets[1..]| :: n1.fds[targets[1..][k]] != d;
        assert end.down[d] == n1.down[d];
      } else {
        assert n1.down[d] == n.down[d];
        if k :| 0 <= k < |targets| && n.fds[targets[k]] == d && oks[k] {
          assert targets[1..][k - 1] == targets[k] && oks[1..][k - 1];
        }
        if k :| 0 <= k < |targets[1..]| && n1.fds[targets[1..][k]] == d && oks[1..][k] {
          assert targets[k + 1] == targets[1..][k] && oks[k + 1];
        }
      }
    }
  }

  lemma OwnEnds(n: Net, r: nat, q: nat)
    requires Inv(n) && r < |n.fds| && q < |n.fds| && n.fds[r] != NO_FD && n.fds[q] != NO_FD && r != q
    ensures n.fds[r] != n.fds[q]
  {
  }

  /** When the dispatcher reads a message, every module that it is meant for and whose end is open
      gets it once, unless the send to it fails; nobody else gets anything. */
  lemma DispatchDelivers(n: Net, lo: nat, i: nat, oks: seq<bool>, d: nat)
    requires Inv(n) && lo <= |n.fds| && i < |n.fds| && |n.fds| == |n.modes| && Pending(n, i) && d in n.down
    requires var p := n.up[n.fds[i]][0]; |oks| == |Targets(n, lo, p.src, p.dest)|
    ensures var n', p := Dispatch(n, lo, i, oks), n.up[n.fds[i]][0];
            && d in n'.down && (n'.down[d] == n.down[d] || n'.down[d] == n.down[d] + [p])
            && (n'.down[d] != n.down[d] ==> exists r: nat :: Meant(n, lo, p, r) && n.fds[r] == d)
            && ((forall k | 0 <= k < |oks| :: oks[k]) && (exists r: nat :: Meant(n, lo, p, r) && n.fds[r] == d) ==>
                  n'.down[d] == n.down[d] + [p])
    ensures var n', p := Dispatch(n, lo, i, oks), n.up[n.fds[i]][0];
            var ts := Targets(n, lo, p.src, p.dest);
            (forall k | 0 <= k < |ts| && n.fds[ts[k]] == d :: !oks[k]) ==> n'.down[d] == n.down[d]
  {
    var p := n.up[n.fds[i]][0];
    var ts := Targets(n, lo, p.src, p.dest);
    TargetsIff(n, lo, p);
    hide Targets, Listeners;
    forall j, k | 0 <= j < k < |ts| ensures n.fds[ts[j]] != n.fds[ts[k]] {
      assert ts[j] in ts && ts[k] in ts;
      OwnEnds(n, ts[j], ts[k]);
    }
    hide Inv;
    ForwardAllHands(Take(n, i), p, ts, oks, d);
    if k :| 0 <= k < |ts| && n.fds[ts[k]] == d && oks[k] {
      assert ts[k] in ts && Meant(n, lo, p, ts[k]);
    }
    if r: nat :| Meant(n, lo, p, r) && n.fds[r] == d {
      assert r in ts;
    }
  }
}
