/** The table over the hash table performs what the interleavings of the shared table amount to:
    the calls in the order in which they took effect, with the answers they were given. */
module SubdevReplay {
  import opened UtHash
  import opened KeyMaps
  import opened Subdev
  import SubdevSpec
  import Spec = SubdevSystem
  import Safety = SubdevSafety
  import Runs = SubdevRuns

  ghost function OpsOf(log: seq<Spec.Entry>): (ops: seq<Spec.Op>)
    ensures |ops| == |log| && forall i | 0 <= i < |log| :: ops[i] == log[i].op
  {
    seq(|log|, i requires 0 <= i < |log| => log[i].op)
  }

  // ----- the operations of a run are such as the table accepts ---------------------------

  ghost predicate AllFit(s: Spec.State) {
    && (forall t {:trigger s.threads[t]} | t in s.threads :: Spec.Fitting(s.threads[t].c.op))
    && (forall i {:trigger s.log[i]} | 0 <= i < |s.log| :: Spec.Fitting(s.log[i].op))
  }

  lemma StepFits(h: Spec.Key -> nat, s: Spec.State, ev: Spec.Event)
    requires AllFit(s)
    ensures AllFit(Spec.Step(h, s, ev))
  {
    hide AllFit, Carries, Spec.Begin, Spec.DeviceStep, Spec.ReaderStep;
    if ev.Begins? {
      BeginFits(h, s, ev.t, ev.op);
    } else if ev.t in s.threads {
      if Spec.Device(s.threads[ev.t]) {
        DeviceCarries(h, s, ev.t, ev.ok, ev.chains);
        CarriedFits(s, Spec.Step(h, s, ev), ev.t);
      } else {
        ReaderCarries(h, s, ev.t, ev.ok);
        CarriedFits(s, Spec.Step(h, s, ev), ev.t);
      }
    }
  }

  lemma BeginFits(h: Spec.Key -> nat, s: Spec.State, t: nat, op: Spec.Op)
    requires AllFit(s)
    ensures t !in s.threads ==> AllFit(Spec.Begin(h, s, t, op))
  {
    hide Spec.Chain, Spec.At;
  }

  /** A step moves its own thread on in its call, or ends the call, and logs no other. */
  ghost predicate Carries(s: Spec.State, n: Spec.State, t: nat)
    requires t in s.threads
  {
    && (forall u {:trigger n.threads[u]} | u in n.threads ::
          if u == t then n.threads[u].c == s.threads[t].c else u in s.threads && n.threads[u] == s.threads[u])
    && s.log <= n.log && |n.log| <= |s.log| + 1
    && (|n.log| > |s.log| ==> n.log[|s.log|].op == s.threads[t].c.op)
  }

  lemma AddCarries(h: Spec.Key -> nat, s: Spec.State, t: nat, ok: bool, chains: seq<seq<nat>>)
    requires t in s.threads
    requires var pc := s.threads[t]; pc.AddWalk? || pc.AddMalloc? || pc.AddWait? || pc.AddLinking?
    ensures Carries(s, Spec.DeviceStep(h, s, t, ok, chains), t)
  {
    hide Spec.ChainsOk, Spec.HeldElsewhere, Spec.Next, Spec.Without, Spec.Chain, Spec.Readable, Spec.At, Spec.ResultAt;
    hide Spec.Address, Spec.Free;
  }

  lemma SetCarries(h: Spec.Key -> nat, s: Spec.State, t: nat, ok: bool, chains: seq<seq<nat>>)
    requires t in s.threads
    requires var pc := s.threads[t]; pc.SetWait? || pc.SetStore? || pc.AllWait? || pc.AllNext? || pc.WUnlock?
    ensures Carries(s, Spec.DeviceStep(h, s, t, ok, chains), t)
  {
    hide Spec.ChainsOk, Spec.HeldElsewhere, Spec.Next, Spec.Without, Spec.Chain, Spec.Readable, Spec.At, Spec.ResultAt;
    hide Spec.Address, Spec.Free;
  }

  lemma DelCarries(h: Spec.Key -> nat, s: Spec.State, t: nat, ok: bool, chains: seq<seq<nat>>)
    requires t in s.threads
    requires var pc := s.threads[t]; pc.DelWalk? || pc.DelWait? || pc.DelUnlinking? || pc.DelUnlock? || pc.DelFree?
    ensures Carries(s, Spec.DeviceStep(h, s, t, ok, chains), t)
  {
    hide Spec.ChainsOk, Spec.HeldElsewhere, Spec.Next, Spec.Without, Spec.Chain, Spec.Readable, Spec.At, Spec.ResultAt;
    hide Spec.Address, Spec.Free;
  }

  lemma LookCarries(h: Spec.Key -> nat, s: Spec.State, t: nat, ok: bool)
    requires t in s.threads
    requires var pc := s.threads[t]; pc.RWait? || pc.RLook? || pc.RGot?
    ensures Carries(s, Spec.ReaderStep(h, s, t, ok), t)
  {
    hide Spec.ChainsOk, Spec.HeldElsewhere, Spec.Next, Spec.Without, Spec.Chain, Spec.Readable, Spec.At, Spec.ResultAt;
    hide Spec.Address, Spec.Free;
  }

  lemma ListCarries(h: Spec.Key -> nat, s: Spec.State, t: nat, ok: bool)
    requires t in s.threads
    requires var pc := s.threads[t]; pc.RList? || pc.RSweep? || pc.RUnlock?
    ensures Carries(s, Spec.ReaderStep(h, s, t, ok), t)
  {
    hide Spec.ChainsOk, Spec.HeldElsewhere, Spec.Next, Spec.Without, Spec.Chain, Spec.Readable, Spec.At, Spec.ResultAt;
    hide Spec.Address, Spec.Free;
  }

  lemma DeviceCarries(h: Spec.Key -> nat, s: Spec.State, t: nat, ok: bool, chains: seq<seq<nat>>)
    requires t in s.threads && Spec.Device(s.threads[t])
    ensures Carries(s, Spec.DeviceStep(h, s, t, ok, chains), t)
  {
    hide Carries, Spec.DeviceStep;
    var pc := s.threads[t];
    if pc.AddWalk? || pc.AddMalloc? || pc.AddWait? || pc.AddLinking? {
      AddCarries(h, s, t, ok, chains);
    } else if pc.SetWait? || pc.SetStore? || pc.AllWait? || pc.AllNext? || pc.WUnlock? {
      SetCarries(h, s, t, ok, chains);
    } else {
      DelCarries(h, s, t, ok, chains);
    }
  }

  lemma ReaderCarries(h: Spec.Key -> nat, s: Spec.State, t: nat, ok: bool)
    requires t in s.threads && !Spec.Device(s.threads[t])
    ensures Carries(s, Spec.ReaderStep(h, s, t, ok), t)
  {
    hide Carries, Spec.ReaderStep;
    var pc := s.threads[t];
    if pc.RWait? || pc.RLook? || pc.RGot? {
      LookCarries(h, s, t, ok);
    } else {
      ListCarries(h, s, t, ok);
    }
  }

  lemma CarriedFits(s: Spec.State, n: Spec.State, t: nat)
    requires AllFit(s) && t in s.threads && Carries(s, n, t)
    ensures AllFit(n)
  {
    hide Spec.Fitting;
  }

  lemma {:induction false} RunFits(h: Spec.Key -> nat, s: Spec.State, evs: seq<Spec.Event>)
    requires AllFit(s)
    ensures AllFit(Spec.Run(h, s, evs))
    decreases |evs|
  {
    hide AllFit, Spec.Step;
    if evs != [] {
      StepFits(h, s, evs[0]);
      RunFits(h, Spec.Step(h, s, evs[0]), evs[1..]);
    }
  }

  // ----- performing them -----------------------------------------------------------------

  lemma {:induction false} ReplayIsRun(log: seq<Spec.Entry>, k: nat)
    requires k <= |log|
    ensures Safety.Replay(log[..k]) == Spec.After([], OpsOf(log)[..k])
  {
    hide Spec.Apply;
    if k > 0 {
      ReplayIsRun(log, k - 1);
      assert log[..k][..k - 1] == log[..k - 1] && OpsOf(log)[..k][..k - 1] == OpsOf(log)[..k - 1];
    }
  }

  /** After every run in every interleaving: an empty table over the hash table that performs
      the logged calls one after another gives each the answer it was given, and ends with the
      contents that the shared table has when no call is under way. */
  method Reenact(h: Spec.Key -> nat, buckets: nat, ghost evs: seq<Spec.Event>, d: SubdevHash, ops: seq<Spec.Op>)
    returns (results: seq<Spec.Result>)
    requires buckets > 0 && d.Valid() && d.table.list == []
    requires ops == OpsOf(Spec.Run(h, Spec.Initial(buckets), evs).log)
    modifies d`trace, d`freed, d.table, d.table.buckets, d.table.bloomBv
    ensures d.Valid() && UniqueKeys(d.table.list)
    ensures var s := Spec.Run(h, Spec.Initial(buckets), evs);
            && |results| == |s.log| && (forall i | 0 <= i < |results| :: results[i] == s.log[i].result)
            && (s.threads == map[] ==> SubdevSpec.Cells(d.table.list) == Safety.Snapshot(s.tbl.heap, s.tbl.list))
  {
    hide SubdevHash.Valid, Spec.Run, Spec.Answers, Safety.Legal, SubdevSpec.Cells, Safety.Replay, Safety.Snapshot;
    hide Spec.Initial;
    ghost var s := Spec.Run(h, Spec.Initial(buckets), evs);
    Runs.EveryRunIsLinearizable(h, buckets, evs, 0);
    InitialFits(buckets);
    RunFits(h, Spec.Initial(buckets), evs);
    OpsFit(s);
    NoCells(d);
    results := SubdevSpec.PerformAll(d, ops);
    SameAnswers(s.log, results);
    QuietTable(s);
  }

  lemma InitialFits(buckets: nat)
    requires buckets > 0
    ensures AllFit(Spec.Initial(buckets))
  {
  }

  lemma OpsFit(s: Spec.State)
    requires AllFit(s)
    ensures forall i | 0 <= i < |OpsOf(s.log)| :: Spec.Fitting(OpsOf(s.log)[i])
  {
  }

  lemma NoCells(d: SubdevHash)
    requires d.table.list == []
    ensures UniqueKeys(d.table.list) && SubdevSpec.Cells(d.table.list) == []
  {
  }

  lemma SameAnswers(log: seq<Spec.Entry>, results: seq<Spec.Result>)
    requires Safety.Legal(log) && Spec.Answers([], OpsOf(log), results)
    ensures |results| == |log| && forall i | 0 <= i < |log| :: results[i] == log[i].result
    ensures Spec.After([], OpsOf(log)) == Safety.Replay(log)
  {
    hide Spec.Apply, Spec.After, Safety.Replay;
    forall i | 0 <= i < |log| ensures results[i] == log[i].result {
      ReplayIsRun(log, i);
    }
    ReplayIsRun(log, |log|);
    assert log[..|log|] == log && OpsOf(log)[..|log|] == OpsOf(log);
  }

  /** Nobody sweeps or deletes when nobody is in a call. */
  lemma QuietTable(s: Spec.State)
    ensures s.threads == map[] ==>
              !Safety.DeletingAll(s.threads)
              && Spec.Cleared(Safety.Replay(s.log), Safety.SweptTo(s.threads)) == Safety.Replay(s.log)
  {
    hide Safety.Replay;
    if s.threads == map[] {
      var items := Safety.Replay(s.log);
      assert Spec.Cleared(items, 0) == items;
    }
  }
}
