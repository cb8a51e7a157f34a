/** Runs that show what does not hold of a vat. */
module Scenarios {
  import opened Options
  import opened Tables
  import opened Rpc
  import opened JoinLaws
  import opened ExportLaws
  import opened HandoffLaws
  import opened Vats
  import opened Questions
  import opened EmbargoLimits

  function Extend(r: Run, e: Event): (r': Run)
    requires IsRun(r) && e.at < |r.states[0].conns|
    ensures IsRun(r') && r'.events == r.events + [e] && r'.effects[..|r.effects|] == r.effects
    ensures r'.states[0] == r.states[0]
  {
    RunOk(r, |r.events|);
    WorldIsSized(r.states[|r.events|]);
    var next := After(r.states[|r.events|], e);
    Run(r.states + [next.world], r.events + [e], r.effects + [next.effects])
  }

  lemma WorldIsSized(w: World)
    requires WorldOk(w)
    ensures WorldSized(w)
  {
    hide SetsOk, JoinsOk, ExportsOk;
    forall k | 0 <= k < |w.conns|
      ensures Sized(w.conns[k])
    {
      assert ConnOk(w.conns[k]);
    }
  }

  const THING := Capability(1, 1)

  /** The export table with one object in it. */
  function Holding(refcount: int): seq<Export>
  {
    NewConn().exports[0 := Export(true, refcount, THING.server, THING.dispatch)]
  }

  lemma Unused<T>(s: seq<T>, p: T -> bool)
    requires forall i :: 0 <= i < |s| ==> !p(s[i])
    ensures First(s, p) == |s|
  {
  }

  lemma FirstExport()
    ensures ExportCap(NewConn().exports, THING) == Exported(Holding(1), 0)
    ensures forall n :: ExportCap(Holding(n), THING) == Exported(Holding(n + 1), 0)
  {
    Unused(NewConn().exports, HasServer(THING.server));
    assert FreeExport()(NewConn().exports[0]);
    forall n
      ensures ExportCap(Holding(n), THING) == Exported(Holding(n + 1), 0)
    {
      assert HasServer(THING.server)(Holding(n)[0]);
      assert AddRef(Holding(n), 0) == Holding(n + 1);
    }
  }

  /** A run of n connections in which the first has provided an object. */
  lemma Provided(n: nat) returns (r: Run)
    requires n > 0
    ensures IsRun(r) && |r.events| == 3 && |r.states[0].conns| == |r.states[3].conns| == n
    ensures r.states[3].conns[0].exports == Holding(2) && r.states[3].conns[0].bootstrap == Some(THING)
    ensures r.states[3].provisions == NewProvisions()[0 := Provision(true, 7, 1, 1, 0, 2, false, 0)]
    ensures forall k :: 0 < k < n ==> r.states[3].conns[k] == NewConn()
  {
    hide IsRun, Keep, ExportCap, Claimable, HeldFor, FreeProvision;
    r := Run([NewWorld(n)], [], []);
    NewRun(n);
    FirstExport();
    r := Extend(r, SetBootstrap(0, Some(THING)));
    r := Extend(r, Receive(0, Bootstrap(1)));
    assert r.states[2].conns[0].exports == Holding(1);
    r := Extend(r, Receive(0, Provide(2, ImportedCap(0), Some(7))));
    ProvisionSlots(r.states[2].provisions, r.states[3].provisions);
  }

  /** A run that holds an Accept, whose export is then released. */
  lemma ReleasedWhileHeld() returns (r: Run)
    ensures IsRun(r) && |r.events| == 5 && |r.states[0].conns| == |r.states[5].conns| == 1
    ensures Claims(r, 3, 0) && r.events[4] == Receive(0, Release(0, 3))
    ensures var c, ps := r.states[5].conns[0], r.states[5].provisions;
            && c.exports == NewConn().exports && c.bootstrap == Some(THING)
            && First(ps, HeldFor(2)) == 0 < |ps| && ps[0].acceptQid == 3 && ps[0].exportId == 0
  {
    hide IsRun, Keep, ExportCap, Claimable, HeldFor, FreeProvision;
    r := Provided(1);
    FirstExport();
    ProvisionSlots(NewProvisions(), r.states[3].provisions);
    r := Extend(r, Receive(0, Accept(3, Some(7), true)));
    ClaimSlots(r.states[3].provisions, r.states[4].provisions);
    assert r.states[4].conns[0].exports == Holding(3);
    r := Extend(r, Receive(0, Release(0, 3)));
    assert r.states[5].conns[0].exports == NewConn().exports;
  }

  /** A run in which the Return that lifts an embargo names an export no longer in use:
      the export made for the Accept was released before the Disembargo came. */
  lemma LiftedAfterRelease() returns (r: Run)
    ensures IsRun(r) && |r.events| == 6 && |r.states[0].conns| == 1
    ensures Claims(r, 3, 0) && r.events[4] == Receive(0, Release(0, 3)) && r.events[5] == Receive(0, DisembargoProvide(2))
    ensures r.effects[5] == [Results(3, CapPayload(0))] && |r.states[6].conns| == 1 && !LiveExport(r.states[6].conns[0], 0)
  {
    hide IsRun, Keep, HeldFor;
    r := ReleasedWhileHeld();
    r := Extend(r, Receive(0, DisembargoProvide(2)));
  }

  /** A run in which that Return names an export that was released, and then exported again
      for the same object in the same slot: it is in use, though not all along. */
  lemma LiftedAfterReturn() returns (r: Run)
    ensures IsRun(r) && |r.events| == 7 && |r.states[0].conns| == 1
    ensures Claims(r, 3, 0) && r.events[4] == Receive(0, Release(0, 3)) && r.events[6] == Receive(0, DisembargoProvide(2))
    ensures |r.states[5].conns| == 1 && !LiveExport(r.states[5].conns[0], 0)
    ensures r.effects[6] == [Results(3, CapPayload(0))]
    ensures |r.states[6].conns| == 1 && LiveFor(r.states[6].conns[0], 0, THING.server)
  {
    hide IsRun, Keep, HeldFor, ExportCap;
    r := ReleasedWhileHeld();
    FirstExport();
    r := Extend(r, Receive(0, Bootstrap(4)));
    r := Extend(r, Receive(0, DisembargoProvide(2)));
  }

  lemma NewRun(n: nat)
    ensures IsRun(Run([NewWorld(n)], [], []))
  {
  }

  /** A run of two connections in which the Return that lifts an embargo goes to the other
      one than the Accept came on: its question is answered, but not to its asker. */
  lemma LiftedElsewhere() returns (r: Run)
    ensures IsRun(r) && |r.events| == 5 && |r.states[0].conns| == 2
    ensures Claims(r, 3, 0) && r.events[3].at == 1 && r.events[4] == Receive(0, DisembargoProvide(2))
    ensures AnsweredFor(r, 4, 1) == multiset{5} && SentOn(r, 4, 0) == multiset{5} && SentOn(r, 4, 1) == multiset{}
  {
    hide IsRun, Keep, ExportCap, Claimable, HeldFor, FreeProvision, Answered;
    r := Provided(2);
    FirstExport();
    ProvisionSlots(NewProvisions(), r.states[3].provisions);
    assert r.states[3].conns[1] == NewConn();
    r := Extend(r, Receive(1, Accept(5, Some(7), true)));
    ClaimSlots(r.states[3].provisions, r.states[4].provisions);
    assert Claims(r, 3, 0);
    r := Extend(r, Receive(0, DisembargoProvide(2)));
    LiftGoesTo(r, 3, 4, 0);
  }

  lemma ProvisionSlots(before: seq<Provision>, after: seq<Provision>)
    requires before == NewProvisions()
    ensures First(before, FreeProvision()) == 0
    ensures after == before[0 := Provision(true, 7, 1, 1, 0, 2, false, 0)] ==> First(after, Claimable(7)) == 0
  {
    assert FreeProvision()(before[0]);
    if after == before[0 := Provision(true, 7, 1, 1, 0, 2, false, 0)] {
      assert Claimable(7)(after[0]);
    }
  }

  lemma ClaimSlots(before: seq<Provision>, after: seq<Provision>)
    ensures |after| > 0 && after[0].used && after[0].embargoed && after[0].qid == 2 ==> First(after, HeldFor(2)) == 0
  {
    if |after| > 0 && after[0].used && after[0].embargoed && after[0].qid == 2 {
      assert HeldFor(2)(after[0]);
    }
  }

  /** A run in which a Call gets no Return: its target resolves, and dispatch fails. */
  lemma CallUnanswered() returns (r: Run)
    ensures IsRun(r) && |r.events| == 3 && |r.states[0].conns| == 1
    ensures r.events[2] == Receive(0, Call(2, ImportedCap(0), None)) && r.effects[2] == [Invoke(THING)]
    ensures AskedOn(r, 2, 0) == multiset{2} && SentOn(r, 2, 0) == multiset{} && Outstanding(r, 3, 0) == Outstanding(r, 2, 0)
  {
    hide IsRun, Keep, ExportCap, Answered, Pending, HeldOn, Holders;
    r := Run([NewWorld(1)], [], []);
    NewRun(1);
    FirstExport();
    r := Extend(r, SetBootstrap(0, Some(THING)));
    r := Extend(r, Receive(0, Bootstrap(1)));
    assert r.states[2].conns[0].exports == Holding(1);
    r := Extend(r, Receive(0, Call(2, ImportedCap(0), None)));
    AnsweredOne(Invoke(THING));
    SameHolders(r, 2);
  }

  lemma SameHolders(r: Run, i: nat)
    requires IsRun(r) && i < |r.events| && r.events[i].Receive? && r.events[i].m.Call?
    ensures Holders(r, i + 1) == Holders(r, i)
  {
    hide IsRun;
  }
}
