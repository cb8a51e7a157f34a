/** The questions of each connection, over every run of a vat. */
module Questions {
  import opened Tables
  import opened Rpc
  import opened JoinLaws
  import opened ExportLaws
  import opened HandoffLaws
  import opened Vats

  // ---- whose Accept holds a provision ----------------------------------------------------

  /** The connections whose Accepts claimed the provisions last. The vat does not record
      them; they are told from the run. */
  function Holders(r: Run, n: nat): (hs: seq<nat>)
    requires IsRun(r) && n <= |r.events|
    ensures |hs| == MAX_PROVISIONS
  {
    if n == 0 then seq(MAX_PROVISIONS, _ => 0)
    else
      var i := n - 1;
      HoldersAfter(Holders(r, i), r.states[i].provisions, r.events[i], r.effects[i])
  }

  /** An embargoed Accept that sends nothing has claimed its provision. */
  predicate ClaimsUnderEmbargo(e: Event, fx: seq<Effect>)
  {
    e.Receive? && e.m.Accept? && e.m.embargo && e.m.provision.Some? && fx == []
  }

  function HoldersAfter(hs: seq<nat>, ps: seq<Provision>, e: Event, fx: seq<Effect>): (hs': seq<nat>)
    ensures |hs'| == |hs|
  {
    if !ClaimsUnderEmbargo(e, fx) then hs
    else
      var slot := First(ps, Claimable(e.m.provision.value));
      if slot < |hs| then hs[slot := e.at] else hs
  }

  datatype Claim = Claim(provision: Provision, holder: nat)

  function HeldBy(k: nat): Claim -> multiset<nat>
  {
    (c: Claim) =>
      if c.provision.used && c.provision.embargoed && c.holder == k then multiset{c.provision.acceptQid} else multiset{}
  }

  function Pairs(ps: seq<Provision>, hs: seq<nat>): (cs: seq<Claim>)
    requires |ps| == |hs|
    ensures |cs| == |ps|
  {
    seq(|ps|, i requires 0 <= i < |ps| => Claim(ps[i], hs[i]))
  }

  /** The question, if it counts. */
  function If(counts: bool, qid: nat): multiset<nat>
  {
    if counts then multiset{qid} else multiset{}
  }

  /** The questions of the Accepts of connection k held under an embargo. */
  function HeldOn(ps: seq<Provision>, hs: seq<nat>, k: nat): multiset<nat>
    requires |ps| == |hs|
  {
    Collect(Pairs(ps, hs), HeldBy(k))
  }

  lemma HeldOnUpdate(ps: seq<Provision>, hs: seq<nat>, k: nat, i: nat, p: Provision, h: nat)
    requires |ps| == |hs| && i < |ps|
    ensures HeldOn(ps[i := p], hs[i := h], k) + HeldBy(k)(Claim(ps[i], hs[i])) == HeldOn(ps, hs, k) + HeldBy(k)(Claim(p, h))
  {
    assert Pairs(ps[i := p], hs[i := h]) == Pairs(ps, hs)[i := Claim(p, h)];
    CollectUpdate(Pairs(ps, hs), HeldBy(k), i, Claim(p, h));
  }

  lemma HeldOnSame(ps: seq<Provision>, hs: seq<nat>, k: nat, i: nat, p: Provision)
    requires |ps| == |hs| && i < |ps| && !(ps[i].used && ps[i].embargoed) && !(p.used && p.embargoed)
    ensures HeldOn(ps[i := p], hs, k) == HeldOn(ps, hs, k)
  {
    HeldOnUpdate(ps, hs, k, i, p, hs[i]);
    assert hs[i := hs[i]] == hs;
    Cancel(HeldOn(ps[i := p], hs, k), HeldOn(ps, hs, k), multiset{});
  }

  lemma HeldOnNew(ps: seq<Provision>, hs: seq<nat>, k: nat, i: nat, p: Provision, h: nat)
    requires |ps| == |hs| && i < |ps| && !(ps[i].used && ps[i].embargoed) && p.used && p.embargoed
    ensures HeldOn(ps[i := p], hs[i := h], k) == HeldOn(ps, hs, k) + If(h == k, p.acceptQid)
  {
    HeldOnUpdate(ps, hs, k, i, p, h);
    assert HeldOn(ps[i := p], hs[i := h], k) + multiset{} == HeldOn(ps[i := p], hs[i := h], k);
  }

  lemma HeldOnGone(ps: seq<Provision>, hs: seq<nat>, k: nat, i: nat, p: Provision)
    requires |ps| == |hs| && i < |ps| && ps[i].used && ps[i].embargoed && !(p.used && p.embargoed)
    ensures HeldOn(ps, hs, k) == HeldOn(ps[i := p], hs, k) + If(hs[i] == k, ps[i].acceptQid)
  {
    HeldOnUpdate(ps, hs, k, i, p, hs[i]);
    assert hs[i := hs[i]] == hs;
    assert HeldOn(ps, hs, k) + multiset{} == HeldOn(ps, hs, k);
  }

  // ---- one event ---------------------------------------------------------------------------

  /** The question asked on connection k at event i. */
  function AskedOn(r: Run, i: nat, k: nat): multiset<nat>
    requires i < |r.events|
  {
    if r.events[i].Receive? && r.events[i].at == k then Asked(r.events[i].m) else multiset{}
  }

  /** The questions named by the Returns sent on connection k at event i. */
  function SentOn(r: Run, i: nat, k: nat): multiset<nat>
    requires i < |r.events| && i < |r.effects|
  {
    if r.events[i].at == k then Answered(r.effects[i]) else multiset{}
  }

  /** The question of a call of connection k whose dispatch failed at event i. */
  function DroppedOn(r: Run, i: nat, k: nat): multiset<nat>
    requires i < |r.events| && i < |r.states|
  {
    var e := r.events[i];
    if e.Receive? && e.at == k < |r.states[i].conns| then Dropped(r.states[i].conns[k], e.m) else multiset{}
  }

  /** The provision whose embargo event i lifts, or the number of provisions. */
  function LiftedSlot(r: Run, i: nat): nat
    requires IsRun(r) && i < |r.events|
  {
    var e, ps := r.events[i], r.states[i].provisions;
    if e.Receive? && e.m.DisembargoProvide? then First(ps, HeldFor(e.m.provideQid)) else |ps|
  }

  predicate Lifts(r: Run, i: nat)
    requires IsRun(r) && i < |r.events|
  {
    LiftedSlot(r, i) < |r.states[i].provisions| && LiftedSlot(r, i) < MAX_PROVISIONS
  }

  /** The questions of connection k answered at event i, wherever the Return goes. */
  function AnsweredFor(r: Run, i: nat, k: nat): multiset<nat>
    requires IsRun(r) && i < |r.events|
  {
    if !Lifts(r, i) then SentOn(r, i, k)
    else if Holders(r, i)[LiftedSlot(r, i)] == k then multiset{r.states[i].provisions[LiftedSlot(r, i)].acceptQid}
    else multiset{}
  }

  /** Questions of connection k received and not yet answered: Join parts, and Accepts
      held under an embargo. */
  function Outstanding(r: Run, i: nat, k: nat): multiset<nat>
    requires IsRun(r) && i <= |r.events|
  {
    var w := r.states[i];
    if k < |w.conns| && |w.provisions| == MAX_PROVISIONS
    then Pending(w.conns[k].joins) + HeldOn(w.provisions, Holders(r, i), k)
    else multiset{}
  }

  /** A message that neither claims under an embargo nor lifts one leaves held Accepts alone. */
  lemma HeldUntouched(c: Conn, ps: seq<Provision>, m: Message, hs: seq<nat>, k: nat)
    requires Sized(c) && |ps| == |hs| && |Handle(c, ps, m).provisions| == |ps|
    requires !(m.Accept? && m.embargo && m.provision.Some? && Handle(c, ps, m).effects == [])
    requires !(m.DisembargoProvide? && First(ps, HeldFor(m.provideQid)) < |ps|)
    ensures HeldOn(Handle(c, ps, m).provisions, hs, k) == HeldOn(ps, hs, k)
    ensures HeldQids(Handle(c, ps, m).provisions) == HeldQids(ps)
  {
    hide OnCall, OnBootstrap, OnFinish, OnRelease, OnJoin, ExportCap, Keep, AddRef, Resolve, SetsOk, HeldOn, HeldQids;
    if m.Provide? {
      var id, i := Resolve(c, m.target), First(ps, FreeProvision());
      if id >= 0 && m.recipient.Some? && i < |ps| {
        var p := Handle(c, ps, m).provisions[i];
        HeldOnSame(ps, hs, k, i, p);
        HeldSame(ps, i, p);
      }
    } else if m.Accept? && m.provision.Some? {
      var i := First(ps, Claimable(m.provision.value));
      if i < |ps| {
        var p := Handle(c, ps, m).provisions[i];
        HeldOnSame(ps, hs, k, i, p);
        HeldSame(ps, i, p);
        assert Handle(c, ps, m).provisions == ps || Handle(c, ps, m).provisions == ps[i := p];
      }
    } else if !m.DisembargoProvide? {
      OthersKeep(c, ps, m);
    }
  }

  /** A claim under an embargo: its question is outstanding on the claiming connection. */
  lemma ClaimTurns(c: Conn, ps: seq<Provision>, m: Message, hs: seq<nat>, at: nat, k: nat)
    requires Sized(c) && |ps| == |hs| && m.Accept? && m.embargo && m.provision.Some? && Handle(c, ps, m).effects == []
    ensures var ps' := Handle(c, ps, m).provisions;
            var hs' := HoldersAfter(hs, ps, Receive(at, m), []);
            && |ps'| == |hs'| && Handle(c, ps, m).conn.joins == c.joins
            && HeldOn(ps', hs', k) == HeldOn(ps, hs, k) + If(at == k, m.qid)
  {
    hide ExportCap, SetsOk, HeldOn;
    var i := First(ps, Claimable(m.provision.value));
    HeldOnNew(ps, hs, k, i, Handle(c, ps, m).provisions[i], at);
  }

  /** A lifted embargo: its question is answered, and outstanding no more. */
  lemma LiftTurns(c: Conn, ps: seq<Provision>, m: Message, hs: seq<nat>, k: nat)
    requires Sized(c) && |ps| == |hs| && m.DisembargoProvide? && First(ps, HeldFor(m.provideQid)) < |ps|
    ensures var ps' := Handle(c, ps, m).provisions;
            var i := First(ps, HeldFor(m.provideQid));
            && |ps'| == |ps| && Handle(c, ps, m).conn.joins == c.joins
            && HeldOn(ps, hs, k) == HeldOn(ps', hs, k) + If(hs[i] == k, ps[i].acceptQid)
            && Answered(Handle(c, ps, m).effects) == multiset{ps[i].acceptQid}
  {
    hide Keep, SetsOk, HeldOn, Answered;
    var i := First(ps, HeldFor(m.provideQid));
    HeldOnGone(ps, hs, k, i, NO_PROVISION);
    AnsweredOne(Results(ps[i].acceptQid, CapPayload(ps[i].exportId)));
  }

  /** Any other message: the questions of its own connection. */
  lemma PlainTurns(c: Conn, ps: seq<Provision>, m: Message)
    requires Sized(c) && JoinsOk(c.joins) && HeldQids(Handle(c, ps, m).provisions) == HeldQids(ps)
    ensures var o := Handle(c, ps, m);
            Balanced(c, m, o.effects, o.conn)
  {
    hide Handle, Asked, Pending, HeldQids, Answered, Dropped, SetsOk, JoinsOk;
    QuestionsConserved(c, ps, m);
    var o, held := Handle(c, ps, m), HeldQids(ps);
    forall q
      ensures (Asked(m) + Pending(c.joins))[q] == (Answered(o.effects) + Pending(o.conn.joins) + Dropped(c, m))[q]
    {
      assert (Asked(m) + Pending(c.joins) + held)[q] == (Answered(o.effects) + Pending(o.conn.joins) + held + Dropped(c, m))[q];
    }
  }

  /** The questions of a connection before and after a message that no embargo is about. */
  predicate Balanced(c: Conn, m: Message, fx: seq<Effect>, c': Conn)
  {
    Asked(m) + Pending(c.joins) == Answered(fx) + Pending(c'.joins) + Dropped(c, m)
  }

  lemma StepQuestions(r: Run, i: nat, k: nat)
    requires IsRun(r) && i < |r.events| && k < |r.states[i].conns|
    ensures AskedOn(r, i, k) + Outstanding(r, i, k) == AnsweredFor(r, i, k) + Outstanding(r, i + 1, k) + DroppedOn(r, i, k)
  {
    hide IsRun, Pending, HeldOn, HeldQids, Answered, Handle, ExportCap, ExportsOk, JoinsOk, SetsOk, HoldersAfter, WorldOk;
    At(r, i);
    AnsweredNone();
    var w, e, hs := r.states[i], r.events[i], Holders(r, i);
    assert Holders(r, i + 1) == HoldersAfter(hs, w.provisions, e, r.effects[i]);
    if e.Receive? {
      var c := w.conns[e.at];
      if ClaimsUnderEmbargo(e, r.effects[i]) {
        ClaimTurns(c, w.provisions, e.m, hs, e.at, k);
        ClaimStep(r, i, k);
      } else {
        KeepsHolders(hs, w.provisions, e, r.effects[i]);
        if Lifts(r, i) {
          LiftTurns(c, w.provisions, e.m, hs, k);
          LiftStep(r, i, k);
        } else {
          HeldUntouched(c, w.provisions, e.m, hs, k);
          PlainTurns(c, w.provisions, e.m);
          PlainStep(r, i, k);
        }
      }
    } else {
      KeepsHolders(hs, w.provisions, e, r.effects[i]);
    }
  }

  lemma KeepsHolders(hs: seq<nat>, ps: seq<Provision>, e: Event, fx: seq<Effect>)
    requires !ClaimsUnderEmbargo(e, fx)
    ensures HoldersAfter(hs, ps, e, fx) == hs
  {
  }

  lemma ClaimStep(r: Run, i: nat, k: nat)
    requires IsRun(r) && i < |r.events| && k < |r.states[i].conns| && k < |r.states[i + 1].conns|
    requires |r.states[i].provisions| == |r.states[i + 1].provisions| == MAX_PROVISIONS
    requires ClaimsUnderEmbargo(r.events[i], r.effects[i])
    requires r.states[i + 1].conns[k].joins == r.states[i].conns[k].joins
    requires HeldOn(r.states[i + 1].provisions, Holders(r, i + 1), k)
          == HeldOn(r.states[i].provisions, Holders(r, i), k) + If(r.events[i].at == k, r.events[i].m.qid)
    ensures AskedOn(r, i, k) + Outstanding(r, i, k) == AnsweredFor(r, i, k) + Outstanding(r, i + 1, k) + DroppedOn(r, i, k)
  {
    hide IsRun, Pending, HeldOn, Holders, Answered;
    AnsweredNone();
  }

  lemma LiftStep(r: Run, i: nat, k: nat)
    requires IsRun(r) && i < |r.events| && k < |r.states[i].conns| && k < |r.states[i + 1].conns|
    requires |r.states[i].provisions| == |r.states[i + 1].provisions| == MAX_PROVISIONS
    requires Lifts(r, i) && Holders(r, i + 1) == Holders(r, i)
    requires r.states[i + 1].conns[k].joins == r.states[i].conns[k].joins
    requires HeldOn(r.states[i].provisions, Holders(r, i), k)
          == HeldOn(r.states[i + 1].provisions, Holders(r, i), k)
           + If(Holders(r, i)[LiftedSlot(r, i)] == k, r.states[i].provisions[LiftedSlot(r, i)].acceptQid)
    ensures AskedOn(r, i, k) + Outstanding(r, i, k) == AnsweredFor(r, i, k) + Outstanding(r, i + 1, k) + DroppedOn(r, i, k)
  {
    hide IsRun, Pending, HeldOn, Holders;
  }

  lemma PlainStep(r: Run, i: nat, k: nat)
    requires IsRun(r) && i < |r.events| && k < |r.states[i].conns| && k < |r.states[i + 1].conns|
    requires |r.states[i].provisions| == |r.states[i + 1].provisions| == MAX_PROVISIONS
    requires !Lifts(r, i) && r.events[i].Receive? && r.events[i].at < |r.states[i].conns|
    requires HeldOn(r.states[i + 1].provisions, Holders(r, i + 1), k) == HeldOn(r.states[i].provisions, Holders(r, i), k)
    requires r.events[i].at == k ==> Balanced(r.states[i].conns[k], r.events[i].m, r.effects[i], r.states[i + 1].conns[k])
    requires r.events[i].at != k ==> r.states[i + 1].conns[k] == r.states[i].conns[k]
    ensures AskedOn(r, i, k) + Outstanding(r, i, k) == AnsweredFor(r, i, k) + Outstanding(r, i + 1, k) + DroppedOn(r, i, k)
  {
    hide IsRun, Pending, HeldOn, Holders, Answered, Dropped, Asked;
    if r.events[i].at == k {
      var held := HeldOn(r.states[i].provisions, Holders(r, i), k);
      assert Asked(r.events[i].m) + (Pending(r.states[i].conns[k].joins) + held)
          == (Asked(r.events[i].m) + Pending(r.states[i].conns[k].joins)) + held;
      var sent, pending := Answered(r.effects[i]), Pending(r.states[i + 1].conns[k].joins);
      var dropped := Dropped(r.states[i].conns[k], r.events[i].m);
      assert sent + (pending + held) + dropped == (sent + pending + dropped) + held;
    }
  }

  // ---- from one event to another ---------------------------------------------------------------

  /** Questions asked on connection k from event i until j. */
  function AskedSince(r: Run, i: nat, j: nat, k: nat): multiset<nat>
    requires i <= j <= |r.events|
    decreases j - i
  {
    if i == j then multiset{} else AskedSince(r, i, j - 1, k) + AskedOn(r, j - 1, k)
  }

  function AnsweredSince(r: Run, i: nat, j: nat, k: nat): multiset<nat>
    requires IsRun(r) && i <= j <= |r.events|
    decreases j - i
  {
    if i == j then multiset{} else AnsweredSince(r, i, j - 1, k) + AnsweredFor(r, j - 1, k)
  }

  function DroppedSince(r: Run, i: nat, j: nat, k: nat): multiset<nat>
    requires i <= j <= |r.events| && |r.events| <= |r.states|
    decreases j - i
  {
    if i == j then multiset{} else DroppedSince(r, i, j - 1, k) + DroppedOn(r, j - 1, k)
  }

  /** In every run, on each connection and between any two moments: the questions
      outstanding and asked since are the ones answered, the ones outstanding, and those of
      calls whose dispatch failed. */
  lemma {:induction false} EveryQuestion(r: Run, i: nat, j: nat, k: nat)
    requires IsRun(r) && i <= j <= |r.events| && k < |r.states[0].conns|
    ensures Outstanding(r, i, k) + AskedSince(r, i, j, k)
         == AnsweredSince(r, i, j, k) + Outstanding(r, j, k) + DroppedSince(r, i, j, k)
    decreases j - i
  {
    hide IsRun, Outstanding, AskedOn, AnsweredFor, DroppedOn, WorldOk;
    RunOk(r, i);
    RunOk(r, j);
    if i < j {
      EveryQuestion(r, i, j - 1, k);
      RunOk(r, j - 1);
      StepQuestions(r, j - 1, k);
      forall q
        ensures (Outstanding(r, i, k) + AskedSince(r, i, j, k))[q]
             == (AnsweredSince(r, i, j, k) + Outstanding(r, j, k) + DroppedSince(r, i, j, k))[q]
      {
        assert (AskedOn(r, j - 1, k) + Outstanding(r, j - 1, k))[q]
            == (AnsweredFor(r, j - 1, k) + Outstanding(r, j, k) + DroppedOn(r, j - 1, k))[q];
        assert (Outstanding(r, i, k) + AskedSince(r, i, j - 1, k))[q]
            == (AnsweredSince(r, i, j - 1, k) + Outstanding(r, j - 1, k) + DroppedSince(r, i, j - 1, k))[q];
      }
    }
  }

  lemma NothingOutstanding(r: Run, k: nat)
    requires IsRun(r) && k < |r.states[0].conns|
    ensures Outstanding(r, 0, k) == multiset{}
  {
    CollectNone(NewConn().joins, PartsIn());
    CollectNone(Pairs(r.states[0].provisions, Holders(r, 0)), HeldBy(k));
  }

  /** From the start, when nothing is outstanding: every question asked on a connection is
      answered, outstanding, or that of a call whose dispatch failed. */
  lemma EveryQuestionAsked(r: Run, n: nat, k: nat)
    requires IsRun(r) && n <= |r.events| && k < |r.states[0].conns|
    ensures AskedSince(r, 0, n, k) == AnsweredSince(r, 0, n, k) + Outstanding(r, n, k) + DroppedSince(r, 0, n, k)
  {
    hide IsRun, Outstanding;
    EveryQuestion(r, 0, n, k);
    NothingOutstanding(r, k);
    assert multiset{} + AskedSince(r, 0, n, k) == AskedSince(r, 0, n, k);
  }

  /** A question of a connection that is not outstanding and is asked once gets at most one Return. */
  lemma AtMostOneReturn(r: Run, i: nat, j: nat, k: nat, qid: nat)
    requires IsRun(r) && i <= j <= |r.events| && k < |r.states[0].conns|
    requires (Outstanding(r, i, k) + AskedSince(r, i, j, k))[qid] <= 1
    ensures AnsweredSince(r, i, j, k)[qid] <= 1
  {
    hide IsRun, Outstanding, AskedSince, AnsweredSince, DroppedSince;
    EveryQuestion(r, i, j, k);
    assert (Outstanding(r, i, k) + AskedSince(r, i, j, k))[qid]
        == (AnsweredSince(r, i, j, k) + Outstanding(r, j, k) + DroppedSince(r, i, j, k))[qid];
  }

  // ---- embargo --------------------------------------------------------------------------------

  /** A held Accept keeps its holder until it is lifted. */
  lemma {:induction false} HolderStays(r: Run, i: nat, j: nat, slot: nat)
    requires IsRun(r) && i < |r.events| && i < j <= |r.events| && Claims(r, i, slot)
    requires NotLifted(r, i + 1, j, r.states[i].provisions[slot].qid)
    ensures slot < MAX_PROVISIONS && Holders(r, j)[slot] == r.events[i].at
    decreases j
  {
    hide IsRun, Handle, WorldOk, ConnOk;
    At(r, i);
    if j > i + 1 {
      HolderStays(r, i, j - 1, slot);
      ClaimHolds(r, i, slot);
      HeldUntilLifted(r, i + 1, j - 1, slot);
      NotClaimable(r, j - 1, slot);
    }
  }

  lemma NotClaimable(r: Run, n: nat, slot: nat)
    requires IsRun(r) && n < |r.events| && slot < |r.states[n].provisions| && slot < MAX_PROVISIONS
    requires r.states[n].provisions[slot].used && r.states[n].provisions[slot].embargoed
    ensures Holders(r, n + 1)[slot] == Holders(r, n)[slot]
  {
    hide IsRun;
    var e := r.events[n];
    if ClaimsUnderEmbargo(e, r.effects[n]) {
      assert !Claimable(e.m.provision.value)(r.states[n].provisions[slot]);
    }
  }

  lemma HeldCounts(ps: seq<Provision>, hs: seq<nat>, slot: nat)
    requires |ps| == |hs| && slot < |ps| && ps[slot].used && ps[slot].embargoed
    ensures HeldOn(ps, hs, hs[slot])[ps[slot].acceptQid] >= 1
  {
    CollectHas(Pairs(ps, hs), HeldBy(hs[slot]), slot);
    assert HeldBy(hs[slot])(Pairs(ps, hs)[slot])[ps[slot].acceptQid] == 1;
  }

  /** An Accept claimed under an embargo, whose question is not outstanding on its
      connection and is not asked there again, gets no Return until a Disembargo names the
      question of the Provide it claimed, and never more than one. */
  lemma EmbargoHolds(r: Run, i: nat, j: nat, slot: nat)
    requires IsRun(r) && i < j <= |r.events| && Claims(r, i, slot)
    requires Outstanding(r, i, r.events[i].at)[r.events[i].m.qid] == 0
    requires AskedSince(r, i + 1, j, r.events[i].at)[r.events[i].m.qid] == 0
    ensures AnsweredSince(r, i, j, r.events[i].at)[r.events[i].m.qid] <= 1
    ensures NotLifted(r, i + 1, j, r.states[i].provisions[slot].qid) ==>
              AnsweredSince(r, i, j, r.events[i].at)[r.events[i].m.qid] == 0
  {
    hide IsRun, AskedSince, AnsweredSince, DroppedSince, HeldOn, Holders, Pending, WorldOk, ConnOk;
    var k, qid := r.events[i].at, r.events[i].m.qid;
    At(r, i);
    RunOk(r, j);
    EveryQuestion(r, i, j, k);
    AskedFirst(r, i, j, k);
    assert (Outstanding(r, i, k) + AskedSince(r, i, j, k))[qid]
        == (AnsweredSince(r, i, j, k) + Outstanding(r, j, k) + DroppedSince(r, i, j, k))[qid];
    if NotLifted(r, i + 1, j, r.states[i].provisions[slot].qid) {
      ClaimHolds(r, i, slot);
      HeldUntilLifted(r, i + 1, j, slot);
      HolderStays(r, i, j, slot);
      HeldCounts(r.states[j].provisions, Holders(r, j), slot);
    }
  }

  lemma {:induction false} AskedFirst(r: Run, i: nat, j: nat, k: nat)
    requires i < j <= |r.events|
    ensures AskedSince(r, i, j, k) == AskedOn(r, i, k) + AskedSince(r, i + 1, j, k)
    decreases j - i
  {
    hide AskedOn;
    if i + 1 < j {
      AskedFirst(r, i, j - 1, k);
      var a, b, c := AskedOn(r, i, k), AskedSince(r, i + 1, j - 1, k), AskedOn(r, j - 1, k);
      assert a + b + c == a + (b + c);
    } else {
      assert AskedSince(r, i, i, k) == multiset{} && AskedSince(r, i + 1, j, k) == multiset{};
      assert AskedSince(r, i, j, k) == AskedSince(r, i, i, k) + AskedOn(r, i, k);
    }
  }

  // ---- where Returns go ---------------------------------------------------------------------------

  /** Except for a lifted embargo, the Returns sent on a connection answer its own questions. */
  lemma SentToAsker(r: Run, i: nat, k: nat)
    requires IsRun(r) && i < |r.events| && !Lifts(r, i)
    ensures SentOn(r, i, k) == AnsweredFor(r, i, k)
  {
    hide IsRun;
  }

  /** The Return that lifts an embargo is sent on the connection that received the
      Disembargo: it reaches the connection of the Accept if and only if that is the same. */
  lemma LiftGoesTo(r: Run, i: nat, j: nat, slot: nat)
    requires IsRun(r) && i < j < |r.events| && Claims(r, i, slot)
    requires NotLifted(r, i + 1, j, r.states[i].provisions[slot].qid)
    requires r.events[j].Receive? && r.events[j].m == DisembargoProvide(r.states[i].provisions[slot].qid)
    requires slot == First(r.states[j].provisions, HeldFor(r.states[i].provisions[slot].qid))
    ensures var asker, qid := r.events[i].at, r.events[i].m.qid;
            && AnsweredFor(r, j, asker) == multiset{qid}
            && SentOn(r, j, r.events[j].at) == multiset{qid}
            && (SentOn(r, j, asker) == multiset{qid} <==> r.events[j].at == r.events[i].at)
  {
    hide IsRun, Handle, WorldOk, Answered, Holders, ConnOk;
    At(r, i);
    At(r, j);
    ClaimHolds(r, i, slot);
    HeldUntilLifted(r, i + 1, j, slot);
    HolderStays(r, i, j, slot);
    var w := r.states[j];
    assert Sized(w.conns[r.events[j].at]) by { ConnIs(w.conns[r.events[j].at]); }
    LiftTurns(w.conns[r.events[j].at], w.provisions, r.events[j].m, Holders(r, j), 0);
    assert r.effects[j] == Handle(w.conns[r.events[j].at], w.provisions, r.events[j].m).effects;
  }

  lemma ConnIs(c: Conn)
    requires ConnOk(c)
    ensures Sized(c)
  {
  }
}
