/** Calls addressed through an answer: where a transform leads, and which object the call
    reaches over a run. */
module Pipelining {
  import opened Options
  import opened Rpc
  import opened JoinLaws
  import opened ExportLaws
  import opened Vats

  // ---- where a transform leads -----------------------------------------------------------------

  /** One step of a transform: to pointer k of a struct, which is null past its section; a
      step of another kind stays. */
  predicate StepTo(a: Content, op: Op, b: Content)
  {
    match op
    case GetPointerField(k) => a.StructPtr? && b == if k < |a.pointers| then a.pointers[k] else NullPtr
    case OtherOp => b == a
    case Unreadable => false
  }

  /** Contents one after the other, a step apart. */
  predicate Path(cs: seq<Content>, ops: seq<Op>)
  {
    |cs| == |ops| + 1 && forall i :: 0 <= i < |ops| ==> StepTo(cs[i], ops[i], cs[i + 1])
  }

  ghost predicate Leads(from: Content, ops: seq<Op>, to: Content)
  {
    exists cs :: Path(cs, ops) && cs[0] == from && cs[|ops|] == to
  }

  lemma {:induction false} LeadsWalk(cs: seq<Content>, ops: seq<Op>)
    requires Path(cs, ops)
    ensures Walk(cs[0], ops) == cs[|ops|]
    decreases |ops|
  {
    if ops != [] {
      assert StepTo(cs[0], ops[0], cs[1]);
      forall i | 0 <= i < |ops[1..]|
        ensures StepTo(cs[1..][i], ops[1..][i], cs[1..][i + 1])
      {
        assert StepTo(cs[i + 1], ops[i + 1], cs[i + 2]);
      }
      LeadsWalk(cs[1..], ops[1..]);
    }
  }

  lemma {:induction false} WalkLeads(from: Content, ops: seq<Op>, index: nat) returns (cs: seq<Content>)
    requires Walk(from, ops) == CapPtr(index)
    ensures Path(cs, ops) && cs[0] == from && cs[|ops|] == CapPtr(index)
    decreases |ops|
  {
    cs := [from];
    if ops != [] {
      var next := if ops[0].OtherOp? then from
                  else if ops[0].index < |from.pointers| then from.pointers[ops[0].index] else NullPtr;
      var rest := WalkLeads(next, ops[1..], index);
      cs := [from] + rest;
      forall i | 0 <= i < |ops|
        ensures StepTo(cs[i], ops[i], cs[i + 1])
      {
        if i > 0 {
          assert StepTo(rest[i - 1], ops[1..][i - 1], rest[i]);
        }
      }
    }
  }

  /** In a payload, the transform leads to a capability whose descriptor names this export. */
  ghost predicate LeadsToExport(payload: Payload, ops: seq<Op>, id: nat)
  {
    exists i: nat :: Leads(payload.content, ops, CapPtr(i)) && i < |payload.capTable| && payload.capTable[i] == SenderHosted(id)
  }

  /** A pipelined target resolves to an export if and only if a Return is kept for its
      question, the transform leads to it there, and it is in use. */
  lemma TargetResolves(c: Conn, qid: nat, ops: seq<Op>, id: nat)
    ensures Resolve(c, PromisedAnswer(qid, ops)) == id <==>
              KeptAnswer(c, qid).Some? && LeadsToExport(KeptAnswer(c, qid).value, ops, id) && LiveExport(c, id)
  {
    if KeptAnswer(c, qid).Some? {
      var payload := KeptAnswer(c, qid).value;
      var end := Walk(payload.content, ops);
      if end.CapPtr? {
        var cs := WalkLeads(payload.content, ops, end.index);
        assert Leads(payload.content, ops, CapPtr(end.index));
      }
      if LeadsToExport(payload, ops, id) {
        var i: nat :| Leads(payload.content, ops, CapPtr(i)) && i < |payload.capTable| && payload.capTable[i] == SenderHosted(id);
        var cs :| Path(cs, ops) && cs[0] == payload.content && cs[|ops|] == CapPtr(i);
        LeadsWalk(cs, ops);
      }
    }
  }

  /** A transform that comes to a step it cannot take names nothing: a field of something
      that is no struct, or an op that cannot be read. */
  lemma DeadEnd(c: Conn, qid: nat, ops: seq<Op>, j: nat, x: Content)
    requires KeptAnswer(c, qid).Some? && j < |ops| && Leads(KeptAnswer(c, qid).value.content, ops[..j], x)
    requires ops[j].Unreadable? || (ops[j].GetPointerField? && !x.StructPtr?)
    ensures Resolve(c, PromisedAnswer(qid, ops)) == -1
  {
    hide Resolve;
    var id := Resolve(c, PromisedAnswer(qid, ops));
    if id >= 0 {
      TargetResolves(c, qid, ops, id);
      var i: nat :| Leads(KeptAnswer(c, qid).value.content, ops, CapPtr(i));
      var y := Onward(KeptAnswer(c, qid).value.content, ops, CapPtr(i), j, x);
      assert false;
    }
  }

  /** A transform that leads somewhere takes every step on the way. */
  lemma Onward(from: Content, ops: seq<Op>, to: Content, j: nat, x: Content) returns (y: Content)
    requires j < |ops| && Leads(from, ops, to) && Leads(from, ops[..j], x)
    ensures StepTo(x, ops[j], y)
  {
    var cs :| Path(cs, ops) && cs[0] == from && cs[|ops|] == to;
    var bs :| Path(bs, ops[..j]) && bs[0] == from && bs[j] == x;
    forall i | 0 <= i < j
      ensures StepTo(bs[i], ops[i], bs[i + 1])
    {
      assert StepTo(bs[i], ops[..j][i], bs[i + 1]);
    }
    OnePath(bs, cs, ops, j);
    y := cs[j + 1];
    assert StepTo(cs[j], ops[j], cs[j + 1]);
  }

  /** Steps lead to one place only. */
  lemma {:induction false} OnePath(bs: seq<Content>, cs: seq<Content>, ops: seq<Op>, j: nat)
    requires j <= |ops| && Path(cs, ops) && |bs| > j && bs[0] == cs[0]
    requires forall i :: 0 <= i < j ==> StepTo(bs[i], ops[i], bs[i + 1])
    ensures bs[j] == cs[j]
  {
    if j > 0 {
      OnePath(bs, cs, ops, j - 1);
      assert StepTo(bs[j - 1], ops[j - 1], bs[j]) && StepTo(cs[j - 1], ops[j - 1], cs[j]);
    }
  }

  /** A target that names an export directly resolves to it if and only if it is in use. */
  lemma DirectTarget(c: Conn, id: nat)
    ensures Resolve(c, ImportedCap(id)) == if LiveExport(c, id) then id else -1
    ensures Resolve(c, Nothing) == -1
  {
  }

  // ---- which object a call reaches ---------------------------------------------------------------

  /** The call goes to the object of this export. */
  predicate Reaches(c: Conn, fx: seq<Effect>, id: nat)
    requires LiveExport(c, id)
  {
    fx != [] && fx[0] == Invoke(Capability(c.exports[id].server, c.exports[id].dispatch))
  }

  /** A call reaches the object its target resolves to, and is refused if there is none. */
  lemma CallReaches(c: Conn, ps: seq<Provision>, qid: nat, target: Target, reply: Option<Reply>)
    ensures var id, fx := Resolve(c, target), OnCall(c, ps, qid, target, reply).effects;
            if id < 0 then fx == [Exception(qid)] else Reaches(c, fx, id)
  {
    hide Resolve;
  }

  /** Event i on connection k sends a Return of this payload, short enough to keep, at a
      time when none is kept for its question and there is room for one. */
  predicate Promises(r: Run, i: nat, k: nat, qid: nat, payload: Payload)
    requires IsRun(r) && i < |r.events|
  {
    var e := r.events[i];
    && e.Receive? && e.at == k < |r.states[i].conns| && Answers(e.m, r.effects[i], qid, payload)
    && KeptAnswer(r.states[i].conns[k], qid).None? && HasRoom(r.states[i].conns[k])
  }

  lemma PromiseKept(r: Run, i: nat, k: nat, qid: nat, payload: Payload)
    requires IsRun(r) && i < |r.events| && Promises(r, i, k, qid, payload)
    ensures k < |r.states[i + 1].conns| && KeptAnswer(r.states[i + 1].conns[k], qid) == Some(payload)
  {
    hide IsRun, Handle, WorldOk, KeptAnswer, HasRoom, JoinsOk, ExportsOk;
    At(r, i);
    ReturnKept(r.states[i].conns[k], r.states[i].provisions, r.events[i].m, qid, payload);
  }

  /** From event i until j on connection k, the question is not finished nor answered again. */
  predicate NotFinished(r: Run, i: nat, j: nat, k: nat, qid: nat)
    requires i <= j <= |r.events| && |r.effects| == |r.events|
  {
    forall t :: i <= t < j && r.events[t].at == k ==>
      !(r.events[t].Receive? && r.events[t].m == Finish(qid)) && !Returns(r.effects[t], qid)
  }

  lemma {:induction false} PromiseLasts(r: Run, i: nat, j: nat, k: nat, qid: nat)
    requires IsRun(r) && i <= j <= |r.events| && k < |r.states[i].conns| && NotFinished(r, i, j, k, qid)
    ensures k < |r.states[j].conns| && KeptAnswer(r.states[j].conns[k], qid) == KeptAnswer(r.states[i].conns[k], qid)
  {
    hide IsRun, Handle, ExportCap, KeptAnswer, Returns, ExportsOk, JoinsOk, SetsOk;
    if i < j {
      PromiseLasts(r, i, j - 1, k, qid);
      At(r, j - 1);
      var w, e := r.states[j - 1], r.events[j - 1];
      if e.at == k {
        var c := w.conns[k];
        match e
        case Receive(_, m) => AnswerStays(c, w.provisions, m, qid);
        case SetBootstrap(_, cap) => SameAnswers(c, c.(bootstrap := cap), qid);
        case Offer(_, cap) => SameAnswers(c, c.(exports := ExportCap(c.exports, cap).exports), qid);
      }
    }
  }

  lemma SameAnswers(c: Conn, c': Conn, qid: nat)
    requires c'.answers == c.answers
    ensures KeptAnswer(c', qid) == KeptAnswer(c, qid)
  {
  }

  /** A call pipelined on a Return that was kept reaches the export its transform leads to
      there, if that is in use, and is refused if it leads to none; until the question's
      Finish or another Return to it. */
  lemma PipelinedCall(r: Run, i: nat, j: nat, k: nat, qid: nat, payload: Payload, ops: seq<Op>, call: nat, reply: Option<Reply>)
    requires IsRun(r) && i < j <= |r.events| && Promises(r, i, k, qid, payload) && NotFinished(r, i + 1, j, k, qid)
    ensures k < |r.states[j].conns| && Sized(r.states[j].conns[k])
    ensures var c := r.states[j].conns[k];
            var fx := Handle(c, r.states[j].provisions, Call(call, PromisedAnswer(qid, ops), reply)).effects;
            && (forall id: nat :: LeadsToExport(payload, ops, id) && LiveExport(c, id) ==> Reaches(c, fx, id))
            && ((forall id: nat :: LeadsToExport(payload, ops, id) ==> !LiveExport(c, id)) ==> fx == [Exception(call)])
  {
    hide IsRun, KeptAnswer, ExportsOk, JoinsOk, SetsOk, Keep, Resolve, HasRoom, LeadsToExport, OnCall;
    RunOk(r, j);
    PromiseKept(r, i, k, qid, payload);
    PromiseLasts(r, i + 1, j, k, qid);
    var c := r.states[j].conns[k];
    assert ConnOk(c);
    var target := PromisedAnswer(qid, ops);
    CallReaches(c, r.states[j].provisions, call, target, reply);
    if Resolve(c, target) >= 0 {
      TargetResolves(c, qid, ops, Resolve(c, target));
    }
    forall id: nat | LeadsToExport(payload, ops, id) && LiveExport(c, id)
      ensures Resolve(c, target) == id
    {
      TargetResolves(c, qid, ops, id);
    }
  }

  /** The export is in use from event i to j, both included. */
  predicate LiveThroughout(r: Run, i: nat, j: nat, k: nat, id: nat)
    requires IsRun(r) && i <= j <= |r.events|
    ensures LiveThroughout(r, i, j, k, id) ==> LiveIn(r.states[i], k, id) && LiveIn(r.states[j], k, id)
  {
    forall t :: i <= t <= j ==> LiveIn(r.states[t], k, id)
  }

  predicate LiveIn(w: World, k: nat, id: nat)
  {
    k < |w.conns| && LiveExport(w.conns[k], id)
  }

  /** And that export serves the object it served when the Return was sent, if it has been in
      use since. */
  lemma {:induction false} PromisedObject(r: Run, i: nat, j: nat, k: nat, id: nat)
    requires IsRun(r) && i <= j <= |r.events| && LiveThroughout(r, i, j, k, id)
    ensures var before, after := r.states[i].conns[k].exports[id], r.states[j].conns[k].exports[id];
            after.server == before.server && after.dispatch == before.dispatch
  {
    hide IsRun, Handle, ExportCap, ExportsOk, JoinsOk, SetsOk;
    if i < j {
      PromisedObject(r, i, j - 1, k, id);
      At(r, j - 1);
      var w, e := r.states[j - 1], r.events[j - 1];
      if e.at == k {
        match e
        case Receive(_, m) => ServerStays(w.conns[k], w.provisions, m, id);
        case SetBootstrap(_, _) =>
        case Offer(_, cap) => ExportKeeps(w.conns[k].exports, cap);
      }
    }
  }

  // ---- after a Finish --------------------------------------------------------------------------------

  /** Event t on connection k sends a Return to the question that is kept. */
  ghost predicate KeepsAnother(r: Run, t: nat, k: nat, qid: nat)
    requires IsRun(r) && t < |r.events|
  {
    && r.events[t].Receive? && r.events[t].at == k < |r.states[t].conns| && HasRoom(r.states[t].conns[k])
    && exists payload :: Answers(r.events[t].m, r.effects[t], qid, payload)
  }

  lemma {:induction false} NoneSince(r: Run, i: nat, j: nat, k: nat, qid: nat)
    requires IsRun(r) && i <= j <= |r.events| && k < |r.states[i].conns| && KeptAnswer(r.states[i].conns[k], qid).None?
    requires forall t :: i <= t < j ==> !KeepsAnother(r, t, k, qid)
    ensures k < |r.states[j].conns| && KeptAnswer(r.states[j].conns[k], qid).None?
  {
    hide IsRun, Handle, ExportCap, KeptAnswer, HasRoom, ExportsOk, JoinsOk, SetsOk;
    if i < j {
      NoneSince(r, i, j - 1, k, qid);
      At(r, j - 1);
      var w, e := r.states[j - 1], r.events[j - 1];
      if e.at == k {
        var c := w.conns[k];
        match e
        case Receive(_, m) =>
          assert !KeepsAnother(r, j - 1, k, qid);
          NoneKept(c, w.provisions, m, qid);
        case SetBootstrap(_, cap) => SameAnswers(c, c.(bootstrap := cap), qid);
        case Offer(_, cap) => SameAnswers(c, c.(exports := ExportCap(c.exports, cap).exports), qid);
      }
    }
  }

  /** Once the only Return kept for a question is finished, every call pipelined on it is
      refused, until another Return to it is kept. */
  lemma FinishedCall(r: Run, i: nat, j: nat, k: nat, qid: nat, ops: seq<Op>, call: nat, reply: Option<Reply>)
    requires IsRun(r) && i < j <= |r.events| && r.events[i] == Receive(k, Finish(qid)) && k < |r.states[i].conns|
    requires CountFor(r.states[i].conns[k].answers, qid) <= 1
    requires forall t :: i < t < j ==> !KeepsAnother(r, t, k, qid)
    ensures k < |r.states[j].conns| && Sized(r.states[j].conns[k])
    ensures var c := r.states[j].conns[k];
            Handle(c, r.states[j].provisions, Call(call, PromisedAnswer(qid, ops), reply)).effects == [Exception(call)]
  {
    hide IsRun, KeptAnswer, CountFor, ExportsOk, JoinsOk, SetsOk, Keep, Resolve, HasRoom, KeepsAnother, OnFinish, OnCall;
    At(r, i);
    RunOk(r, j);
    var c := r.states[i].conns[k];
    FinishDrops(c, r.states[i].provisions, qid, 0);
    KeptIfCounted(r.states[i + 1].conns[k], qid);
    NoneSince(r, i + 1, j, k, qid);
    var d := r.states[j].conns[k];
    assert ConnOk(d);
    CallReaches(d, r.states[j].provisions, call, PromisedAnswer(qid, ops), reply);
    if Resolve(d, PromisedAnswer(qid, ops)) >= 0 {
      TargetResolves(d, qid, ops, Resolve(d, PromisedAnswer(qid, ops)));
    }
  }
}
