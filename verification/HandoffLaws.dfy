/** What every message conserves: the questions asked of a connection, and the
    capabilities its vat holds for third parties. */
module HandoffLaws {
  import opened Options
  import opened Tables
  import opened Rpc
  import opened JoinLaws

  // ---- questions -----------------------------------------------------------------------

  /** The question a message asks. */
  function Asked(m: Message): multiset<nat>
  {
    if m.Bootstrap? || m.Call? || m.Join? || m.Provide? || m.Accept? then multiset{m.qid} else multiset{}
  }

  function AnswerId(): Effect -> multiset<nat>
  {
    (e: Effect) => if e.Invoke? then multiset{} else multiset{e.qid}
  }

  /** The questions the Returns among the effects answer. */
  function Answered(fx: seq<Effect>): multiset<nat>
  {
    Collect(fx, AnswerId())
  }

  /** The question of a call whose dispatch failed, which gets no Return. */
  function Dropped(c: Conn, m: Message): multiset<nat>
  {
    if m.Call? && Resolve(c, m.target) >= 0 && m.reply.None? then multiset{m.qid} else multiset{}
  }

  function HeldQid(): Provision -> multiset<nat>
  {
    (p: Provision) => if p.used && p.embargoed then multiset{p.acceptQid} else multiset{}
  }

  /** The questions of Accepts claimed under an embargo. */
  function HeldQids(ps: seq<Provision>): multiset<nat>
  {
    Collect(ps, HeldQid())
  }

  lemma {:induction false} JoinAnswersAll(fx: seq<Effect>)
    requires forall i :: 0 <= i < |fx| ==> fx[i].JoinResult?
    ensures Answered(fx) == JoinAnswers(fx)
  {
    if fx != [] {
      JoinAnswersAll(fx[..|fx| - 1]);
    }
  }

  lemma AnsweredNone()
    ensures Answered([]) == multiset{}
  {
  }

  lemma AnsweredOne(e: Effect)
    ensures Answered([e]) == if e.Invoke? then multiset{} else multiset{e.qid}
  {
    CollectOne(e, AnswerId());
  }

  lemma AnsweredTwo(a: Effect, b: Effect)
    requires a.Invoke? && !b.Invoke?
    ensures Answered([a, b]) == multiset{b.qid}
  {
    AnsweredOne(a);
    AnsweredOne(b);
    CollectConcat([a], [b], AnswerId());
    assert [a] + [b] == [a, b];
  }

  /** Replacing a provision that held no Accept by one that holds none. */
  lemma HeldSame(ps: seq<Provision>, i: nat, p: Provision)
    requires i < |ps| && HeldQid()(ps[i]) == HeldQid()(p)
    ensures HeldQids(ps[i := p]) == HeldQids(ps)
  {
    CollectUpdate(ps, HeldQid(), i, p);
    Cancel(HeldQids(ps[i := p]), HeldQids(ps), HeldQid()(p));
  }

  lemma HeldNew(ps: seq<Provision>, i: nat, p: Provision)
    requires i < |ps| && !(ps[i].used && ps[i].embargoed) && p.used && p.embargoed
    ensures HeldQids(ps[i := p]) == HeldQids(ps) + multiset{p.acceptQid}
  {
    CollectUpdate(ps, HeldQid(), i, p);
    assert HeldQids(ps[i := p]) + multiset{} == HeldQids(ps[i := p]);
  }

  lemma HeldGone(ps: seq<Provision>, i: nat, p: Provision)
    requires i < |ps| && ps[i].used && ps[i].embargoed && !(p.used && p.embargoed)
    ensures HeldQids(ps) == HeldQids(ps[i := p]) + multiset{ps[i].acceptQid}
  {
    CollectUpdate(ps, HeldQid(), i, p);
    assert HeldQids(ps) + multiset{} == HeldQids(ps);
  }

  lemma Cancel<T>(a: multiset<T>, b: multiset<T>, x: multiset<T>)
    requires a + x == b + x
    ensures a == b
  {
    forall q
      ensures a[q] == b[q]
    {
      assert (a + x)[q] == (b + x)[q];
    }
  }

  /** The questions before a message and the one it asks are the questions after it, the
      ones its Returns answer, and the one dispatch dropped. */
  predicate Conserves(c: Conn, ps: seq<Provision>, m: Message, o: Outcome)
  {
    Asked(m) + Pending(c.joins) + HeldQids(ps)
    == Answered(o.effects) + Pending(o.conn.joins) + HeldQids(o.provisions) + Dropped(c, m)
  }

  lemma AcceptConserves(c: Conn, ps: seq<Provision>, qid: nat, provision: Option<nat>, embargo: bool)
    ensures Conserves(c, ps, Accept(qid, provision, embargo), OnAccept(c, ps, qid, provision, embargo))
  {
    hide ExportCap, Keep, Pending, HeldQids, Answered;
    AnsweredNone();
    AnsweredOne(Exception(qid));
    if provision.Some? {
      var i := First(ps, Claimable(provision.value));
      if i < |ps| {
        var e := ExportCap(c.exports, Capability(ps[i].server, ps[i].dispatch));
        if e.id >= 0 && embargo {
          HeldNew(ps, i, ps[i].(exportId := e.id, embargoed := true, acceptQid := qid));
        } else if e.id >= 0 {
          AnsweredOne(Results(qid, CapPayload(e.id)));
          HeldSame(ps, i, ps[i].(exportId := e.id, used := false));
        }
      }
    }
  }

  lemma DisembargoConserves(c: Conn, ps: seq<Provision>, provideQid: nat)
    ensures Conserves(c, ps, DisembargoProvide(provideQid), OnDisembargo(c, ps, provideQid))
  {
    hide Keep, Pending, Answered, HeldQids;
    AnsweredNone();
    var i := First(ps, HeldFor(provideQid));
    if i < |ps| {
      AnsweredOne(Results(ps[i].acceptQid, CapPayload(ps[i].exportId)));
      HeldGone(ps, i, NO_PROVISION);
    }
  }

  lemma ProvideConserves(c: Conn, ps: seq<Provision>, qid: nat, target: Target, recipient: Option<nat>)
    ensures Conserves(c, ps, Provide(qid, target, recipient), OnProvide(c, ps, qid, target, recipient))
  {
    hide Keep, Pending, Answered, Resolve, AddRef, HeldQids;
    AnsweredOne(Exception(qid));
    AnsweredOne(Results(qid, EMPTY));
    var id, i := Resolve(c, target), First(ps, FreeProvision());
    if id >= 0 && recipient.Some? && i < |ps| {
      HeldSame(ps, i, ps[i].(used := true, nonce := recipient.value, server := c.exports[id].server,
                             dispatch := c.exports[id].dispatch, exportId := id, qid := qid, embargoed := false));
    }
  }

  lemma CallConserves(c: Conn, ps: seq<Provision>, qid: nat, target: Target, reply: Option<Reply>)
    ensures Conserves(c, ps, Call(qid, target, reply), OnCall(c, ps, qid, target, reply))
  {
    hide Keep, Pending, Answered, Resolve, HeldQids;
    AnsweredOne(Exception(qid));
    var id := Resolve(c, target);
    if id >= 0 {
      var call := Invoke(Capability(c.exports[id].server, c.exports[id].dispatch));
      if reply.None? {
        AnsweredOne(call);
      } else {
        AnsweredTwo(call, Results(qid, reply.value.payload));
      }
    }
  }

  /** A Call gets a Return if and only if its target does not resolve or dispatch succeeds. */
  lemma CallReturns(c: Conn, ps: seq<Provision>, qid: nat, target: Target, reply: Option<Reply>)
    ensures var fx := OnCall(c, ps, qid, target, reply).effects;
            && (Answered(fx) == multiset{qid} <==> Resolve(c, target) < 0 || reply.Some?)
            && (Answered(fx) == multiset{} <==> Resolve(c, target) >= 0 && reply.None?)
  {
    hide Keep, Answered, Resolve;
    AnsweredOne(Exception(qid));
    var id := Resolve(c, target);
    if id >= 0 {
      var call := Invoke(Capability(c.exports[id].server, c.exports[id].dispatch));
      AnsweredOne(call);
      if reply.Some? {
        AnsweredTwo(call, Results(qid, reply.value.payload));
      }
    }
    assert multiset{qid}[qid] == 1;
  }

  lemma BootstrapConserves(c: Conn, ps: seq<Provision>, qid: nat)
    ensures Conserves(c, ps, Bootstrap(qid), OnBootstrap(c, ps, qid))
  {
    hide Keep, Pending, Answered, HeldQids, ExportCap;
    AnsweredOne(Exception(qid));
    if c.bootstrap.Some? {
      var e := ExportCap(c.exports, c.bootstrap.value);
      if e.id >= 0 {
        AnsweredOne(Results(qid, CapPayload(e.id)));
      }
    }
  }

  lemma RestConserves(c: Conn, ps: seq<Provision>, m: Message)
    requires Sized(c) && (m.Finish? || m.Release? || m.Other?)
    ensures Conserves(c, ps, m, Handle(c, ps, m))
  {
    hide Pending, Answered, HeldQids, Resolve;
    AnsweredNone();
  }

  lemma JoinsConserve(c: Conn, ps: seq<Provision>, qid: nat, target: Target, key: Option<JoinKey>)
    requires Sized(c) && JoinsOk(c.joins)
    ensures Conserves(c, ps, Join(qid, target, key), OnJoin(c, ps, qid, target, key))
  {
    hide Pending, Answered, HeldQids, OnJoin, JoinsOk;
    JoinConserves(c, ps, qid, target, key);
    JoinAnswersAll(OnJoin(c, ps, qid, target, key).effects);
  }

  /** Every message: no question is answered twice, none forgotten. */
  lemma QuestionsConserved(c: Conn, ps: seq<Provision>, m: Message)
    requires Sized(c) && JoinsOk(c.joins)
    ensures Conserves(c, ps, m, Handle(c, ps, m))
  {
    hide OnAccept, OnProvide, OnCall, OnDisembargo, OnJoin, OnBootstrap, Conserves, JoinsOk;
    match m
    case Accept(qid, provision, embargo) => AcceptConserves(c, ps, qid, provision, embargo);
    case Provide(qid, target, recipient) => ProvideConserves(c, ps, qid, target, recipient);
    case Call(qid, target, reply) => CallConserves(c, ps, qid, target, reply);
    case DisembargoProvide(provideQid) => DisembargoConserves(c, ps, provideQid);
    case Join(qid, target, key) => JoinsConserve(c, ps, qid, target, key);
    case Bootstrap(qid) => BootstrapConserves(c, ps, qid);
    case _ => RestConserves(c, ps, m);
  }

  // ---- provisions ----------------------------------------------------------------------

  /** A capability held for whoever presents a nonce, and the Provide that arranged it. */
  datatype Grant = Grant(nonce: nat, cap: Capability, qid: nat)

  function GrantOf(p: Provision): Grant
  {
    Grant(p.nonce, Capability(p.server, p.dispatch), p.qid)
  }

  function UnclaimedIn(): Provision -> multiset<Grant>
  {
    (p: Provision) => if p.used && !p.embargoed then multiset{GrantOf(p)} else multiset{}
  }

  function EmbargoedIn(): Provision -> multiset<Grant>
  {
    (p: Provision) => if p.used && p.embargoed then multiset{GrantOf(p)} else multiset{}
  }

  function Unclaimed(ps: seq<Provision>): multiset<Grant>
  {
    Collect(ps, UnclaimedIn())
  }

  function Embargoed(ps: seq<Provision>): multiset<Grant>
  {
    Collect(ps, EmbargoedIn())
  }

  /** The grant of a Provide that was accepted, that is, answered with results. */
  function Granted(c: Conn, ps: seq<Provision>, m: Message): multiset<Grant>
    requires Sized(c)
  {
    if m.Provide? && m.recipient.Some? && Handle(c, ps, m).effects == [Results(m.qid, EMPTY)] && Resolve(c, m.target) >= 0
    then
      var e := c.exports[Resolve(c, m.target)];
      multiset{Grant(m.recipient.value, Capability(e.server, e.dispatch), m.qid)}
    else multiset{}
  }

  /** The grant a message completes: claimed by an Accept that is answered with results,
      or claimed before and now released from its embargo. */
  function Completed(c: Conn, ps: seq<Provision>, m: Message): multiset<Grant>
    requires Sized(c)
  {
    match m
    case Accept(qid, Some(nonce), false) =>
      var i := First(ps, Claimable(nonce));
      if i < |ps| && Handle(c, ps, m).effects != [Exception(qid)] then multiset{GrantOf(ps[i])} else multiset{}
    case DisembargoProvide(provideQid) =>
      var i := First(ps, HeldFor(provideQid));
      if i < |ps| then multiset{GrantOf(ps[i])} else multiset{}
    case _ => multiset{}
  }

  function GrantIn(): Provision -> multiset<Grant>
  {
    (p: Provision) => if p.used then multiset{GrantOf(p)} else multiset{}
  }

  /** The grants a vat holds are unclaimed, or claimed under an embargo. */
  function Grants(ps: seq<Provision>): multiset<Grant>
  {
    Collect(ps, GrantIn())
  }

  lemma {:induction false} GrantsSplit(ps: seq<Provision>)
    ensures Grants(ps) == Unclaimed(ps) + Embargoed(ps)
  {
    if ps != [] {
      GrantsSplit(ps[..|ps| - 1]);
    }
  }

  lemma GrantSame(ps: seq<Provision>, i: nat, p: Provision)
    requires i < |ps| && GrantIn()(ps[i]) == GrantIn()(p)
    ensures Grants(ps[i := p]) == Grants(ps)
  {
    CollectUpdate(ps, GrantIn(), i, p);
    Cancel(Grants(ps[i := p]), Grants(ps), GrantIn()(p));
  }

  lemma GrantNew(ps: seq<Provision>, i: nat, p: Provision)
    requires i < |ps| && !ps[i].used && p.used
    ensures Grants(ps[i := p]) == Grants(ps) + multiset{GrantOf(p)}
  {
    CollectUpdate(ps, GrantIn(), i, p);
    assert Grants(ps[i := p]) + multiset{} == Grants(ps[i := p]);
  }

  lemma GrantGone(ps: seq<Provision>, i: nat, p: Provision)
    requires i < |ps| && ps[i].used && !p.used
    ensures Grants(ps) == Grants(ps[i := p]) + multiset{GrantOf(ps[i])}
  {
    CollectUpdate(ps, GrantIn(), i, p);
    assert Grants(ps) + multiset{} == Grants(ps);
  }

  lemma ProvideGrants(c: Conn, ps: seq<Provision>, m: Message)
    requires Sized(c) && m.Provide?
    ensures Granted(c, ps, m) + Grants(ps) == Completed(c, ps, m) + Grants(Handle(c, ps, m).provisions)
  {
    hide Keep, AddRef, Resolve, Grants, SetsOk;
    var id, i := Resolve(c, m.target), First(ps, FreeProvision());
    if id >= 0 && m.recipient.Some? && i < |ps| {
      GrantNew(ps, i, ps[i].(used := true, nonce := m.recipient.value, server := c.exports[id].server,
                             dispatch := c.exports[id].dispatch, exportId := id, qid := m.qid, embargoed := false));
    }
  }

  lemma AcceptGrants(c: Conn, ps: seq<Provision>, m: Message)
    requires Sized(c) && m.Accept? && m.provision.Some?
    ensures Granted(c, ps, m) + Grants(ps) == Completed(c, ps, m) + Grants(Handle(c, ps, m).provisions)
  {
    hide ExportCap, Keep, Grants, SetsOk;
    var i := First(ps, Claimable(m.provision.value));
    if i < |ps| {
      var e := ExportCap(c.exports, Capability(ps[i].server, ps[i].dispatch));
      if e.id >= 0 && m.embargo {
        GrantSame(ps, i, ps[i].(exportId := e.id, embargoed := true, acceptQid := m.qid));
      } else if e.id >= 0 {
        GrantGone(ps, i, ps[i].(exportId := e.id, used := false));
      }
    }
  }

  lemma DisembargoGrants(c: Conn, ps: seq<Provision>, m: Message)
    requires Sized(c) && m.DisembargoProvide?
    ensures Granted(c, ps, m) + Grants(ps) == Completed(c, ps, m) + Grants(Handle(c, ps, m).provisions)
  {
    hide Keep, Grants, SetsOk;
    var i := First(ps, HeldFor(m.provideQid));
    if i < |ps| {
      GrantGone(ps, i, NO_PROVISION);
    }
  }

  /** Every message: grants held before and granted by it are held after or completed by it. */
  lemma GrantsConserved(c: Conn, ps: seq<Provision>, m: Message)
    requires Sized(c)
    ensures Granted(c, ps, m) + Grants(ps) == Completed(c, ps, m) + Grants(Handle(c, ps, m).provisions)
  {
    hide Granted, Completed, Handle, Grants, SetsOk;
    if m.Provide? {
      ProvideGrants(c, ps, m);
    } else if m.Accept? && m.provision.Some? {
      AcceptGrants(c, ps, m);
    } else if m.DisembargoProvide? {
      DisembargoGrants(c, ps, m);
    } else {
      OthersKeep(c, ps, m);
    }
  }

  lemma OthersKeep(c: Conn, ps: seq<Provision>, m: Message)
    requires Sized(c) && !m.Provide? && !m.DisembargoProvide? && !(m.Accept? && m.provision.Some?)
    ensures Handle(c, ps, m).provisions == ps && Granted(c, ps, m) == multiset{} && Completed(c, ps, m) == multiset{}
  {
    hide ExportCap, Keep, AddRef, Resolve, PartSlot, WithPart, AllSame, Verdicts, SetsOk;
  }

  // ---- embargoes -----------------------------------------------------------------------

  /** A claimed grant under an embargo stays as it is until a Disembargo names its Provide. */
  lemma HoldStays(c: Conn, ps: seq<Provision>, m: Message, i: nat)
    requires Sized(c) && i < |ps| && ps[i].used && ps[i].embargoed && m != DisembargoProvide(ps[i].qid)
    ensures |Handle(c, ps, m).provisions| == |ps| && Handle(c, ps, m).provisions[i] == ps[i]
  {
    hide OnCall, OnBootstrap, OnFinish, OnRelease, OnJoin, ExportCap, Keep, AddRef, Resolve, SetsOk;
    if m.Accept? && m.provision.Some? {
      assert !Claimable(m.provision.value)(ps[i]);
    } else if m.Provide? {
      assert !FreeProvision()(ps[i]);
    } else if !m.DisembargoProvide? {
      OthersKeep(c, ps, m);
    }
  }
}
