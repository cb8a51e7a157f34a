/** What the refcount of an export counts: the references given out for it, less the
    references released. */
module References {
  import opened Options
  import opened Tables
  import opened Rpc
  import opened JoinLaws
  import opened ExportLaws
  import opened Vats

  /** The references held on an export. */
  function Refs(c: Conn, id: nat): int
  {
    if LiveExport(c, id) then c.exports[id].refcount else 0
  }

  /** A message had this outcome, which gave out a reference on the export: it was named
      in a Return, taken for a Provide, or claimed for an Accept under an embargo. */
  predicate GivesOut(c: Conn, ps: seq<Provision>, m: Message, o: Outcome, id: nat)
  {
    match m
    case Bootstrap(qid) => o.effects == [Results(qid, CapPayload(id))]
    case Provide(qid, target, _) => o.effects == [Results(qid, EMPTY)] && Resolve(c, target) == id
    case Join(_, _, _) => o.effects != [] && o.effects[0].JoinResult? && o.effects[0].joined == Some(id)
    case Accept(qid, Some(nonce), embargo) =>
      if embargo then
        var i := First(ps, Claimable(nonce));
        o.effects == [] && i < |ps| && i < |o.provisions| && o.provisions[i].exportId == id
      else o.effects == [Results(qid, CapPayload(id))]
    case _ => false
  }

  function Given(c: Conn, ps: seq<Provision>, m: Message, o: Outcome, id: nat): nat
  {
    if GivesOut(c, ps, m, o, id) then 1 else 0
  }

  /** References a message releases on the export. */
  function Taken(m: Message, id: nat): int
  {
    if m.Release? && m.id == id then AsInt(m.count) else 0
  }

  lemma ExportGives(c: Conn, cap: Capability, id: nat)
    requires ExportsOk(c.exports)
    ensures var e := ExportCap(c.exports, cap);
            Refs(c.(exports := e.exports), id) == Refs(c, id) + if e.id == id then 1 else 0
  {
  }

  lemma SameRefs(c: Conn, c': Conn, id: nat)
    requires c'.exports == c.exports
    ensures Refs(c', id) == Refs(c, id)
  {
  }

  lemma RefGives(c: Conn, at: nat, id: nat)
    requires LiveExport(c, at)
    ensures Refs(c.(exports := AddRef(c.exports, at)), id) == Refs(c, id) + if at == id then 1 else 0
  {
  }

  lemma ReleaseTakes(c: Conn, ps: seq<Provision>, m: Message, id: nat)
    requires ExportsOk(c.exports) && m.Release?
    ensures var left := Refs(c, id) - Taken(m, id);
            Refs(OnRelease(c, ps, m.id, m.count).conn, id) == if LiveExport(c, id) && left > 0 then left else 0
  {
    hide AsInt;
  }

  lemma CapsDiffer(a: nat, b: nat)
    ensures CapPayload(a) == CapPayload(b) <==> a == b
  {
    assert CapPayload(a).capTable[0] == SenderHosted(a);
    assert CapPayload(b).capTable[0] == SenderHosted(b);
  }

  lemma BootstrapGives(c: Conn, ps: seq<Provision>, m: Message, id: nat)
    requires ExportsOk(c.exports) && m.Bootstrap?
    ensures var o := OnBootstrap(c, ps, m.qid); Refs(o.conn, id) == Refs(c, id) + Given(c, ps, m, o, id)
  {
    hide ExportCap, Keep, CapPayload, Refs;
    var o := OnBootstrap(c, ps, m.qid);
    if c.bootstrap.Some? {
      var e := ExportCap(c.exports, c.bootstrap.value);
      ExportGives(c, c.bootstrap.value, id);
      if e.id >= 0 {
        CapsDiffer(e.id, id);
        assert o.effects[0] == Results(m.qid, CapPayload(e.id));
        SameRefs(c.(exports := e.exports), o.conn, id);
      }
    }
  }

  lemma AcceptGives(c: Conn, ps: seq<Provision>, m: Message, id: nat)
    requires ExportsOk(c.exports) && m.Accept?
    ensures var o := OnAccept(c, ps, m.qid, m.provision, m.embargo); Refs(o.conn, id) == Refs(c, id) + Given(c, ps, m, o, id)
  {
    hide ExportCap, Keep, CapPayload, Refs, Claimable;
    var o := OnAccept(c, ps, m.qid, m.provision, m.embargo);
    if m.provision.Some? {
      var i := First(ps, Claimable(m.provision.value));
      if i < |ps| {
        var cap := Capability(ps[i].server, ps[i].dispatch);
        var e := ExportCap(c.exports, cap);
        ExportGives(c, cap, id);
        if e.id >= 0 {
          CapsDiffer(e.id, id);
          SameRefs(c.(exports := e.exports), o.conn, id);
          if !m.embargo {
            assert o.effects[0] == Results(m.qid, CapPayload(e.id));
          }
        }
      }
    }
  }

  lemma ProvideGives(c: Conn, ps: seq<Provision>, m: Message, id: nat)
    requires m.Provide?
    ensures var o := OnProvide(c, ps, m.qid, m.target, m.recipient); Refs(o.conn, id) == Refs(c, id) + Given(c, ps, m, o, id)
  {
    hide Keep, Refs, Resolve, AddRef, FreeProvision;
    var o := OnProvide(c, ps, m.qid, m.target, m.recipient);
    var at := Resolve(c, m.target);
    if at >= 0 {
      RefGives(c, at, id);
      SameRefs(c.(exports := AddRef(c.exports, at)), c.(exports := AddRef(c.exports, at), answers := o.conn.answers), id);
    }
  }

  lemma JoinGives(c: Conn, ps: seq<Provision>, m: Message, id: nat)
    requires Sized(c) && JoinsOk(c.joins) && m.Join?
    ensures var o := OnJoin(c, ps, m.qid, m.target, m.key); Refs(o.conn, id) == Refs(c, id) + Given(c, ps, m, o, id)
  {
    hide Refs, Resolve, AddRef, JoinsOk, WithPart, PartSlot, AllSame, SetOk, Verdicts;
    var o := OnJoin(c, ps, m.qid, m.target, m.key);
    if m.key.Some? && PartSlot(c.joins, m.key.value) >= 0 {
      var k := m.key.value;
      PartAccepted(c.joins, k);
      AgreedIsLive(c, k, m.qid, m.target);
      var j := WithPart(c.joins[PartSlot(c.joins, k)], k, m.qid, Resolve(c, m.target));
      if o.effects != [] {
        JoinIsLive(c, ps, m.qid, m.target, k);
        assert o.effects[0].joined == if AllSame(j) then Some(j.eids[0]) else None;
        if AllSame(j) {
          RefGives(c, j.eids[0], id);
          SameRefs(c.(exports := AddRef(c.exports, j.eids[0])), o.conn, id);
        } else {
          SameRefs(c, o.conn, id);
        }
      } else {
        SameRefs(c, o.conn, id);
      }
    }
  }

  /** Under every message the references on an export, of which a free slot has none, grow
      by what the outcome gives out and fall by what the message releases, to none at least. */
  lemma ReferencesCounted(c: Conn, ps: seq<Provision>, m: Message, id: nat)
    requires Sized(c) && JoinsOk(c.joins) && ExportsOk(c.exports)
    ensures var o := Handle(c, ps, m);
            var left := Refs(c, id) + Given(c, ps, m, o, id) - Taken(m, id);
            if m.Release? then Refs(o.conn, id) == if LiveExport(c, id) && left > 0 then left else 0
            else Refs(o.conn, id) == left
  {
    hide OnBootstrap, OnCall, OnFinish, OnRelease, OnJoin, OnProvide, OnAccept, OnDisembargo, Refs, JoinsOk, ExportsOk, AsInt;
    match m
    case Bootstrap(_) => BootstrapGives(c, ps, m, id);
    case Accept(_, _, _) => AcceptGives(c, ps, m, id);
    case Provide(_, _, _) => ProvideGives(c, ps, m, id);
    case Join(_, _, _) => JoinGives(c, ps, m, id);
    case Release(_, _) => ReleaseTakes(c, ps, m, id);
    case _ => OthersGiveNone(c, ps, m, id);
  }

  lemma OthersGiveNone(c: Conn, ps: seq<Provision>, m: Message, id: nat)
    requires Sized(c) && (m.Call? || m.Finish? || m.DisembargoProvide? || m.Other?)
    ensures Refs(Handle(c, ps, m).conn, id) == Refs(c, id)
  {
    hide Resolve, Keep;
  }

  // ---- over a run ------------------------------------------------------------------------------

  function GivenAt(r: Run, i: nat, k: nat, id: nat): nat
    requires IsRun(r) && i < |r.events|
  {
    At(r, i);
    var w, e := r.states[i], r.events[i];
    if e.at != k then 0
    else
      match e
      case Receive(_, m) => Given(w.conns[k], w.provisions, m, Handle(w.conns[k], w.provisions, m), id)
      case Offer(_, cap) => if ExportCap(w.conns[k].exports, cap).id == id then 1 else 0
      case SetBootstrap(_, _) => 0
  }

  function TakenAt(r: Run, i: nat, k: nat, id: nat): int
    requires i < |r.events|
  {
    if r.events[i].Receive? && r.events[i].at == k then Taken(r.events[i].m, id) else 0
  }

  function GivenSince(r: Run, i: nat, j: nat, k: nat, id: nat): nat
    requires IsRun(r) && i <= j <= |r.events|
    decreases j - i
  {
    if i == j then 0 else GivenSince(r, i, j - 1, k, id) + GivenAt(r, j - 1, k, id)
  }

  function TakenSince(r: Run, i: nat, j: nat, k: nat, id: nat): int
    requires i <= j <= |r.events|
    decreases j - i
  {
    if i == j then 0 else TakenSince(r, i, j - 1, k, id) + TakenAt(r, j - 1, k, id)
  }

  predicate InUse(r: Run, i: nat, j: nat, k: nat, id: nat)
  {
    forall t :: i < t <= j < |r.states| ==> k < |r.states[t].conns| && LiveExport(r.states[t].conns[k], id)
  }

  lemma StepReferences(r: Run, i: nat, k: nat, id: nat)
    requires IsRun(r) && i < |r.events| && k < |r.states[i].conns| && k < |r.states[i + 1].conns|
    requires LiveExport(r.states[i + 1].conns[k], id)
    ensures Refs(r.states[i + 1].conns[k], id) == Refs(r.states[i].conns[k], id) + GivenAt(r, i, k, id) - TakenAt(r, i, k, id)
  {
    hide IsRun, Handle, ExportCap, ExportsOk, JoinsOk, SetsOk, Given, Taken;
    At(r, i);
    var w, e := r.states[i], r.events[i];
    if e.at == k {
      var c := w.conns[k];
      match e
      case Receive(_, m) =>
        ReferencesCounted(c, w.provisions, m, id);
        if m.Release? {
          StillInUse(c, w.provisions, m, id);
        }
      case Offer(_, cap) => ExportGives(c, cap, id);
      case SetBootstrap(_, _) =>
    }
  }

  /** An export in use after a Release was in use before, with references to spare. */
  lemma StillInUse(c: Conn, ps: seq<Provision>, m: Message, id: nat)
    requires Sized(c) && m.Release? && ExportsOk(c.exports) && LiveExport(Handle(c, ps, m).conn, id)
    ensures LiveExport(c, id) && Refs(c, id) - Taken(m, id) > 0 && Given(c, ps, m, Handle(c, ps, m), id) == 0
  {
    hide AsInt;
  }

  /** In every run, as long as an export stays in use, its references are the ones it had,
      and those given out since, less those released since. */
  lemma {:induction false} ReferencesSince(r: Run, i: nat, j: nat, k: nat, id: nat)
    requires IsRun(r) && i <= j <= |r.events| && k < |r.states[i].conns| && InUse(r, i, j, k, id)
    ensures k < |r.states[j].conns|
    ensures Refs(r.states[j].conns[k], id)
         == Refs(r.states[i].conns[k], id) + GivenSince(r, i, j, k, id) - TakenSince(r, i, j, k, id)
    decreases j - i
  {
    hide IsRun, Refs, GivenAt, TakenAt;
    if i < j {
      ReferencesSince(r, i, j - 1, k, id);
      assert LiveExport(r.states[j].conns[k], id);
      StepReferences(r, j - 1, k, id);
    }
  }

  /** The references had at event i, and given out since, exceed those released since, at
      every moment up to j. */
  predicate StaysPositive(r: Run, i: nat, j: nat, k: nat, id: nat)
    requires IsRun(r) && i <= j <= |r.events| && k < |r.states[i].conns|
  {
    forall t :: i < t <= j ==> Balance(r, i, t, k, id) > 0
  }

  function Balance(r: Run, i: nat, t: nat, k: nat, id: nat): int
    requires IsRun(r) && i <= t <= |r.events| && k < |r.states[i].conns|
  {
    Refs(r.states[i].conns[k], id) + GivenSince(r, i, t, k, id) - TakenSince(r, i, t, k, id)
  }

  /** One event on an export in use: it stays in use exactly if references are left. */
  lemma StepInUse(r: Run, i: nat, k: nat, id: nat)
    requires IsRun(r) && i < |r.events| && k < |r.states[i].conns| && k < |r.states[i + 1].conns|
    requires LiveExport(r.states[i].conns[k], id)
    ensures LiveExport(r.states[i + 1].conns[k], id) <==>
              Refs(r.states[i].conns[k], id) + GivenAt(r, i, k, id) - TakenAt(r, i, k, id) > 0
  {
    hide IsRun, Handle, ExportCap, SetsOk, Given, Taken, ExportsOk, JoinsOk;
    At(r, i);
    var w, e := r.states[i], r.events[i];
    RefsPositive(w.conns[k], id) by { ConnFacts(w, k); }
    RefsPositive(r.states[i + 1].conns[k], id) by { ConnFacts(r.states[i + 1], k); }
    if e.at == k {
      var c := w.conns[k];
      match e
      case Receive(_, m) =>
        ReferencesCounted(c, w.provisions, m, id);
        if m.Release? {
          ReleaseGivesNone(c, w.provisions, m, id);
        }
      case Offer(_, cap) => ExportGives(c, cap, id);
      case SetBootstrap(_, _) =>
    }
  }

  lemma ConnFacts(w: World, k: nat)
    requires WorldOk(w) && k < |w.conns|
    ensures ExportsOk(w.conns[k].exports)
  {
    assert ConnOk(w.conns[k]);
  }

  lemma RefsPositive(c: Conn, id: nat)
    requires ExportsOk(c.exports)
    ensures LiveExport(c, id) <==> Refs(c, id) > 0
  {
  }

  lemma ReleaseGivesNone(c: Conn, ps: seq<Provision>, m: Message, id: nat)
    requires Sized(c) && m.Release?
    ensures Given(c, ps, m, Handle(c, ps, m), id) == 0
  {
    hide OnRelease;
  }

  /** In every run, an export in use stays in use exactly as long as its references stay
      positive: those it had, and those given out since, less those released since. */
  lemma {:induction false} InUseExactly(r: Run, i: nat, j: nat, k: nat, id: nat)
    requires IsRun(r) && i <= j <= |r.events| && k < |r.states[i].conns| && LiveExport(r.states[i].conns[k], id)
    ensures InUse(r, i, j, k, id) <==> StaysPositive(r, i, j, k, id)
    decreases j - i
  {
    hide IsRun, GivenAt, TakenAt, Refs, GivenSince, TakenSince, WorldOk;
    if i < j {
      InUseExactly(r, i, j - 1, k, id);
      InUseNext(r, i, j, k, id);
      PositiveNext(r, i, j, k, id);
      if InUse(r, i, j - 1, k, id) {
        RunOk(r, i);
        RunOk(r, j);
        RunOk(r, j - 1);
        ReferencesSince(r, i, j - 1, k, id);
        assert LiveExport(r.states[j - 1].conns[k], id);
        StepInUse(r, j - 1, k, id);
        BalanceNext(r, i, j, k, id);
      }
    }
  }

  lemma InUseNext(r: Run, i: nat, j: nat, k: nat, id: nat)
    requires i < j < |r.states|
    ensures InUse(r, i, j, k, id) <==>
              InUse(r, i, j - 1, k, id) && k < |r.states[j].conns| && LiveExport(r.states[j].conns[k], id)
  {
  }

  lemma PositiveNext(r: Run, i: nat, j: nat, k: nat, id: nat)
    requires IsRun(r) && i < j <= |r.events| && k < |r.states[i].conns|
    ensures StaysPositive(r, i, j, k, id) <==> StaysPositive(r, i, j - 1, k, id) && Balance(r, i, j, k, id) > 0
  {
    hide IsRun, Balance;
  }

  lemma BalanceNext(r: Run, i: nat, j: nat, k: nat, id: nat)
    requires IsRun(r) && i < j <= |r.events| && k < |r.states[i].conns|
    ensures Balance(r, i, j, k, id) == Balance(r, i, j - 1, k, id) + GivenAt(r, j - 1, k, id) - TakenAt(r, j - 1, k, id)
  {
    hide IsRun, Refs, GivenAt, TakenAt;
  }
}
