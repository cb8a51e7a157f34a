/** When the Return that lifts an embargo names an export in use: the export made for the
    Accept may have been released while the Return waited. */
module EmbargoLimits {
  import opened Options
  import opened Tables
  import opened Rpc
  import opened JoinLaws
  import opened ExportLaws
  import opened Vats
  import opened HandoffRuns
  import opened References

  /** The object of an export in use throughout stays the same. */
  lemma {:induction false} ObjectLasts(r: Run, i: nat, j: nat, k: nat, id: nat)
    requires IsRun(r) && i <= j < |r.states| && k < |r.states[i].conns| && LiveExport(r.states[i].conns[k], id)
    requires InUse(r, i, j, k, id)
    ensures k < |r.states[j].conns| && LiveExport(r.states[j].conns[k], id)
    ensures r.states[j].conns[k].exports[id].server == r.states[i].conns[k].exports[id].server
  {
    hide IsRun, Handle, ExportCap, ExportsOk, JoinsOk, SetsOk;
    if i < j {
      ObjectLasts(r, i, j - 1, k, id);
      At(r, j - 1);
      var w, e := r.states[j - 1], r.events[j - 1];
      if e.at == k {
        if e.Receive? {
          ServerStays(w.conns[k], w.provisions, e.m, id);
        } else if e.Offer? {
          ExportKeeps(w.conns[k].exports, e.cap);
        }
      }
    }
  }

  /** No Release of the export arrives on connection k from event i until j. */
  predicate NotReleased(r: Run, i: nat, j: nat, k: nat, id: nat)
    requires i <= j <= |r.events|
  {
    forall t :: i <= t < j ==> !(r.events[t].Receive? && r.events[t].at == k && r.events[t].m.Release? && r.events[t].m.id == id)
  }

  lemma {:induction false} UnreleasedInUse(r: Run, i: nat, j: nat, k: nat, id: nat)
    requires IsRun(r) && i <= j <= |r.events| && k < |r.states[i].conns| && LiveExport(r.states[i].conns[k], id)
    requires NotReleased(r, i, j, k, id)
    ensures InUse(r, i, j, k, id)
    decreases j - i
  {
    hide IsRun, Handle, ExportCap, ExportsOk, JoinsOk, SetsOk;
    if i < j {
      UnreleasedInUse(r, i, j - 1, k, id);
      At(r, j - 1);
      RunOk(r, i);
      var w, e := r.states[j - 1], r.events[j - 1];
      if e.at == k {
        if e.Receive? {
          StaysUnreleased(w.conns[k], w.provisions, e.m, id);
        } else if e.Offer? {
          ExportKeeps(w.conns[k].exports, e.cap);
        }
      }
    }
  }

  lemma StaysUnreleased(c: Conn, ps: seq<Provision>, m: Message, id: nat)
    requires Sized(c) && JoinsOk(c.joins) && ExportsOk(c.exports) && LiveExport(c, id)
    requires !(m.Release? && m.id == id)
    ensures LiveExport(Handle(c, ps, m).conn, id)
  {
    hide OnBootstrap, OnCall, OnFinish, OnJoin, OnProvide, OnAccept, OnDisembargo, JoinsOk, ExportsOk;
    ExportsStay(c, ps, m);
  }

  // ---- released, and exported again ------------------------------------------------------------

  /** What an event puts in the export table of connection k. */
  function Exports(w: World, e: Event, k: nat): Option<Capability>
    requires k < |w.conns|
  {
    if e.at != k then None
    else
      match e
      case Offer(_, cap) => Some(cap)
      case SetBootstrap(_, _) => None
      case Receive(_, m) => ExportsOf(w.conns[k], w.provisions, m)
  }

  function ExportsOf(c: Conn, ps: seq<Provision>, m: Message): Option<Capability>
  {
    match m
    case Bootstrap(_) => c.bootstrap
    case Accept(_, Some(nonce), _) =>
      var i := First(ps, Claimable(nonce));
      if i < |ps| then Some(Capability(ps[i].server, ps[i].dispatch)) else None
    case _ => None
  }

  /** Slot `id` is free, and a capability with this server goes there. */
  predicate Fills(c: Conn, cap: Option<Capability>, id: nat, server: nat)
  {
    !LiveExport(c, id) && cap.Some? && cap.value.server == server && ExportCap(c.exports, cap.value).id == id
  }

  predicate LiveFor(c: Conn, id: nat, server: nat)
  {
    LiveExport(c, id) && c.exports[id].server == server
  }

  lemma FillsSlot(c: Conn, cap: Capability, id: nat, server: nat)
    requires !LiveExport(c, id)
    ensures var c' := c.(exports := ExportCap(c.exports, cap).exports);
            LiveFor(c', id, server) <==> Fills(c, Some(cap), id, server)
  {
  }

  /** A message that makes a free slot an export puts its capability there. */
  lemma MessageFills(c: Conn, ps: seq<Provision>, m: Message, id: nat, server: nat)
    requires Sized(c) && JoinsOk(c.joins) && !LiveExport(c, id)
    ensures LiveFor(Handle(c, ps, m).conn, id, server) <==> Fills(c, ExportsOf(c, ps, m), id, server)
  {
    hide ExportCap, OnJoin, Keep, Resolve, JoinsOk, OnRelease, OnCall, Claimable;
    match m
    case Bootstrap(_) =>
      if c.bootstrap.Some? {
        FillsSlot(c, c.bootstrap.value, id, server);
        Refused(c, c.bootstrap.value);
      }
    case Accept(_, Some(nonce), _) =>
      var i := First(ps, Claimable(nonce));
      if i < |ps| {
        FillsSlot(c, Capability(ps[i].server, ps[i].dispatch), id, server);
        Refused(c, Capability(ps[i].server, ps[i].dispatch));
      }
    case _ => OthersFillNone(c, ps, m, id);
  }

  lemma Refused(c: Conn, cap: Capability)
    ensures ExportCap(c.exports, cap).id < 0 ==> ExportCap(c.exports, cap).exports == c.exports
  {
  }

  lemma OthersFillNone(c: Conn, ps: seq<Provision>, m: Message, id: nat)
    requires Sized(c) && JoinsOk(c.joins) && !LiveExport(c, id) && !m.Bootstrap? && !(m.Accept? && m.provision.Some?)
    ensures !LiveExport(Handle(c, ps, m).conn, id)
  {
    hide OnJoin, Keep, Resolve, JoinsOk;
    if m.Join? {
      JoinFillsNone(c, ps, m, id);
    }
  }

  lemma JoinFillsNone(c: Conn, ps: seq<Provision>, m: Message, id: nat)
    requires Sized(c) && JoinsOk(c.joins) && m.Join? && !LiveExport(c, id)
    ensures !LiveExport(OnJoin(c, ps, m.qid, m.target, m.key).conn, id)
  {
    hide Resolve, PartSlot, SetOk, AllSame, WithPart, Verdicts;
    if m.key.Some? && PartSlot(c.joins, m.key.value) >= 0 {
      PartAccepted(c.joins, m.key.value);
      AgreedIsLive(c, m.key.value, m.qid, m.target);
    }
  }

  /** Event t puts the object with this server in slot `id`, which is free, and its
      references, given out less released, stay positive from then until j. */
  predicate ExportedAt(r: Run, t: nat, j: nat, k: nat, id: nat, server: nat)
    requires IsRun(r) && t < j <= |r.events|
  {
    && k < |r.states[t].conns| && k < |r.states[t + 1].conns|
    && Fills(r.states[t].conns[k], Exports(r.states[t], r.events[t], k), id, server) && StaysPositive(r, t + 1, j, k, id)
  }

  predicate ExportedAgain(r: Run, i: nat, j: nat, k: nat, id: nat, server: nat)
    requires IsRun(r) && i <= j <= |r.events|
  {
    exists t: nat :: i <= t < j && ExportedAt(r, t, j, k, id, server)
  }

  lemma EventFills(r: Run, t: nat, k: nat, id: nat, server: nat)
    requires IsRun(r) && t < |r.events| && k < |r.states[t].conns| && k < |r.states[t + 1].conns|
    requires !LiveExport(r.states[t].conns[k], id)
    ensures LiveFor(r.states[t + 1].conns[k], id, server) <==>
              Fills(r.states[t].conns[k], Exports(r.states[t], r.events[t], k), id, server)
  {
    hide IsRun, Handle, ExportCap, ExportsOf, ExportsOk, JoinsOk, SetsOk;
    At(r, t);
    var w, e := r.states[t], r.events[t];
    if e.at == k {
      match e
      case Receive(_, m) => MessageFills(w.conns[k], w.provisions, m, id, server);
      case Offer(_, cap) => FillsSlot(w.conns[k], cap, id, server);
      case SetBootstrap(_, _) =>
    }
  }

  /** When an export is in use for its object at a later moment: its references stayed
      positive all along; or it was released, its slot was given to the same object again
      later, and its references stayed positive from then on. */
  lemma {:induction false} InUseAgain(r: Run, i: nat, j: nat, k: nat, id: nat)
    requires IsRun(r) && i <= j <= |r.events| && k < |r.states[i].conns| && LiveExport(r.states[i].conns[k], id)
    ensures k < |r.states[j].conns|
    ensures var server := r.states[i].conns[k].exports[id].server;
            LiveFor(r.states[j].conns[k], id, server) <==> StaysPositive(r, i, j, k, id) || ExportedAgain(r, i, j, k, id, server)
    decreases j - i
  {
    hide IsRun, WorldOk, StaysPositive, Fills, Exports, Handle, ConnOk;
    var server := r.states[i].conns[k].exports[id].server;
    SameConns(r, i, j);
    InUseExactly(r, i, j, k, id);
    if StaysPositive(r, i, j, k, id) {
      ObjectLasts(r, i, j, k, id);
    } else if ExportedAgain(r, i, j, k, id, server) {
      var t: nat :| i <= t < j && ExportedAt(r, t, j, k, id, server);
      AgainLive(r, t, j, k, id, server);
    } else if i < j && LiveFor(r.states[j].conns[k], id, server) {
      BackAgain(r, i, j, k, id, server);
    }
  }

  lemma SameConns(r: Run, i: nat, j: nat)
    requires IsRun(r) && i <= j <= |r.events|
    ensures |r.states[i].conns| == |r.states[j].conns|
  {
    hide IsRun;
    RunOk(r, i);
    RunOk(r, j);
  }

  lemma AgainLive(r: Run, t: nat, j: nat, k: nat, id: nat, server: nat)
    requires IsRun(r) && t < j <= |r.events| && ExportedAt(r, t, j, k, id, server)
    ensures k < |r.states[j].conns| && LiveFor(r.states[j].conns[k], id, server)
  {
    hide IsRun, StaysPositive, Exports, ExportCap;
    EventFills(r, t, k, id, server);
    InUseExactly(r, t + 1, j, k, id);
    ObjectLasts(r, t + 1, j, k, id);
  }

  /** In use for the object, but not all along: exported again. */
  lemma BackAgain(r: Run, i: nat, j: nat, k: nat, id: nat, server: nat)
    requires IsRun(r) && i < j <= |r.events| && k < |r.states[i].conns| && k < |r.states[j].conns|
    requires LiveFor(r.states[i].conns[k], id, server) && LiveFor(r.states[j].conns[k], id, server)
    requires !InUse(r, i, j, k, id)
    ensures ExportedAgain(r, i, j, k, id, server)
  {
    hide IsRun, StaysPositive, Fills, Exports;
    var t := LastFree(r, i, j, k, id);
    SameConns(r, t, j);
    SameConns(r, t + 1, j);
    ObjectLasts(r, t + 1, j, k, id);
    EventFills(r, t, k, id, server);
    InUseExactly(r, t + 1, j, k, id);
    assert ExportedAt(r, t, j, k, id, server);
  }

  /** The last moment at which an export now in use was not. */
  lemma {:induction false} LastFree(r: Run, i: nat, j: nat, k: nat, id: nat) returns (t: nat)
    requires IsRun(r) && i < j <= |r.events| && k < |r.states[i].conns| && k < |r.states[j].conns|
    requires LiveExport(r.states[i].conns[k], id) && LiveExport(r.states[j].conns[k], id) && !InUse(r, i, j, k, id)
    ensures i < t < j && k < |r.states[t].conns| && !LiveExport(r.states[t].conns[k], id) && InUse(r, t + 1, j, k, id)
    ensures k < |r.states[t + 1].conns| && LiveExport(r.states[t + 1].conns[k], id)
    decreases j - i
  {
    hide IsRun;
    SameConns(r, i, j);
    SameConns(r, i, j - 1);
    if LiveExport(r.states[j - 1].conns[k], id) {
      InUseNext(r, i, j, k, id);
      t := LastFree(r, i, j - 1, k, id);
      InUseNext(r, t + 1, j, k, id);
    } else {
      t := j - 1;
    }
  }

  // ---- lifted ------------------------------------------------------------------------------------

  /** The Return that lifts an embargo names the export made for the Accept. That is still
      in use, for the object provided, if no Release of it came since. It has been in use
      all along exactly if the references on it, given out less released, stayed positive;
      and it is in use for the object exactly if they did, or if the object was exported to
      the same slot again and they stayed positive since then. */
  lemma LiftedLive(r: Run, i: nat, j: nat, slot: nat)
    requires IsRun(r) && i < j < |r.events| && Claims(r, i, slot)
    requires NotLifted(r, i + 1, j, r.states[i].provisions[slot].qid)
    requires r.events[j].Receive? && r.events[j].m == DisembargoProvide(r.states[i].provisions[slot].qid)
    requires slot == First(r.states[j].provisions, HeldFor(r.states[i].provisions[slot].qid))
    ensures var a := r.events[i].at;
            a < |r.states[i + 1].conns| &&
            exists id: nat ::
              && r.effects[j] == [Results(r.events[i].m.qid, CapPayload(id))] && LiveExport(r.states[i + 1].conns[a], id)
              && (InUse(r, i + 1, j, a, id) <==> StaysPositive(r, i + 1, j, a, id))
              && (NotReleased(r, i + 1, j, a, id) ==> InUse(r, i + 1, j, a, id))
              && a < |r.states[j].conns|
              && var server := r.states[i].provisions[slot].server;
                 && (InUse(r, i + 1, j, a, id) ==> LiveFor(r.states[j].conns[a], id, server))
                 && (LiveFor(r.states[j].conns[a], id, server) <==>
                       StaysPositive(r, i + 1, j, a, id) || ExportedAgain(r, i + 1, j, a, id, server))
  {
    hide IsRun, HeldFor, WorldOk, InUse, StaysPositive, NotReleased, ExportedAgain;
    EmbargoLifts(r, i, j, slot);
    var a := r.events[i].at;
    var id: nat :| r.effects[j] == [Results(r.events[i].m.qid, CapPayload(id))] && LiveExport(r.states[i + 1].conns[a], id)
                   && r.states[i + 1].conns[a].exports[id].server == r.states[i].provisions[slot].server;
    InUseExactly(r, i + 1, j, a, id);
    if NotReleased(r, i + 1, j, a, id) {
      UnreleasedInUse(r, i + 1, j, a, id);
    }
    InUseAgain(r, i + 1, j, a, id);
  }
}
