/** Runs of a vat: any number of connections sharing its provisions, any sequence of
    messages on them. */
module Vats {
  import opened Options
  import opened Tables
  import opened Rpc
  import opened JoinLaws
  import opened ExportLaws
  import opened HandoffLaws

  /** The connections of a vat and the capabilities it holds for third parties. */
  datatype World = World(conns: seq<Conn>, provisions: seq<Provision>)

  /** A message received on connection `at`, or a call of the program on it. */
  datatype Event =
    | Receive(at: nat, m: Message)
    | SetBootstrap(at: nat, offered: Option<Capability>)
    | Offer(at: nat, cap: Capability)

  datatype Next = Next(world: World, effects: seq<Effect>)

  predicate WorldSized(w: World)
  {
    forall k :: 0 <= k < |w.conns| ==> Sized(w.conns[k])
  }

  /** An event changes its connection and the provisions; what it gives rise to goes to
      that connection. */
  function After(w: World, e: Event): Next
    requires WorldSized(w) && e.at < |w.conns|
  {
    var c := w.conns[e.at];
    match e
    case Receive(k, m) =>
      var o := Handle(c, w.provisions, m);
      Next(World(w.conns[k := o.conn], o.provisions), o.effects)
    case SetBootstrap(k, cap) => Next(w.(conns := w.conns[k := c.(bootstrap := cap)]), [])
    case Offer(k, cap) => Next(w.(conns := w.conns[k := c.(exports := ExportCap(c.exports, cap).exports)]), [])
  }

  predicate Happens(w: World, e: Event, w': World, fx: seq<Effect>)
  {
    WorldSized(w) && e.at < |w.conns| && After(w, e) == Next(w', fx)
  }

  function NewWorld(conns: nat): World
  {
    World(seq(conns, _ => NewConn()), NewProvisions())
  }

  /** A run: the state before each event and after the last, the events, and what each
      gave rise to. */
  datatype Run = Run(states: seq<World>, events: seq<Event>, effects: seq<seq<Effect>>)

  predicate IsRun(r: Run): (b: bool)
    ensures b ==> |r.states| == |r.events| + 1 && |r.effects| == |r.events|
  {
    && |r.states| == |r.events| + 1 && |r.effects| == |r.events|
    && r.states[0] == NewWorld(|r.states[0].conns|)
    && forall i :: 0 <= i < |r.events| ==> Happens(r.states[i], r.events[i], r.states[i + 1], r.effects[i])
  }

  // ---- what holds in every state ----------------------------------------------------------

  predicate ConnOk(c: Conn)
  {
    Sized(c) && ExportsOk(c.exports) && JoinsOk(c.joins)
  }

  predicate WorldOk(w: World)
  {
    forall k :: 0 <= k < |w.conns| ==> ConnOk(w.conns[k])
  }

  lemma NewOk(n: nat)
    ensures WorldOk(NewWorld(n))
  {
    assert ConnOk(NewConn());
  }

  /** Every message keeps a connection in order. */
  lemma HandleOk(c: Conn, ps: seq<Provision>, m: Message)
    requires ConnOk(c)
    ensures ConnOk(Handle(c, ps, m).conn)
  {
    hide OnBootstrap, OnCall, OnFinish, OnRelease, OnJoin, OnProvide, OnAccept, OnDisembargo, ExportsOk, JoinsOk;
    ExportsStay(c, ps, m);
    HandleSized(c, ps, m);
    if m.Join? {
      JoinKeeps(c, ps, m.qid, m.target, m.key);
    }
  }

  lemma HandleSized(c: Conn, ps: seq<Provision>, m: Message)
    requires Sized(c)
    ensures Sized(Handle(c, ps, m).conn) && |Handle(c, ps, m).provisions| == |ps|
    ensures !m.Join? ==> Handle(c, ps, m).conn.joins == c.joins
  {
    hide Resolve, SetsOk, OnJoin;
    if m.Join? {
      JoinSized(c, ps, m.qid, m.target, m.key);
    }
  }

  lemma JoinSized(c: Conn, ps: seq<Provision>, qid: nat, target: Target, key: Option<JoinKey>)
    requires Sized(c)
    ensures Sized(OnJoin(c, ps, qid, target, key).conn) && OnJoin(c, ps, qid, target, key).provisions == ps
  {
    hide Resolve, PartSlot, AllSame, Verdicts, SetOk, SetsOk, WithPart, EmptySet;
    if key.Some? && PartSlot(c.joins, key.value) >= 0 {
      var slot := PartSlot(c.joins, key.value);
      PartAccepted(c.joins, key.value);
      EmptyOk();
      StillValid(c.joins, slot, EmptySet(false, 0, 0));
      var j := WithPart(c.joins[slot], key.value, qid, Resolve(c, target));
      StillValid(c.joins, slot, j);
      PartCountOk(j);
    }
  }

  lemma PartCountOk(j: JoinSet)
    requires SetOk(j)
    ensures |j.eids| == MAX_JOIN_PARTS && j.partCount <= MAX_JOIN_PARTS
    ensures j.partCount > 0 && AllSame(j) ==> 0 <= j.eids[0] < MAX_EXPORTS
  {
  }

  lemma OfferOk(c: Conn, cap: Capability)
    requires ConnOk(c)
    ensures ConnOk(c.(exports := ExportCap(c.exports, cap).exports))
  {
    hide ExportCap, ExportsOk, JoinsOk, SetsOk;
    ExportKeeps(c.exports, cap);
  }

  lemma StepOk(w: World, e: Event, w': World, fx: seq<Effect>)
    requires WorldOk(w) && Happens(w, e, w', fx)
    ensures WorldOk(w') && |w'.conns| == |w.conns| && |w'.provisions| == |w.provisions|
  {
    hide Handle, ExportCap, ExportsOk, JoinsOk, SetsOk;
    var c := w.conns[e.at];
    match e
    case Receive(k, m) =>
      HandleOk(c, w.provisions, m);
      HandleSized(c, w.provisions, m);
    case SetBootstrap(_, _) =>
    case Offer(_, cap) => OfferOk(c, cap);
  }

  /** In every state of every run, exports in use are referenced and have distinct
      servers, and Join sets are distinct, begun, incomplete and counted right. */
  lemma {:induction false} RunOk(r: Run, i: nat)
    requires IsRun(r) && i < |r.states|
    ensures WorldOk(r.states[i]) && |r.states[i].conns| == |r.states[0].conns| && |r.states[i].provisions| == MAX_PROVISIONS
  {
    hide WorldOk, Happens;
    if i == 0 {
      NewOk(|r.states[0].conns|);
    } else {
      RunOk(r, i - 1);
      var e := r.events[i - 1];
      assert Happens(r.states[i - 1], e, r.states[i], r.effects[i - 1]);
      StepOk(r.states[i - 1], e, r.states[i], r.effects[i - 1]);
    }
  }

  /** One event of a run, with everything that holds of it. */
  lemma At(r: Run, i: nat)
    requires IsRun(r) && i < |r.events|
    ensures Happens(r.states[i], r.events[i], r.states[i + 1], r.effects[i])
    ensures WorldOk(r.states[i]) && WorldOk(r.states[i + 1])
    ensures r.events[i].at < |r.states[i].conns| && ConnOk(r.states[i].conns[r.events[i].at])
    ensures |r.states[i].conns| == |r.states[0].conns| == |r.states[i + 1].conns|
    ensures |r.states[i].provisions| == |r.states[i + 1].provisions| == MAX_PROVISIONS
  {
    hide ConnOk;
    RunOk(r, i);
    RunOk(r, i + 1);
  }

  // ---- embargo -----------------------------------------------------------------------------------

  /** No event from i until j is a Disembargo naming the question of a Provide. */
  predicate NotLifted(r: Run, i: nat, j: nat, provideQid: nat)
    requires i <= j <= |r.events|
  {
    forall k :: i <= k < j ==> !(r.events[k].Receive? && r.events[k].m == DisembargoProvide(provideQid))
  }

  lemma {:induction false} HeldUntilLifted(r: Run, i: nat, j: nat, slot: nat)
    requires IsRun(r) && i <= j <= |r.events| && slot < |r.states[i].provisions|
    requires r.states[i].provisions[slot].used && r.states[i].provisions[slot].embargoed
    requires NotLifted(r, i, j, r.states[i].provisions[slot].qid)
    ensures slot < |r.states[j].provisions| && r.states[j].provisions[slot] == r.states[i].provisions[slot]
  {
    hide IsRun, Handle, ExportCap, WorldOk;
    if i < j {
      HeldUntilLifted(r, i, j - 1, slot);
      At(r, j - 1);
      var w, e := r.states[j - 1], r.events[j - 1];
      if e.Receive? {
        HoldStays(w.conns[e.at], w.provisions, e.m, slot);
      }
    }
  }

  /** An Accept was claimed under an embargo at event i, in this slot. */
  predicate Claims(r: Run, i: nat, slot: nat)
    requires IsRun(r) && i < |r.events|
  {
    && r.events[i].Receive? && r.events[i].m.Accept? && r.events[i].m.embargo && r.events[i].m.provision.Some?
    && slot == First(r.states[i].provisions, Claimable(r.events[i].m.provision.value))
    && r.effects[i] == [] && slot < |r.states[i].provisions|
  }

  lemma ClaimHolds(r: Run, i: nat, slot: nat)
    requires IsRun(r) && i < |r.events| && Claims(r, i, slot)
    ensures slot < |r.states[i + 1].provisions|
    ensures var p, q := r.states[i].provisions[slot], r.states[i + 1].provisions[slot];
            q.used && q.embargoed && q.acceptQid == r.events[i].m.qid && q.qid == p.qid && GrantOf(q) == GrantOf(p)
  {
    hide IsRun, ExportCap, WorldOk, ConnOk;
    At(r, i);
  }

  // ---- handoff ---------------------------------------------------------------------------------------

  function GrantedAt(r: Run, i: nat): multiset<Grant>
    requires IsRun(r) && i < |r.events|
  {
    At(r, i);
    var w, e := r.states[i], r.events[i];
    if e.Receive? then Granted(w.conns[e.at], w.provisions, e.m) else multiset{}
  }

  function CompletedAt(r: Run, i: nat): multiset<Grant>
    requires IsRun(r) && i < |r.events|
  {
    At(r, i);
    var w, e := r.states[i], r.events[i];
    if e.Receive? then Completed(w.conns[e.at], w.provisions, e.m) else multiset{}
  }

  /** Grants of the Provides accepted by the first n events, on any connection. */
  function GrantedBy(r: Run, n: nat): multiset<Grant>
    requires IsRun(r) && n <= |r.events|
  {
    if n == 0 then multiset{} else GrantedBy(r, n - 1) + GrantedAt(r, n - 1)
  }

  function CompletedBy(r: Run, n: nat): multiset<Grant>
    requires IsRun(r) && n <= |r.events|
  {
    if n == 0 then multiset{} else CompletedBy(r, n - 1) + CompletedAt(r, n - 1)
  }

  lemma StepGrants(r: Run, i: nat)
    requires IsRun(r) && i < |r.events|
    ensures GrantedAt(r, i) + Grants(r.states[i].provisions) == CompletedAt(r, i) + Grants(r.states[i + 1].provisions)
  {
    hide IsRun, Granted, Completed, Grants, Handle, ExportCap, WorldOk;
    At(r, i);
    var w, e := r.states[i], r.events[i];
    if e.Receive? {
      GrantsConserved(w.conns[e.at], w.provisions, e.m);
    }
  }

  /** Over every run, on any number of connections: the Provides accepted are the ones
      still unclaimed, the ones under an embargo, and the claims completed. */
  lemma {:induction false} EveryGrant(r: Run, n: nat)
    requires IsRun(r) && n <= |r.events|
    ensures GrantedBy(r, n) == Unclaimed(r.states[n].provisions) + Embargoed(r.states[n].provisions) + CompletedBy(r, n)
  {
    hide GrantedAt, CompletedAt, Unclaimed, Embargoed, Grants;
    GrantsSplit(r.states[n].provisions);
    if n == 0 {
      NoGrants();
    } else {
      EveryGrant(r, n - 1);
      StepGrants(r, n - 1);
      GrantsSplit(r.states[n - 1].provisions);
      forall g
        ensures GrantedBy(r, n)[g] == (Grants(r.states[n].provisions) + CompletedBy(r, n))[g]
      {
        assert (GrantedAt(r, n - 1) + Grants(r.states[n - 1].provisions))[g]
            == (CompletedAt(r, n - 1) + Grants(r.states[n].provisions))[g];
      }
    }
  }

  lemma NoGrants()
    ensures Grants(NewProvisions()) == multiset{}
  {
    CollectNone(NewProvisions(), GrantIn());
  }

  /** A Provide accepted once is claimed at most once, whichever connection claims it. */
  lemma ClaimedAtMostOnce(r: Run, n: nat, g: Grant)
    requires IsRun(r) && n <= |r.events|
    ensures CompletedBy(r, n)[g] <= GrantedBy(r, n)[g]
  {
    hide IsRun, GrantedBy, CompletedBy, Unclaimed, Embargoed;
    EveryGrant(r, n);
  }
}
