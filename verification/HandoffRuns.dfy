/** What is handed over, over every run of a vat. */
module HandoffRuns {
  import opened Options
  import opened Tables
  import opened Rpc
  import opened JoinLaws
  import opened ExportLaws
  import opened HandoffLaws
  import opened Vats

  /** Event t is a Provide, on any connection, accepted with this grant. */
  predicate ProvidedAt(r: Run, t: nat, g: Grant)
    requires IsRun(r)
  {
    t < |r.events| && r.events[t].Receive? && GrantedAt(r, t) == multiset{g}
  }

  lemma GrantStep(c: Conn, ps: seq<Provision>, m: Message, slot: nat)
    requires Sized(c) && slot < |ps| == |Handle(c, ps, m).provisions| && Handle(c, ps, m).provisions[slot].used
    ensures var p, p' := ps[slot], Handle(c, ps, m).provisions[slot];
            (p.used && GrantOf(p') == GrantOf(p)) || Granted(c, ps, m) == multiset{GrantOf(p')}
  {
    hide OnCall, OnBootstrap, OnFinish, OnRelease, OnJoin, ExportCap, Keep, AddRef, Resolve, SetsOk;
    if !m.Provide? && !m.DisembargoProvide? && !(m.Accept? && m.provision.Some?) {
      OthersKeep(c, ps, m);
    }
  }

  /** Every capability a vat holds was provided by an earlier Provide it accepted. */
  lemma {:induction false} ProvidedBefore(r: Run, n: nat, slot: nat) returns (t: nat)
    requires IsRun(r) && n <= |r.events| && slot < |r.states[n].provisions| && r.states[n].provisions[slot].used
    ensures t < n && ProvidedAt(r, t, GrantOf(r.states[n].provisions[slot]))
  {
    hide IsRun, Handle, ExportCap, ConnOk, Granted;
    if n == 0 {
      NothingProvided(r, slot);
    } else {
      At(r, n - 1);
      var w, e := r.states[n - 1], r.events[n - 1];
      assert ConnOk(w.conns[e.at]);
      if e.Receive? {
        ConnSized(w.conns[e.at]);
        GrantStep(w.conns[e.at], w.provisions, e.m, slot);
      }
      if w.provisions[slot].used && GrantOf(w.provisions[slot]) == GrantOf(r.states[n].provisions[slot]) {
        t := ProvidedBefore(r, n - 1, slot);
      } else {
        t := n - 1;
      }
    }
  }

  lemma ConnSized(c: Conn)
    requires ConnOk(c)
    ensures Sized(c) && ExportsOk(c.exports) && JoinsOk(c.joins)
  {
  }

  lemma NothingProvided(r: Run, slot: nat)
    requires IsRun(r) && slot < |r.states[0].provisions|
    ensures !r.states[0].provisions[slot].used
  {
  }

  /** The server behind a grant is the one its Provide's target named at the time. */
  lemma GrantNames(r: Run, t: nat, g: Grant)
    requires IsRun(r) && ProvidedAt(r, t, g)
    ensures var e := r.events[t];
            && e.at < |r.states[t].conns| && e.m.Provide? && e.m.recipient == Some(g.nonce) && e.m.qid == g.qid
            && var c := r.states[t].conns[e.at];
               var id := Resolve(c, e.m.target);
               LiveExport(c, id) && g.cap == Capability(c.exports[id].server, c.exports[id].dispatch)
  {
    hide IsRun, Resolve, Handle, ConnOk;
    At(r, t);
    var w, e := r.states[t], r.events[t];
    if Granted(w.conns[e.at], w.provisions, e.m) == multiset{g} {
      assert g in Granted(w.conns[e.at], w.provisions, e.m);
    }
  }

  /** An Accept without embargo, answered with a capability, names a live export of its own
      connection, for the object some Provide, on any connection, had provided under its nonce. */
  lemma ClaimNames(r: Run, n: nat) returns (t: nat, g: Grant)
    requires IsRun(r) && n < |r.events| && r.events[n].Receive? && r.events[n].m.Accept?
    requires !r.events[n].m.embargo && r.events[n].m.provision.Some? && r.effects[n] != [Exception(r.events[n].m.qid)]
    ensures t < n && ProvidedAt(r, t, g) && g.nonce == r.events[n].m.provision.value && CompletedAt(r, n) == multiset{g}
    ensures var e := r.events[n];
            e.at < |r.states[n + 1].conns| &&
            exists id: nat :: r.effects[n] == [Results(e.m.qid, CapPayload(id))] && LiveExport(r.states[n + 1].conns[e.at], id)
                           && r.states[n + 1].conns[e.at].exports[id].server == g.cap.server
  {
    hide IsRun, ExportCap, ConnOk, OnAccept;
    At(r, n);
    var w, e := r.states[n], r.events[n];
    ConnSized(w.conns[e.at]);
    var slot := First(w.provisions, Claimable(e.m.provision.value));
    AcceptIsLive(w.conns[e.at], w.provisions, e.m.qid, e.m.provision.value);
    g := GrantOf(w.provisions[slot]);
    t := ProvidedBefore(r, n, slot);
  }

  /** A Disembargo that names the Provide of a claim held since event i lifts its embargo:
      the one Return answers the Accept's question, on the connection that received the
      Disembargo, with the export made for the Accept on the accepting connection. */
  lemma EmbargoLifts(r: Run, i: nat, j: nat, slot: nat)
    requires IsRun(r) && i < j < |r.events| && Claims(r, i, slot)
    requires NotLifted(r, i + 1, j, r.states[i].provisions[slot].qid)
    requires r.events[j].Receive? && r.events[j].m == DisembargoProvide(r.states[i].provisions[slot].qid)
    requires slot == First(r.states[j].provisions, HeldFor(r.states[i].provisions[slot].qid))
    ensures var a, server := r.events[i].at, r.states[i].provisions[slot].server;
            a < |r.states[i + 1].conns| &&
            exists id: nat :: r.effects[j] == [Results(r.events[i].m.qid, CapPayload(id))]
                           && LiveExport(r.states[i + 1].conns[a], id) && r.states[i + 1].conns[a].exports[id].server == server
    ensures slot < |r.states[j + 1].provisions| && !r.states[j + 1].provisions[slot].used
  {
    hide IsRun, Keep, ConnOk, ExportCap;
    At(r, i);
    At(r, j);
    ClaimHolds(r, i, slot);
    HeldUntilLifted(r, i + 1, j, slot);
    var c, p := r.states[i].conns[r.events[i].at], r.states[i].provisions[slot];
    ConnSized(c);
    ExportKeeps(c.exports, Capability(p.server, p.dispatch));
    assert LiveExport(r.states[i + 1].conns[r.events[i].at], r.states[j].provisions[slot].exportId);
  }

  /** A Bootstrap is answered with a live export of the connection's bootstrap object. */
  lemma BootstrapNames(r: Run, n: nat)
    requires IsRun(r) && n < |r.events| && r.events[n].Receive? && r.events[n].m.Bootstrap?
    requires r.effects[n] != [Exception(r.events[n].m.qid)]
    ensures var e := r.events[n];
            && e.at < |r.states[n].conns| && r.states[n].conns[e.at].bootstrap.Some? && e.at < |r.states[n + 1].conns|
            && exists id: nat :: r.effects[n] == [Results(e.m.qid, CapPayload(id))] && LiveExport(r.states[n + 1].conns[e.at], id)
                 && r.states[n + 1].conns[e.at].exports[id].server == r.states[n].conns[e.at].bootstrap.value.server
  {
    hide IsRun, ExportCap, ConnOk, OnBootstrap;
    At(r, n);
    var w, e := r.states[n], r.events[n];
    ConnSized(w.conns[e.at]);
    BootstrapIsLive(w.conns[e.at], w.provisions, e.m.qid);
  }
}
