/** Join over every run of a vat. */
module JoinRuns {
  import opened Options
  import opened Tables
  import opened Rpc
  import opened JoinLaws
  import opened ExportLaws
  import opened Vats

  // ---- how many Joins wait ---------------------------------------------------------------

  /** Parts seen by the sets in use. */
  function TotalSeen(joins: seq<JoinSet>): nat
  {
    if joins == [] then 0
    else TotalSeen(joins[..|joins| - 1]) + if joins[|joins| - 1].used then joins[|joins| - 1].nseen else 0
  }

  lemma {:induction false} PendingCount(joins: seq<JoinSet>)
    requires forall i :: 0 <= i < |joins| && joins[i].used ==> Waiting(joins[i])
    ensures |Pending(joins)| == TotalSeen(joins)
  {
    hide Parts;
    if joins != [] {
      PendingCount(joins[..|joins| - 1]);
    }
  }

  /** The question of a Join received on connection k at event i. */
  function JoinAskedAt(r: Run, i: nat, k: nat): multiset<nat>
    requires i < |r.events|
  {
    var e := r.events[i];
    if e.Receive? && e.at == k && e.m.Join? then multiset{e.m.qid} else multiset{}
  }

  function JoinAnsweredAt(r: Run, i: nat, k: nat): multiset<nat>
    requires i < |r.events| && i < |r.effects|
  {
    if r.events[i].at == k then JoinAnswers(r.effects[i]) else multiset{}
  }

  function JoinsAsked(r: Run, n: nat, k: nat): multiset<nat>
    requires n <= |r.events|
  {
    if n == 0 then multiset{} else JoinsAsked(r, n - 1, k) + JoinAskedAt(r, n - 1, k)
  }

  function JoinsAnswered(r: Run, n: nat, k: nat): multiset<nat>
    requires n <= |r.events| && n <= |r.effects|
  {
    if n == 0 then multiset{} else JoinsAnswered(r, n - 1, k) + JoinAnsweredAt(r, n - 1, k)
  }

  /** Only Joins are answered with a JoinResult. */
  lemma OthersNoJoin(c: Conn, ps: seq<Provision>, m: Message)
    requires Sized(c) && !m.Join?
    ensures JoinAnswers(Handle(c, ps, m).effects) == multiset{} && Handle(c, ps, m).conn.joins == c.joins
  {
    hide Resolve, Keep, ExportCap, AddRef, SetsOk, JoinAnswers;
    var fx := Handle(c, ps, m).effects;
    assert forall i :: 0 <= i < |fx| ==> !fx[i].JoinResult?;
    NoJoinAnswers(fx);
  }

  lemma {:induction false} NoJoinAnswers(fx: seq<Effect>)
    requires forall i :: 0 <= i < |fx| ==> !fx[i].JoinResult?
    ensures JoinAnswers(fx) == multiset{}
  {
    if fx != [] {
      NoJoinAnswers(fx[..|fx| - 1]);
    }
  }

  lemma StepJoins(r: Run, i: nat, k: nat)
    requires IsRun(r) && i < |r.events| && k < |r.states[i].conns|
    ensures k < |r.states[i + 1].conns|
    ensures JoinAskedAt(r, i, k) + Pending(r.states[i].conns[k].joins)
         == JoinAnsweredAt(r, i, k) + Pending(r.states[i + 1].conns[k].joins)
  {
    hide IsRun, Handle, ExportCap, ExportsOk, JoinsOk, SetsOk, Pending, JoinAnswers;
    At(r, i);
    NoAnswers();
    var w, e := r.states[i], r.events[i];
    if e.at == k && e.Receive? {
      if e.m.Join? {
        JoinConserves(w.conns[k], w.provisions, e.m.qid, e.m.target, e.m.key);
        JoinIs(w.conns[k], w.provisions, e.m);
      } else {
        OthersNoJoin(w.conns[k], w.provisions, e.m);
      }
    }
  }

  lemma JoinIs(c: Conn, ps: seq<Provision>, m: Message)
    requires Sized(c) && m.Join?
    ensures Handle(c, ps, m) == OnJoin(c, ps, m.qid, m.target, m.key)
  {
    hide OnJoin, SetsOk;
  }

  /** Over every run, on each connection: the Joins received are the JoinResults sent and
      the parts seen by the sets in use. */
  lemma {:induction false} EveryJoin(r: Run, n: nat, k: nat)
    requires IsRun(r) && n <= |r.events| && k < |r.states[0].conns|
    ensures k < |r.states[n].conns|
    ensures JoinsAsked(r, n, k) == JoinsAnswered(r, n, k) + Pending(r.states[n].conns[k].joins)
    ensures |JoinsAsked(r, n, k)| == |JoinsAnswered(r, n, k)| + TotalSeen(r.states[n].conns[k].joins)
  {
    hide JoinAskedAt, JoinAnsweredAt, Pending, ExportsOk, Waiting, TotalSeen;
    RunOk(r, n);
    assert ConnOk(r.states[n].conns[k]);
    PendingCount(r.states[n].conns[k].joins);
    if n == 0 {
      NewJoins();
    } else {
      EveryJoin(r, n - 1, k);
      StepJoins(r, n - 1, k);
      forall q
        ensures JoinsAsked(r, n, k)[q] == (JoinsAnswered(r, n, k) + Pending(r.states[n].conns[k].joins))[q]
      {
        assert (JoinAskedAt(r, n - 1, k) + Pending(r.states[n - 1].conns[k].joins))[q]
            == (JoinAnsweredAt(r, n - 1, k) + Pending(r.states[n].conns[k].joins))[q];
      }
    }
  }

  lemma NewJoins()
    ensures Pending(NewConn().joins) == multiset{}
  {
    CollectNone(NewConn().joins, PartsIn());
  }

  // ---- where the parts of a set come from -------------------------------------------------

  /** Event t is the Join of part p of a set, received on connection k. */
  predicate AsksPart(r: Run, t: nat, k: nat, joinId: nat, partCount: nat, p: nat)
    requires IsRun(r)
  {
    && t < |r.events| && r.events[t].Receive? && r.events[t].at == k && r.events[t].m.Join?
    && r.events[t].m.key == Some(JoinKey(joinId, partCount, p))
  }

  /** What the target of the Join at event t named when it arrived, or -1. */
  function Named(r: Run, t: nat): (id: int)
    requires IsRun(r) && t < |r.events| && r.events[t].Receive? && r.events[t].m.Join?
    ensures -1 <= id < MAX_EXPORTS
  {
    At(r, t);
    Resolve(r.states[t].conns[r.events[t].at], r.events[t].m.target)
  }

  /** The record of part p in a set is that of the Join at event t. */
  predicate PartFrom(r: Run, t: nat, k: nat, j: JoinSet, p: nat)
    requires IsRun(r)
  {
    && p < |j.qids| && p < |j.eids|
    && AsksPart(r, t, k, j.joinId, j.partCount, p)
    && j.qids[p] == r.events[t].m.qid && j.eids[p] == Named(r, t)
  }

  predicate HasPart(j: JoinSet, p: nat)
  {
    j.used && p < j.partCount && p < |j.seen| && j.seen[p]
  }

  /** The part has been in the set in this slot in every state after event t, up to n. */
  predicate InSince(r: Run, t: nat, n: nat, k: nat, slot: nat, p: nat)
  {
    forall u :: t < u <= n && u < |r.states| ==>
      k < |r.states[u].conns| && slot < |r.states[u].conns[k].joins| && HasPart(r.states[u].conns[k].joins[slot], p)
  }

  /** What one message does to the record of a part. */
  lemma PartStep(c: Conn, ps: seq<Provision>, m: Message, slot: nat, p: nat)
    requires ConnOk(c) && slot < |c.joins| && HasPart(Handle(c, ps, m).conn.joins[slot], p)
    requires |Handle(c, ps, m).conn.joins| == |c.joins|
    ensures var j, j' := c.joins[slot], Handle(c, ps, m).conn.joins[slot];
            || (HasPart(j, p) && j'.joinId == j.joinId && j'.partCount == j.partCount && SetOk(j) && SetOk(j') &&
                j'.qids[p] == j.qids[p] && j'.eids[p] == j.eids[p])
            || (m.Join? && m.key == Some(JoinKey(j'.joinId, j'.partCount, p)) && SetOk(j')
                && j'.qids[p] == m.qid && j'.eids[p] == Resolve(c, m.target))
  {
    hide Resolve, ExportsOk, Verdicts, AllSame, ExportCap, Keep, JoinSlot, AddRef, Distinct, Waiting, Parts;
    assert SetOk(c.joins[slot]);
    if m.Join? {
      JoinPartStep(c, ps, m.qid, m.target, m.key, slot, p);
    } else {
      OthersNoJoin(c, ps, m);
    }
  }

  lemma JoinPartStep(c: Conn, ps: seq<Provision>, qid: nat, target: Target, key: Option<JoinKey>, slot: nat, p: nat)
    requires Sized(c) && JoinsOk(c.joins) && slot < |c.joins|
    requires |OnJoin(c, ps, qid, target, key).conn.joins| == |c.joins|
    requires HasPart(OnJoin(c, ps, qid, target, key).conn.joins[slot], p)
    ensures var j, j' := c.joins[slot], OnJoin(c, ps, qid, target, key).conn.joins[slot];
            || (HasPart(j, p) && j'.joinId == j.joinId && j'.partCount == j.partCount && SetOk(j) && SetOk(j') &&
                j'.qids[p] == j.qids[p] && j'.eids[p] == j.eids[p])
            || (key == Some(JoinKey(j'.joinId, j'.partCount, p)) && SetOk(j')
                && j'.qids[p] == qid && j'.eids[p] == Resolve(c, target))
  {
    hide Resolve, Verdicts, AllSame, Distinct, Waiting, Parts, AddRef, PartSlot;
    assert SetOk(c.joins[slot]);
    if key.Some? && PartSlot(c.joins, key.value) == slot {
      PartAccepted(c.joins, key.value);
      Added(c.joins, key.value, qid, Resolve(c, target));
    }
  }

  /** The part of a set in use came with a Join of that set, and stayed in it since. */
  lemma {:induction false} PartAsked(r: Run, n: nat, k: nat, slot: nat, p: nat) returns (t: nat)
    requires IsRun(r) && n <= |r.events| && k < |r.states[n].conns| && slot < |r.states[n].conns[k].joins|
    requires HasPart(r.states[n].conns[k].joins[slot], p)
    ensures t < n && PartFrom(r, t, k, r.states[n].conns[k].joins[slot], p) && InSince(r, t, n, k, slot, p)
  {
    hide IsRun, Handle, ExportCap, ExportsOk, JoinsOk, SetsOk, Resolve;
    if n == 0 {
      NoParts(r, k, slot, p);
    } else {
      At(r, n - 1);
      var w, e := r.states[n - 1], r.events[n - 1];
      SetIs(w.conns[k], slot);
      SetIs(r.states[n].conns[k], slot);
      if e.at == k && e.Receive? {
        PartStep(w.conns[k], w.provisions, e.m, slot, p);
      }
      if HasPart(w.conns[k].joins[slot], p) && SamePart(w.conns[k].joins[slot], r.states[n].conns[k].joins[slot], p) {
        t := PartAsked(r, n - 1, k, slot, p);
      } else {
        t := n - 1;
      }
    }
  }

  lemma SetIs(c: Conn, slot: nat)
    requires ConnOk(c)
    ensures |c.joins| == MAX_JOINS && (slot < |c.joins| ==> SetOk(c.joins[slot]))
  {
  }

  predicate SamePart(j: JoinSet, j': JoinSet, p: nat)
  {
    && p < |j.qids| && p < |j.eids| && p < |j'.qids| && p < |j'.eids|
    && j'.joinId == j.joinId && j'.partCount == j.partCount && j'.qids[p] == j.qids[p] && j'.eids[p] == j.eids[p]
  }

  lemma NoParts(r: Run, k: nat, slot: nat, p: nat)
    requires IsRun(r) && k < |r.states[0].conns| && slot < |r.states[0].conns[k].joins|
    ensures !HasPart(r.states[0].conns[k].joins[slot], p)
  {
  }

  // ---- the verdict -----------------------------------------------------------------------------

  /** Event n is a Join of connection k that its sets take. */
  predicate Taken(r: Run, n: nat, k: nat)
    requires IsRun(r)
  {
    && n < |r.events| && k < |r.states[n].conns| && SetsOk(r.states[n].conns[k].joins)
    && r.events[n].Receive? && r.events[n].at == k && r.events[n].m.Join? && r.events[n].m.key.Some?
    && PartSlot(r.states[n].conns[k].joins, r.events[n].m.key.value) >= 0
  }

  /** The events ts are Joins of the parts of one set, in order of their part numbers. */
  predicate AreParts(r: Run, ts: seq<nat>, k: nat, joinId: nat, partCount: nat)
    requires IsRun(r)
  {
    |ts| <= partCount && forall p :: 0 <= p < |ts| ==> AsksPart(r, ts[p], k, joinId, partCount, p)
  }

  /** The targets of the Joins named one and the same export when they arrived. */
  predicate Agree(r: Run, ts: seq<nat>, k: nat, joinId: nat, partCount: nat)
    requires IsRun(r) && AreParts(r, ts, k, joinId, partCount) && 0 < |ts|
  {
    Named(r, ts[0]) >= 0 && forall p :: 0 <= p < |ts| ==> Named(r, ts[p]) == Named(r, ts[0])
  }

  /** The set as the Join at event n leaves it, before it is answered. */
  function SetAt(r: Run, n: nat, k: nat): (j: JoinSet)
    requires IsRun(r) && Taken(r, n, k)
    ensures SetOk(j)
  {
    var c, m := r.states[n].conns[k], r.events[n].m;
    PartAccepted(c.joins, m.key.value);
    WithPart(c.joins[PartSlot(c.joins, m.key.value)], m.key.value, m.qid, Named(r, n))
  }

  /** The slot of that set. */
  function SlotAt(r: Run, n: nat, k: nat): (slot: nat)
    requires IsRun(r) && Taken(r, n, k)
  {
    PartSlot(r.states[n].conns[k].joins, r.events[n].m.key.value)
  }

  lemma SetAtIs(r: Run, n: nat, k: nat)
    requires IsRun(r) && Taken(r, n, k)
    ensures var c, m := r.states[n].conns[k], r.events[n].m;
            var j, slot := SetAt(r, n, k), PartSlot(c.joins, m.key.value);
            && KeyOk(m.key.value) && ConnOk(c)
            && r.effects[n] == OnJoin(c, r.states[n].provisions, m.qid, m.target, m.key).effects
            && k < |r.states[n + 1].conns|
            && r.states[n + 1].conns[k].exports == OnJoin(c, r.states[n].provisions, m.qid, m.target, m.key).conn.exports
            && j.joinId == m.key.value.joinId && j.partCount == m.key.value.partCount
            && j.qids[m.key.value.partNum] == m.qid && j.eids[m.key.value.partNum] == Named(r, n)
            && j.nseen == |Parts(j, j.partCount)|
            && (forall p :: 0 <= p < j.partCount && p != m.key.value.partNum && j.seen[p] ==>
                  HasPart(c.joins[slot], p) && SamePart(c.joins[slot], j, p))
  {
    hide IsRun, Handle, OnJoin, Resolve, Parts, Distinct, ExportsOk, JoinSlot, WorldOk;
    At(r, n);
    var c, m := r.states[n].conns[k], r.events[n].m;
    PartAccepted(c.joins, m.key.value);
    Added(c.joins, m.key.value, m.qid, Resolve(c, m.target));
    JoinIs(c, r.states[n].provisions, m);
  }

  /** The Joins that brought the first q parts of a complete set. */
  lemma {:induction false} PartsAsked(r: Run, n: nat, k: nat, q: nat) returns (ts: seq<nat>)
    requires IsRun(r) && Taken(r, n, k) && q <= SetAt(r, n, k).partCount
    requires forall p :: 0 <= p < SetAt(r, n, k).partCount ==> SetAt(r, n, k).seen[p]
    ensures |ts| == q && AreParts(r, ts, k, SetAt(r, n, k).joinId, SetAt(r, n, k).partCount)
    ensures forall p :: 0 <= p < q ==>
              ts[p] <= n && PartFrom(r, ts[p], k, SetAt(r, n, k), p) && InSince(r, ts[p], n, k, SlotAt(r, n, k), p)
    ensures r.events[n].m.key.value.partNum < q ==> ts[r.events[n].m.key.value.partNum] == n
  {
    hide IsRun, SetAt, Named, Parts, ConnOk, OnJoin, SetsOk, PartSlot;
    ts := [];
    if q > 0 {
      ts := PartsAsked(r, n, k, q - 1);
      var t := OnePart(r, n, k, q - 1);
      ts := ts + [t];
    }
  }

  lemma OnePart(r: Run, n: nat, k: nat, p: nat) returns (t: nat)
    requires IsRun(r) && Taken(r, n, k) && p < SetAt(r, n, k).partCount && SetAt(r, n, k).seen[p]
    ensures t <= n && PartFrom(r, t, k, SetAt(r, n, k), p) && InSince(r, t, n, k, SlotAt(r, n, k), p)
    ensures p == r.events[n].m.key.value.partNum ==> t == n
  {
    hide IsRun, SetAt, Named, Parts, ConnOk, OnJoin, SetsOk;
    SetAtIs(r, n, k);
    var c, m := r.states[n].conns[k], r.events[n].m;
    if p == m.key.value.partNum {
      t := n;
    } else {
      t := PartAsked(r, n, k, PartSlot(c.joins, m.key.value), p);
    }
  }

  /** A Join that completes its set answers every Join of the set, one by one, with one
      verdict: true exactly when all their targets named the same export as they arrived.
      Each of them has been in this very set since it arrived. A true verdict comes with
      that export in the first Return; it is live, and gains a reference. */
  lemma JoinVerdict(r: Run, n: nat, k: nat) returns (ts: seq<nat>)
    requires IsRun(r) && Taken(r, n, k) && r.effects[n] != []
    ensures var key := r.events[n].m.key.value;
            && |ts| == key.partCount == |r.effects[n]| && 0 < |ts|
            && AreParts(r, ts, k, key.joinId, key.partCount)
            && (forall p :: 0 <= p < |ts| ==> ts[p] <= n && InSince(r, ts[p], n, k, SlotAt(r, n, k), p))
            && ts[key.partNum] == n
    ensures var key := r.events[n].m.key.value;
            var same := Agree(r, ts, k, key.joinId, key.partCount);
            && (forall p :: 0 <= p < |ts| ==>
                  r.effects[n][p] == JoinResult(r.events[ts[p]].m.qid, key.joinId, same,
                                                if same && p == 0 then Some(Named(r, ts[0])) else None))
            && k < |r.states[n + 1].conns|
            && (same ==> LiveExport(r.states[n].conns[k], Named(r, ts[0])) &&
                         r.states[n + 1].conns[k].exports == AddRef(r.states[n].conns[k].exports, Named(r, ts[0])))
            && (!same ==> r.states[n + 1].conns[k].exports == r.states[n].conns[k].exports)
  {
    hide IsRun, Named, Parts, ConnOk, OnJoin, SetsOk, Verdicts, Resolve;
    SetAtIs(r, n, k);
    var c, ps, m := r.states[n].conns[k], r.states[n].provisions, r.events[n].m;
    var j := SetAt(r, n, k);
    SetFull(r, n, k);
    ts := PartsAsked(r, n, k, j.partCount);
    VerdictIs(r, n, k);
    forall p | 0 <= p < j.partCount
      ensures PartFrom(r, ts[p], k, j, p)
      ensures j.eids[p] == Named(r, ts[p]) && j.qids[p] == r.events[ts[p]].m.qid
    {
    }
    assert AllSame(j) == Agree(r, ts, k, j.joinId, j.partCount);
  }

  lemma SetFull(r: Run, n: nat, k: nat)
    requires IsRun(r) && Taken(r, n, k) && r.effects[n] != []
    ensures var j := SetAt(r, n, k); 0 < j.partCount && forall p :: 0 <= p < j.partCount ==> j.seen[p]
  {
    hide IsRun, Resolve, Parts, SetsOk, Verdicts, AllSame, WithPart, PartSlot, HasPart, SamePart;
    SetAtIs(r, n, k);
    AllSeenHere(SetAt(r, n, k));
  }

  lemma VerdictIs(r: Run, n: nat, k: nat)
    requires IsRun(r) && Taken(r, n, k) && r.effects[n] != []
    ensures var c, m := r.states[n].conns[k], r.events[n].m;
            var j := SetAt(r, n, k);
            && 0 < j.partCount && |r.effects[n]| == j.partCount && k < |r.states[n + 1].conns|
            && (forall p :: 0 <= p < j.partCount ==>
                  r.effects[n][p] == JoinResult(j.qids[p], j.joinId, AllSame(j),
                                                if AllSame(j) && p == 0 then Some(j.eids[0]) else None))
            && (AllSame(j) ==> LiveExport(c, j.eids[0]) && r.states[n + 1].conns[k].exports == AddRef(c.exports, j.eids[0]))
            && (!AllSame(j) ==> r.states[n + 1].conns[k].exports == c.exports)
  {
    hide IsRun, Resolve, Parts, SetsOk, Verdicts, AllSame, WithPart, PartSlot, HasPart, SamePart, OnJoin, JoinsOk, ExportsOk;
    SetAtIs(r, n, k);
    var c, m := r.states[n].conns[k], r.events[n].m;
    JoinIsLive(c, r.states[n].provisions, m.qid, m.target, m.key.value);
  }
}
