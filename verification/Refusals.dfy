/** Which messages are refused, and what a Release takes. */
module Refusals {
  import opened Options
  import opened Tables
  import opened Rpc
  import opened JoinLaws
  import opened ExportLaws

  /** The table has no slot free, and no export of this object. */
  predicate CannotExport(exports: seq<Export>, server: nat)
  {
    forall i :: 0 <= i < |exports| ==> exports[i].used && exports[i].server != server
  }

  /** What exporting does to the table: one more reference to the object's export, or a first
      one in a free slot, for exactly the object and dispatch offered. */
  lemma Exports(exports: seq<Export>, cap: Capability)
    requires ExportsOk(exports)
    ensures var e := ExportCap(exports, cap);
            if CannotExport(exports, cap.server) then e == Exported(exports, -1)
            else
              && 0 <= e.id < |exports|
              && (if exports[e.id].used then exports[e.id].server == cap.server && e.exports == AddRef(exports, e.id)
                  else e.exports == exports[e.id := Export(true, 1, cap.server, cap.dispatch)])
              && (!exports[e.id].used ==> forall i :: 0 <= i < |exports| && exports[i].used ==> exports[i].server != cap.server)
  {
    ExportKeeps(exports, cap);
  }

  /** A Bootstrap is refused exactly when there is no bootstrap object, or no room for it. */
  lemma BootstrapRefused(c: Conn, ps: seq<Provision>, qid: nat)
    requires ExportsOk(c.exports)
    ensures OnBootstrap(c, ps, qid).effects == [Exception(qid)] <==>
              c.bootstrap.None? || CannotExport(c.exports, c.bootstrap.value.server)
  {
    hide ExportCap, Keep, ExportsOk;
    if c.bootstrap.Some? {
      Exports(c.exports, c.bootstrap.value);
      if !CannotExport(c.exports, c.bootstrap.value.server) {
        assert OnBootstrap(c, ps, qid).effects[0] == Results(qid, CapPayload(ExportCap(c.exports, c.bootstrap.value).id));
      }
    }
  }

  /** A vat has a slot for another provision. */
  predicate SomeSlot(ps: seq<Provision>)
  {
    exists i :: 0 <= i < |ps| && !ps[i].used
  }

  lemma SlotFound(ps: seq<Provision>)
    ensures First(ps, FreeProvision()) < |ps| <==> SomeSlot(ps)
  {
    var i := First(ps, FreeProvision());
    if i < |ps| {
      assert !ps[i].used;
    } else {
      assert forall j :: 0 <= j < |ps| ==> !FreeProvision()(ps[j]);
    }
  }

  /** The provisions besides the one at i. */
  predicate OthersSame(ps: seq<Provision>, after: seq<Provision>, i: nat)
  {
    |after| == |ps| && i < |ps| && forall j :: 0 <= j < |ps| && j != i ==> after[j] == ps[j]
  }

  /** A Provide is accepted exactly when its target resolves, it names a recipient, and the
      vat has a slot; then a free slot holds what the target names, under that nonce. */
  lemma ProvideAccepted(c: Conn, ps: seq<Provision>, qid: nat, target: Target, recipient: Option<nat>)
    ensures var o, id := OnProvide(c, ps, qid, target, recipient), Resolve(c, target);
            if id >= 0 && recipient.Some? && SomeSlot(ps) then
              && o.effects == [Results(qid, EMPTY)]
              && exists i: nat ::
                   && OthersSame(ps, o.provisions, i) && !ps[i].used && o.provisions[i].used && !o.provisions[i].embargoed
                   && o.provisions[i].nonce == recipient.value && o.provisions[i].qid == qid
                   && o.provisions[i].server == c.exports[id].server && o.provisions[i].dispatch == c.exports[id].dispatch
            else o == Outcome(c, ps, [Exception(qid)])
  {
    hide Keep, Resolve, AddRef;
    SlotFound(ps);
    var o, i := OnProvide(c, ps, qid, target, recipient), First(ps, FreeProvision());
    if Resolve(c, target) >= 0 && recipient.Some? && SomeSlot(ps) {
      assert OthersSame(ps, o.provisions, i);
    }
  }

  /** A capability waits, unclaimed, under the nonce. */
  predicate Waits(p: Provision, nonce: nat)
  {
    p.used && !p.embargoed && p.nonce == nonce
  }

  predicate FirstWaits(ps: seq<Provision>, i: nat, nonce: nat)
  {
    i < |ps| && Waits(ps[i], nonce) && forall j :: 0 <= j < i ==> !Waits(ps[j], nonce)
  }

  /** An Accept is refused exactly when it names no provision, none waits under its nonce, or
      there is no room to export it; otherwise it claims the first that waits: with an
      embargo it is held, without one the slot is free again. */
  lemma AcceptClaims(c: Conn, ps: seq<Provision>, qid: nat, nonce: nat, embargo: bool, i: nat)
    requires ExportsOk(c.exports) && FirstWaits(ps, i, nonce)
    ensures var o := OnAccept(c, ps, qid, Some(nonce), embargo);
            if CannotExport(c.exports, ps[i].server) then o == Outcome(c, ps, [Exception(qid)])
            else
              && OthersSame(ps, o.provisions, i)
              && (if embargo then
                    o.effects == [] && o.provisions[i].used && o.provisions[i].embargoed && o.provisions[i].acceptQid == qid
                  else o.effects != [Exception(qid)] && o.effects != [] && !o.provisions[i].used)
  {
    hide ExportCap, Keep, ExportsOk;
    FirstAt(ps, Claimable(nonce), i);
    Exports(c.exports, Capability(ps[i].server, ps[i].dispatch));
    var o := OnAccept(c, ps, qid, Some(nonce), embargo);
    if !embargo && !CannotExport(c.exports, ps[i].server) {
      assert o.effects[0].Results?;
    }
  }

  lemma AcceptRefused(c: Conn, ps: seq<Provision>, qid: nat, provision: Option<nat>, embargo: bool)
    requires provision.None? || forall j :: 0 <= j < |ps| ==> !Waits(ps[j], provision.value)
    ensures OnAccept(c, ps, qid, provision, embargo) == Outcome(c, ps, [Exception(qid)])
  {
    if provision.Some? {
      assert forall j :: 0 <= j < |ps| ==> !Claimable(provision.value)(ps[j]);
      assert First(ps, Claimable(provision.value)) == |ps|;
    }
  }

  /** An Accept is held for the question of its Provide. */
  predicate Held(p: Provision, provideQid: nat)
  {
    p.used && p.embargoed && p.qid == provideQid
  }

  /** A Disembargo that names a Provide answers the first Accept held for it, with the export
      made then, and frees its slot; if none is held, it does nothing. */
  lemma DisembargoAnswers(c: Conn, ps: seq<Provision>, provideQid: nat, i: nat)
    requires i < |ps| && Held(ps[i], provideQid) && forall j :: 0 <= j < i ==> !Held(ps[j], provideQid)
    ensures var o := OnDisembargo(c, ps, provideQid);
            && o.effects == [Results(ps[i].acceptQid, CapPayload(ps[i].exportId))]
            && OthersSame(ps, o.provisions, i) && !o.provisions[i].used && o.conn.exports == c.exports
  {
    hide Keep;
    FirstAt(ps, HeldFor(provideQid), i);
  }

  lemma DisembargoNothing(c: Conn, ps: seq<Provision>, provideQid: nat)
    requires forall j :: 0 <= j < |ps| ==> !Held(ps[j], provideQid)
    ensures OnDisembargo(c, ps, provideQid) == Outcome(c, ps, [])
  {
    assert forall j :: 0 <= j < |ps| ==> !HeldFor(provideQid)(ps[j]);
    assert First(ps, HeldFor(provideQid)) == |ps|;
  }

  // ---- Join --------------------------------------------------------------------------------------

  /** A set with this id waits for this part, of as many. */
  predicate WaitsFor(j: JoinSet, k: JoinKey)
  {
    j.used && j.joinId == k.joinId && j.partCount == k.partCount && k.partNum < |j.seen| && !j.seen[k.partNum]
  }

  predicate SomeWaits(joins: seq<JoinSet>, k: JoinKey)
  {
    exists i :: 0 <= i < |joins| && WaitsFor(joins[i], k)
  }

  /** No set has this id, and there is room for one. */
  predicate MayBegin(joins: seq<JoinSet>, k: JoinKey)
  {
    && (forall i :: 0 <= i < |joins| && joins[i].used ==> joins[i].joinId != k.joinId)
    && (exists i :: 0 <= i < |joins| && !joins[i].used)
  }

  /** A part is taken exactly when its key makes sense and a set waits for it, or may begin
      with it. */
  lemma PartTaken(joins: seq<JoinSet>, k: JoinKey)
    requires JoinsOk(joins)
    ensures PartSlot(joins, k) >= 0 <==> KeyOk(k) && (SomeWaits(joins, k) || MayBegin(joins, k))
  {
    var i, j := First(joins, HasJoinId(k.joinId)), First(joins, FreeJoin());
    if i < |joins| {
      assert SetOk(joins[i]) && joins[i].used && joins[i].joinId == k.joinId;
      OnlyOne(joins, k, i);
    } else {
      assert forall n :: 0 <= n < |joins| ==> !HasJoinId(k.joinId)(joins[n]);
      if j < |joins| {
        assert !joins[j].used;
      } else {
        assert forall n :: 0 <= n < |joins| ==> !FreeJoin()(joins[n]);
      }
    }
  }

  lemma OnlyOne(joins: seq<JoinSet>, k: JoinKey, i: nat)
    requires JoinsOk(joins) && i < |joins| && joins[i].used && joins[i].joinId == k.joinId
    ensures SomeWaits(joins, k) <==> WaitsFor(joins[i], k)
    ensures !MayBegin(joins, k)
  {
    hide SetOk, Waiting;
    if SomeWaits(joins, k) {
      var n :| 0 <= n < |joins| && WaitsFor(joins[n], k);
      assert n == i;
    }
  }

  /** A part that is not taken is refused by itself: a JoinResult that failed, and nothing
      else; one that is taken is answered exactly when it is the last its set waited for. */
  lemma PartAnswered(c: Conn, ps: seq<Provision>, qid: nat, target: Target, k: JoinKey)
    requires Sized(c) && JoinsOk(c.joins)
    ensures var o := OnJoin(c, ps, qid, target, Some(k));
            if PartSlot(c.joins, k) < 0 then o == Outcome(c, ps, [JoinResult(qid, k.joinId, false, None)])
            else
              var j := WithPart(c.joins[PartSlot(c.joins, k)], k, qid, Resolve(c, target));
              0 < j.partCount <= |j.seen| && (o.effects != [] <==> forall p :: 0 <= p < j.partCount ==> j.seen[p])
  {
    hide Resolve, PartSlot, WithPart, AllSame, JoinsOk, Parts, PartsIn;
    if PartSlot(c.joins, k) >= 0 {
      PartAccepted(c.joins, k);
      Added(c.joins, k, qid, Resolve(c, target));
      var j := WithPart(c.joins[PartSlot(c.joins, k)], k, qid, Resolve(c, target));
      AllSeen(j, j.partCount);
    }
  }

  /** A Join without a key, which could belong to any set, is refused. */
  lemma JoinWithoutKey(c: Conn, ps: seq<Provision>, qid: nat, target: Target)
    requires Sized(c)
    ensures OnJoin(c, ps, qid, target, None) == Outcome(c, ps, [JoinResult(qid, 0, false, None)])
  {
  }

  // ---- Release -------------------------------------------------------------------------------------

  /** A Release of n below 2^31 takes n references: the export is free again exactly if that
      is all of them, or more. */
  lemma ReleaseTakesCount(c: Conn, ps: seq<Provision>, id: nat, n: nat)
    requires LiveExport(c, id) && n < 0x8000_0000
    ensures var o := OnRelease(c, ps, id, n);
            && (LiveExport(o.conn, id) <==> n < c.exports[id].refcount)
            && (LiveExport(o.conn, id) ==> o.conn.exports[id] == c.exports[id].(refcount := c.exports[id].refcount - n))
            && (forall i :: 0 <= i < |c.exports| && i != id ==> o.conn.exports[i] == c.exports[i])
            && o.effects == [] && o.provisions == ps && |o.conn.exports| == |c.exports|
  {
  }

  /** From 2^31 on a count is taken as negative, and adds references. */
  lemma ReleaseAdds(c: Conn, ps: seq<Provision>, id: nat, n: nat)
    requires LiveExport(c, id) && 0x8000_0000 <= n < 0x1_0000_0000 && c.exports[id].refcount >= 0
    ensures var o := OnRelease(c, ps, id, n);
            LiveExport(o.conn, id) && o.conn.exports[id].refcount == c.exports[id].refcount + (0x1_0000_0000 - n)
  {
  }

  lemma ReleaseNothing(c: Conn, ps: seq<Provision>, id: nat, n: nat)
    requires !LiveExport(c, id)
    ensures OnRelease(c, ps, id, n) == Outcome(c, ps, [])
  {
  }
}
