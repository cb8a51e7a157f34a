/** What every message keeps true of the export and answer tables of a connection. */
module ExportLaws {
  import opened Options
  import opened Tables
  import opened Rpc
  import opened JoinLaws

  /** Exports in use have a reference, and distinct servers. */
  predicate ExportsOk(exports: seq<Export>)
  {
    && (forall i :: 0 <= i < |exports| && exports[i].used ==> exports[i].refcount >= 1)
    && forall i, k :: 0 <= i < k < |exports| && exports[i].used && exports[k].used ==> exports[i].server != exports[k].server
  }

  /** Exports in use stay in use, for the same object. */
  predicate Kept(before: seq<Export>, after: seq<Export>)
  {
    && |after| == |before|
    && forall i :: 0 <= i < |before| && before[i].used ==>
         after[i].used && after[i].server == before[i].server && after[i].dispatch == before[i].dispatch
  }

  /** Exporting gives the object's one id, unless the object is new and the table full. */
  lemma ExportKeeps(exports: seq<Export>, cap: Capability)
    requires ExportsOk(exports)
    ensures var e := ExportCap(exports, cap);
            && ExportsOk(e.exports) && Kept(exports, e.exports)
            && -1 <= e.id < |exports|
            && (e.id >= 0 ==> e.exports[e.id].used && e.exports[e.id].server == cap.server)
            && (e.id < 0 <==> forall i :: 0 <= i < |exports| ==> exports[i].used && exports[i].server != cap.server)
  {
  }

  /** Exporting the same object again gives the same id and one more reference. */
  lemma ExportTwice(exports: seq<Export>, cap: Capability, again: Capability)
    requires ExportsOk(exports) && again.server == cap.server && ExportCap(exports, cap).id >= 0
    ensures var e := ExportCap(exports, cap);
            ExportCap(e.exports, again) == Exported(AddRef(e.exports, e.id), e.id)
  {
    ExportKeeps(exports, cap);
    var e := ExportCap(exports, cap);
    var i := First(e.exports, HasServer(again.server));
    assert HasServer(again.server)(e.exports[e.id]);
    assert i == e.id;
  }

  lemma AddRefKeeps(exports: seq<Export>, id: nat)
    requires ExportsOk(exports) && id < |exports|
    ensures ExportsOk(AddRef(exports, id)) && Kept(exports, AddRef(exports, id))
  {
  }

  lemma ReleaseKeeps(c: Conn, ps: seq<Provision>, id: nat, count: nat)
    requires ExportsOk(c.exports)
    ensures ExportsOk(OnRelease(c, ps, id, count).conn.exports)
  {
  }

  /** The part that completes an agreeing set has just resolved to the set's export. */
  lemma AgreedIsLive(c: Conn, k: JoinKey, qid: nat, target: Target)
    requires Sized(c) && JoinsOk(c.joins) && KeyOk(k) && PartSlot(c.joins, k) >= 0
    ensures var j := WithPart(c.joins[PartSlot(c.joins, k)], k, qid, Resolve(c, target));
            && 0 < j.partCount <= |j.eids|
            && (AllSame(j) ==> j.eids[0] == Resolve(c, target) && LiveExport(c, j.eids[0]))
  {
    hide Resolve, JoinsOk, Parts;
    Added(c.joins, k, qid, Resolve(c, target));
    assert WithPart(c.joins[PartSlot(c.joins, k)], k, qid, Resolve(c, target)).eids[k.partNum] == Resolve(c, target);
  }

  /** Every message keeps exports in use referenced and their servers distinct. */
  lemma ExportsStay(c: Conn, ps: seq<Provision>, m: Message)
    requires Sized(c) && JoinsOk(c.joins) && ExportsOk(c.exports)
    ensures ExportsOk(Handle(c, ps, m).conn.exports)
    ensures !m.Release? ==> Kept(c.exports, Handle(c, ps, m).conn.exports)
  {
    hide ExportsOk, Kept, ExportCap, Resolve, AddRef, Keep, PartSlot, WithPart, AllSame, Verdicts, JoinsOk, SetOk;
    KeptSelf(c.exports);
    match m
    case Bootstrap(_) =>
      if c.bootstrap.Some? {
        ExportKeeps(c.exports, c.bootstrap.value);
      }
    case Accept(_, provision, _) =>
      if provision.Some? {
        var i := First(ps, Claimable(provision.value));
        if i < |ps| {
          ExportKeeps(c.exports, Capability(ps[i].server, ps[i].dispatch));
        }
      }
    case Release(id, count) =>
      ReleaseKeeps(c, ps, id, count);
    case Provide(_, target, _) =>
      if Resolve(c, target) >= 0 {
        AddRefKeeps(c.exports, Resolve(c, target));
      }
    case Join(qid, target, key) =>
      if key.Some? && PartSlot(c.joins, key.value) >= 0 {
        PartAccepted(c.joins, key.value);
        AgreedIsLive(c, key.value, qid, target);
        var j := WithPart(c.joins[PartSlot(c.joins, key.value)], key.value, qid, Resolve(c, target));
        if AllSame(j) {
          AddRefKeeps(c.exports, j.eids[0]);
        }
      }
    case _ =>
  }

  lemma KeptSelf(exports: seq<Export>)
    ensures Kept(exports, exports)
  {
  }

  /** The object of an export changes only by its release. */
  lemma ServerStays(c: Conn, ps: seq<Provision>, m: Message, id: nat)
    requires Sized(c) && JoinsOk(c.joins) && ExportsOk(c.exports)
    requires LiveExport(c, id) && LiveExport(Handle(c, ps, m).conn, id)
    ensures var after := Handle(c, ps, m).conn.exports[id];
            after.server == c.exports[id].server && after.dispatch == c.exports[id].dispatch
  {
    hide OnBootstrap, OnCall, OnFinish, OnJoin, OnProvide, OnAccept, OnDisembargo, JoinsOk, ExportsOk;
    ExportsStay(c, ps, m);
  }

  // ---- capabilities named by Returns ---------------------------------------------------------

  /** The effects are a Return of one live capability for `server`, or an exception. */
  ghost predicate ReturnsLive(o: Outcome, qid: nat, server: nat)
  {
    || o.effects == [Exception(qid)]
    || exists id: nat ::
         o.effects == [Results(qid, CapPayload(id))] && LiveExport(o.conn, id) && o.conn.exports[id].server == server
  }

  /** A Bootstrap Return names a live export of the bootstrap object. */
  lemma BootstrapIsLive(c: Conn, ps: seq<Provision>, qid: nat)
    requires ExportsOk(c.exports)
    ensures var o := OnBootstrap(c, ps, qid);
            if c.bootstrap.None? then o.effects == [Exception(qid)] else ReturnsLive(o, qid, c.bootstrap.value.server)
  {
    hide ExportCap, Keep;
    if c.bootstrap.Some? {
      ExportKeeps(c.exports, c.bootstrap.value);
      var e := ExportCap(c.exports, c.bootstrap.value);
      if e.id >= 0 {
        assert OnBootstrap(c, ps, qid).effects == [Results(qid, CapPayload(e.id))];
      }
    }
  }

  /** An Accept without embargo is answered with a live export, on the accepting
      connection, of the object that was provided under its nonce; or refused. */
  lemma AcceptIsLive(c: Conn, ps: seq<Provision>, qid: nat, nonce: nat)
    requires ExportsOk(c.exports)
    ensures var o, i := OnAccept(c, ps, qid, Some(nonce), false), First(ps, Claimable(nonce));
            && (if i == |ps| then o.effects == [Exception(qid)] else ReturnsLive(o, qid, ps[i].server))
            && (o.effects == [Exception(qid)] ==> o.provisions == ps && o.conn == c)
  {
    hide ExportCap, Keep;
    var i := First(ps, Claimable(nonce));
    if i < |ps| {
      var cap := Capability(ps[i].server, ps[i].dispatch);
      ExportKeeps(c.exports, cap);
      var e := ExportCap(c.exports, cap);
      if e.id >= 0 {
        assert OnAccept(c, ps, qid, Some(nonce), false).effects[0] == Results(qid, CapPayload(e.id));
      }
    }
  }

  /** Of a completed set's Returns exactly one names a capability if the parts agree and
      none if they do not; it is live, and gains one reference. */
  lemma JoinIsLive(c: Conn, ps: seq<Provision>, qid: nat, target: Target, k: JoinKey)
    requires Sized(c) && JoinsOk(c.joins) && KeyOk(k) && PartSlot(c.joins, k) >= 0
    requires OnJoin(c, ps, qid, target, Some(k)).effects != []
    ensures var o, j := OnJoin(c, ps, qid, target, Some(k)), WithPart(c.joins[PartSlot(c.joins, k)], k, qid, Resolve(c, target));
            && |o.effects| == k.partCount
            && (forall i :: 0 <= i < k.partCount ==>
                  o.effects[i] == JoinResult(j.qids[i], k.joinId, AllSame(j),
                                             if AllSame(j) && i == 0 then Some(j.eids[0]) else None))
            && (AllSame(j) ==> LiveExport(c, j.eids[0]) && o.conn.exports == AddRef(c.exports, j.eids[0]))
            && (!AllSame(j) ==> o.conn.exports == c.exports)
  {
    hide Resolve, JoinsOk, WithPart, PartSlot, AllSame, SetOk;
    PartAccepted(c.joins, k);
    Added(c.joins, k, qid, Resolve(c, target));
    AgreedIsLive(c, k, qid, target);
    var j := WithPart(c.joins[PartSlot(c.joins, k)], k, qid, Resolve(c, target));
    VerdictAt(j, j.partCount);
  }

  lemma {:induction false} VerdictAt(j: JoinSet, n: nat)
    requires SetOk(j) && 0 < j.partCount && n <= j.partCount
    ensures forall i :: 0 <= i < n ==>
              Verdicts(j, n)[i] == JoinResult(j.qids[i], j.joinId, AllSame(j),
                                                 if AllSame(j) && i == 0 then Some(j.eids[0]) else None)
  {
    hide AllSame;
    if n > 0 {
      VerdictAt(j, n - 1);
    }
  }

  // ---- answers kept for pipelining --------------------------------------------------------------

  /** The Return kept for a question, if any. */
  function KeptAnswer(c: Conn, qid: nat): Option<Payload>
  {
    var i := First(c.answers, AnswerTo(qid));
    if i < |c.answers| then Some(c.answers[i].payload) else None
  }

  predicate HasRoom(c: Conn)
  {
    exists i :: 0 <= i < |c.answers| && !c.answers[i].used
  }

  /** The effects return results to the question. */
  predicate Returns(fx: seq<Effect>, qid: nat)
  {
    exists i :: 0 <= i < |fx| && fx[i].Results? && fx[i].qid == qid
  }

  /** The last effect is a Return of this payload to the question, short enough to keep. */
  predicate Answers(m: Message, fx: seq<Effect>, qid: nat, payload: Payload)
  {
    && fx != [] && fx[|fx| - 1] == Results(qid, payload)
    && (m.Call? && m.reply.Some? ==> m.reply.value.small)
  }

  lemma KeptInRoom(answers: seq<Answer>, qid: nat, payload: Payload)
    requires First(answers, AnswerTo(qid)) == |answers| && exists i :: 0 <= i < |answers| && !answers[i].used
    ensures var after := Keep(answers, qid, payload, true);
            var i := First(after, AnswerTo(qid));
            i < |after| && after[i].payload == payload
  {
    var i := First(answers, FreeAnswer());
    assert FreeAnswer()(answers[i]) by {
      var r :| 0 <= r < |answers| && !answers[r].used;
      assert FreeAnswer()(answers[r]);
    }
    assert forall r :: 0 <= r < |answers| ==> !AnswerTo(qid)(answers[r]);
    var after := Keep(answers, qid, payload, true);
    assert AnswerTo(qid)(after[i]);
    assert First(after, AnswerTo(qid)) == i;
  }

  /** A short Return is kept if there is room and none is kept for its question yet. */
  lemma ReturnKept(c: Conn, ps: seq<Provision>, m: Message, qid: nat, payload: Payload)
    requires Sized(c) && Answers(m, Handle(c, ps, m).effects, qid, payload)
    requires KeptAnswer(c, qid).None? && HasRoom(c)
    ensures KeptAnswer(Handle(c, ps, m).conn, qid) == Some(payload)
  {
    hide ExportCap, Resolve, AddRef, Keep, PartSlot, WithPart, AllSame, SetOk, SetsOk;
    KeptInRoom(c.answers, qid, payload);
    if m.Join? {
      JoinNoResults(c, ps, m);
    }
  }

  /** A Join is answered with JoinResults only. */
  lemma JoinNoResults(c: Conn, ps: seq<Provision>, m: Message)
    requires Sized(c) && m.Join?
    ensures forall i :: 0 <= i < |Handle(c, ps, m).effects| ==> Handle(c, ps, m).effects[i].JoinResult?
    ensures Handle(c, ps, m).conn.answers == c.answers
  {
    hide Resolve, AddRef, PartSlot, WithPart, AllSame, SetOk;
    if m.key.Some? && PartSlot(c.joins, m.key.value) >= 0 {
      PartAccepted(c.joins, m.key.value);
      var j := WithPart(c.joins[PartSlot(c.joins, m.key.value)], m.key.value, m.qid, Resolve(c, m.target));
      if j.nseen == j.partCount && j.partCount > 0 {
        SetOfPart(c.joins, m.key.value, m.qid, Resolve(c, m.target));
        VerdictAt(j, j.partCount);
      }
    }
  }

  lemma SetOfPart(joins: seq<JoinSet>, k: JoinKey, qid: nat, id: int)
    requires SetsOk(joins) && PartSlot(joins, k) >= 0 && KeyOk(k) && -1 <= id < MAX_EXPORTS
    ensures SetOk(WithPart(joins[PartSlot(joins, k)], k, qid, id))
  {
  }

  /** With no Return kept for a question, none is kept after a message that answers it with
      nothing short enough, or when there is no room. */
  lemma NoneKept(c: Conn, ps: seq<Provision>, m: Message, qid: nat)
    requires Sized(c) && KeptAnswer(c, qid).None?
    requires !(HasRoom(c) && exists payload :: Answers(m, Handle(c, ps, m).effects, qid, payload))
    ensures KeptAnswer(Handle(c, ps, m).conn, qid).None?
  {
    hide ExportCap, Resolve, AddRef, Keep, PartSlot, WithPart, AllSame, SetOk, SetsOk;
    var o := Handle(c, ps, m);
    if m == Finish(qid) {
      assert o.conn == c;
    } else if !Returns(o.effects, qid) {
      AnswerStays(c, ps, m, qid);
    } else {
      if m.Join? {
        JoinNoResults(c, ps, m);
      } else {
        var e := o.effects[|o.effects| - 1];
        if !HasRoom(c) {
          NoRoomKeeps(c, qid, e.payload, true);
          if m.Call? {
            NoRoomKeeps(c, qid, e.payload, m.reply.value.small);
          }
        } else if m.Call? && !m.reply.value.small {
          assert Keep(c.answers, qid, e.payload, false) == c.answers by { LongNotKept(c.answers, qid, e.payload); }
        } else {
          ReturnAnswers(c, ps, m, qid);
        }
      }
    }
  }

  /** A short Return to a question. */
  lemma ReturnAnswers(c: Conn, ps: seq<Provision>, m: Message, qid: nat)
    requires Sized(c) && !m.Join? && Returns(Handle(c, ps, m).effects, qid)
    requires m.Call? && m.reply.Some? ==> m.reply.value.small
    ensures exists payload :: Answers(m, Handle(c, ps, m).effects, qid, payload)
  {
    hide ExportCap, Resolve, AddRef, Keep, PartSlot, SetsOk;
    var fx := Handle(c, ps, m).effects;
    assert Answers(m, fx, qid, fx[|fx| - 1].payload);
  }

  lemma LongNotKept(answers: seq<Answer>, qid: nat, payload: Payload)
    ensures Keep(answers, qid, payload, false) == answers
  {
  }

  lemma NoRoomKeeps(c: Conn, qid: nat, payload: Payload, small: bool)
    requires !HasRoom(c)
    ensures Keep(c.answers, qid, payload, small) == c.answers
  {
    assert forall i :: 0 <= i < |c.answers| ==> !FreeAnswer()(c.answers[i]);
    assert First(c.answers, FreeAnswer()) == |c.answers|;
  }

  /** Keeping another question's Return does not disturb it. */
  lemma OtherKept(answers: seq<Answer>, qid: nat, other: nat, payload: Payload, small: bool)
    requires other != qid
    ensures var after := Keep(answers, other, payload, small);
            && |after| == |answers| && First(after, AnswerTo(qid)) == First(answers, AnswerTo(qid))
            && (First(answers, AnswerTo(qid)) < |answers| ==>
                 after[First(answers, AnswerTo(qid))] == answers[First(answers, AnswerTo(qid))])
  {
    var after := Keep(answers, other, payload, small);
    SameFirst(answers, after, AnswerTo(qid));
  }

  lemma SameFirst<T>(s: seq<T>, t: seq<T>, p: T -> bool)
    requires |s| == |t| && forall i :: 0 <= i < |s| ==> (s[i] == t[i] || (!p(s[i]) && !p(t[i])))
    ensures First(s, p) == First(t, p)
  {
  }

  lemma OtherFinished(c: Conn, ps: seq<Provision>, qid: nat, other: nat)
    requires other != qid
    ensures KeptAnswer(OnFinish(c, ps, other).conn, qid) == KeptAnswer(c, qid)
  {
    var after := OnFinish(c, ps, other).conn.answers;
    SameFirst(c.answers, after, AnswerTo(qid));
  }

  lemma ReturnedOne(fx: seq<Effect>, qid: nat, i: nat)
    requires i < |fx| && fx[i].Results? && fx[i].qid == qid
    ensures Returns(fx, qid)
  {
  }

  /** The Return kept for a question stays until its Finish, or another Return to it. */
  lemma AnswerStays(c: Conn, ps: seq<Provision>, m: Message, qid: nat)
    requires Sized(c) && m != Finish(qid) && !Returns(Handle(c, ps, m).effects, qid)
    ensures KeptAnswer(Handle(c, ps, m).conn, qid) == KeptAnswer(c, qid)
  {
    hide ExportCap, Resolve, AddRef, Keep, PartSlot, WithPart, AllSame, Verdicts, SetOk, Returns, SetsOk;
    var o := Handle(c, ps, m);
    if m.Finish? {
      OtherFinished(c, ps, qid, m.qid);
    } else if |o.effects| == 1 && o.effects[0].Results? {
      var e := o.effects[0];
      if e.qid == qid {
        ReturnedOne(o.effects, qid, 0);
      } else {
        OtherKept(c.answers, qid, e.qid, e.payload, true);
      }
    } else if m.Call? && |o.effects| == 2 {
      var e := o.effects[1];
      if e.qid == qid {
        ReturnedOne(o.effects, qid, 1);
      } else {
        OtherKept(c.answers, qid, e.qid, e.payload, m.reply.value.small);
      }
    }
  }

  // ---- Finish --------------------------------------------------------------------------------------

  /** How many Returns are kept for a question. */
  function CountFor(answers: seq<Answer>, qid: nat): nat
  {
    if answers == [] then 0
    else CountFor(answers[..|answers| - 1], qid) + if AnswerTo(qid)(answers[|answers| - 1]) then 1 else 0
  }

  lemma {:induction false} CountNone(answers: seq<Answer>, qid: nat)
    ensures CountFor(answers, qid) == 0 <==> forall i :: 0 <= i < |answers| ==> !AnswerTo(qid)(answers[i])
  {
    if answers != [] {
      CountNone(answers[..|answers| - 1], qid);
    }
  }

  lemma {:induction false} CountUpdated(answers: seq<Answer>, i: nat, a: Answer, qid: nat)
    requires i < |answers|
    ensures CountFor(answers[i := a], qid) + (if AnswerTo(qid)(answers[i]) then 1 else 0)
         == CountFor(answers, qid) + (if AnswerTo(qid)(a) then 1 else 0)
  {
    var n := |answers| - 1;
    if i == n {
      assert answers[i := a][..n] == answers[..n];
    } else {
      CountUpdated(answers[..n], i, a, qid);
      assert answers[i := a][..n] == answers[..n][i := a];
    }
  }

  /** A Return is kept for a question if some are. */
  lemma KeptIfCounted(c: Conn, qid: nat)
    ensures KeptAnswer(c, qid).Some? <==> CountFor(c.answers, qid) > 0
  {
    CountNone(c.answers, qid);
    var i := First(c.answers, AnswerTo(qid));
  }

  /** A Finish drops one Return kept for its question, if there is one, and makes room for
      another; it leaves those of other questions alone, and everything else. */
  lemma FinishDrops(c: Conn, ps: seq<Provision>, qid: nat, other: nat)
    ensures var o := OnFinish(c, ps, qid);
            && o == Outcome(c.(answers := o.conn.answers), ps, []) && |o.conn.answers| == |c.answers|
            && CountFor(o.conn.answers, qid) == (if CountFor(c.answers, qid) > 0 then CountFor(c.answers, qid) - 1 else 0)
            && (CountFor(c.answers, qid) > 0 ==> HasRoom(o.conn))
            && (other != qid ==>
                 && CountFor(o.conn.answers, other) == CountFor(c.answers, other)
                 && KeptAnswer(o.conn, other) == KeptAnswer(c, other))
  {
    hide CountFor;
    var o := OnFinish(c, ps, qid);
    var i := First(c.answers, AnswerTo(qid));
    KeptIfCounted(c, qid);
    if i < |c.answers| {
      var a := c.answers[i].(used := false);
      CountUpdated(c.answers, i, a, qid);
      CountUpdated(c.answers, i, a, other);
      assert !o.conn.answers[i].used;
    }
    if other != qid {
      OtherFinished(c, ps, other, qid);
    }
  }
}
