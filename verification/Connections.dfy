/** An RPC connection and its vat, updated in place by each message. */
module Connections {
  import opened Options
  import opened Tables
  import opened Rpc

  /** The first entry of a table that satisfies p, or its length. */
  method Scan<T>(a: array<T>, p: T -> bool) returns (i: nat)
    ensures i == First(a[..], p)
  {
    i := 0;
    while i < a.Length && !p(a[i])
      invariant i <= a.Length && forall j :: 0 <= j < i ==> !p(a[j])
    {
      i := i + 1;
    }
  }

  /** capnp_rpc_vat_t */
  class Vat {
    const provisions: array<Provision>

    constructor ()
      ensures fresh(provisions) && provisions[..] == NewProvisions()
    {
      provisions := new Provision[MAX_PROVISIONS](_ => NO_PROVISION);
    }
  }

  /** capnp_rpc_conn_t */
  class Connection {
    const exports: array<Export>
    const answers: array<Answer>
    const joins: array<JoinSet>
    const vat: Vat
    var bootstrap: Option<Capability>
    var outbox: seq<Effect>

    ghost predicate Valid()
      reads this, exports, answers, joins
    {
      Sized(State())
    }

    ghost function State(): Conn
      reads this, exports, answers, joins
    {
      Conn(exports[..], answers[..], joins[..], bootstrap)
    }

    /** Handling a message had the outcome o. */
    ghost predicate Did(o: Outcome, before: seq<Effect>)
      reads this, exports, answers, joins, vat.provisions
    {
      Valid() && State() == o.conn && vat.provisions[..] == o.provisions && outbox == before + o.effects
    }

    /** capnp_rpc_init and capnp_rpc_set_vat */
    constructor (vat: Vat)
      ensures Valid() && this.vat == vat && State() == NewConn() && outbox == []
      ensures fresh(exports) && fresh(answers) && fresh(joins)
    {
      this.vat := vat;
      exports := new Export[MAX_EXPORTS](_ => NO_EXPORT);
      answers := new Answer[MAX_ANSWERS](_ => NO_ANSWER);
      joins := new JoinSet[MAX_JOINS](_ => EmptySet(false, 0, 0));
      bootstrap := None;
      outbox := [];
    }

    /** capnp_rpc_set_bootstrap */
    method SetBootstrap(cap: Option<Capability>)
      requires Valid()
      modifies this`bootstrap
      ensures Valid() && State() == old(State()).(bootstrap := cap)
    {
      bootstrap := cap;
    }

    /** capnp_rpc_export */
    method ExportCapability(cap: Capability) returns (id: int)
      requires Valid()
      modifies exports
      ensures var e := ExportCap(old(exports[..]), cap);
              id == e.id && exports[..] == e.exports
      ensures Valid() && -1 <= id < exports.Length
    {
      hide SetsOk;
      var i := Scan(exports, HasServer(cap.server));
      if i < exports.Length {
        exports[i] := exports[i].(refcount := exports[i].refcount + 1);
        return i;
      }
      i := Scan(exports, FreeExport());
      if i < exports.Length {
        exports[i] := Export(true, 1, cap.server, cap.dispatch);
        return i;
      }
      return -1;
    }

    /** resolve_target and resolve_promised_answer */
    method ResolveTarget(target: Target) returns (id: int)
      requires Valid()
      ensures id == Resolve(State(), target)
    {
      hide SetsOk;
      match target
      case ImportedCap(n) =>
        if n >= exports.Length {
          return -1;
        }
        return if exports[n].used then n else -1;
      case PromisedAnswer(qid, ops) =>
        var i := Scan(answers, AnswerTo(qid));
        if i == answers.Length {
          return -1;
        }
        var cursor := WalkOps(answers[i].payload.content, ops);
        if !cursor.CapPtr? || cursor.index >= |answers[i].payload.capTable| {
          return -1;
        }
        var desc := answers[i].payload.capTable[cursor.index];
        if !desc.SenderHosted? {
          return -1;
        }
        return if desc.id < exports.Length && exports[desc.id].used then desc.id else -1;
      case Nothing =>
        return -1;
    }

    method WalkOps(content: Content, ops: seq<Op>) returns (cursor: Content)
      ensures cursor == Walk(content, ops)
    {
      cursor := content;
      for i := 0 to |ops|
        invariant Walk(content, ops) == Walk(cursor, ops[i..])
      {
        match ops[i]
        case OtherOp =>
        case Unreadable => return OtherPtr;
        case GetPointerField(k) =>
          if !cursor.StructPtr? {
            return OtherPtr;
          }
          cursor := if k < |cursor.pointers| then cursor.pointers[k] else NullPtr;
      }
    }

    /** flush_answer */
    method SendAnswer(qid: nat, payload: Payload, small: bool)
      requires Valid()
      modifies this`outbox, answers
      ensures Valid() && answers[..] == Keep(old(answers[..]), qid, payload, small)
      ensures outbox == old(outbox) + [Results(qid, payload)]
    {
      hide SetsOk;
      if small {
        var i := Scan(answers, FreeAnswer());
        if i < answers.Length {
          answers[i] := Answer(true, qid, payload);
        }
      }
      outbox := outbox + [Results(qid, payload)];
    }

    method Send(e: Effect)
      requires Valid()
      modifies this`outbox
      ensures Valid() && outbox == old(outbox) + [e]
    {
      outbox := outbox + [e];
    }

    method HandleBootstrap(qid: nat)
      requires Valid()
      modifies this`outbox, exports, answers
      ensures Did(OnBootstrap(old(State()), old(vat.provisions[..]), qid), old(outbox))
    {
      hide SetsOk, Keep, ExportCap;
      if bootstrap.None? {
        Send(Exception(qid));
        return;
      }
      var id := ExportCapability(bootstrap.value);
      if id < 0 {
        NotExported(old(exports[..]), bootstrap.value);
        Send(Exception(qid));
        return;
      }
      SendAnswer(qid, CapPayload(id), true);
    }

    /** handle_call; `reply` is what dispatch wrote, if it succeeded. */
    method HandleCall(qid: nat, target: Target, reply: Option<Reply>)
      requires Valid()
      modifies this`outbox, answers
      ensures Did(OnCall(old(State()), old(vat.provisions[..]), qid, target, reply), old(outbox))
    {
      hide SetsOk, Keep, Resolve;
      var id := ResolveTarget(target);
      if id < 0 {
        Send(Exception(qid));
        return;
      }
      Send(Invoke(Capability(exports[id].server, exports[id].dispatch)));
      if reply.Some? {
        SendAnswer(qid, reply.value.payload, reply.value.small);
      }
    }

    /** answer_drop */
    method HandleFinish(qid: nat)
      requires Valid()
      modifies answers
      ensures Did(OnFinish(old(State()), old(vat.provisions[..]), qid), old(outbox))
    {
      hide SetsOk;
      var i := Scan(answers, AnswerTo(qid));
      if i < answers.Length {
        answers[i] := answers[i].(used := false);
      }
    }

    method HandleRelease(id: nat, count: nat)
      requires Valid()
      modifies exports
      ensures Did(OnRelease(old(State()), old(vat.provisions[..]), id, count), old(outbox))
    {
      hide SetsOk;
      if id >= exports.Length || !exports[id].used {
        return;
      }
      exports[id] := exports[id].(refcount := exports[id].refcount - AsInt(count));
      if exports[id].refcount <= 0 {
        exports[id] := NO_EXPORT;
      }
    }

    /** send_join_result */
    method SendJoinResult(qid: nat, joinId: nat, succeeded: bool, withCap: bool, id: int)
      requires Valid() && id < exports.Length
      modifies this`outbox, exports
      ensures Valid()
      ensures exports[..] == if withCap && id >= 0 then AddRef(old(exports[..]), id) else old(exports[..])
      ensures outbox == old(outbox) + [JoinResult(qid, joinId, succeeded, if withCap && id >= 0 then Some(id) else None)]
    {
      hide SetsOk;
      if withCap && id >= 0 {
        exports[id] := exports[id].(refcount := exports[id].refcount + 1);
      }
      Send(JoinResult(qid, joinId, succeeded, if withCap && id >= 0 then Some(id) else None));
    }

    /** join_slot_find */
    method FindJoinSlot(joinId: nat, partCount: nat) returns (slot: int)
      requires Valid() && partCount <= MAX_JOIN_PARTS
      modifies joins
      ensures slot == JoinSlot(old(joins[..]), joinId, partCount)
      ensures slot < 0 ==> joins[..] == old(joins[..])
      ensures slot >= 0 ==> joins[..] == old(joins[..])[slot := Opened(old(joins[slot]), joinId, partCount)]
      ensures Valid()
    {
      var i := Scan(joins, HasJoinId(joinId));
      if i < joins.Length {
        assert joins[..][i := joins[i]] == joins[..];
        return if joins[i].partCount == partCount then i else -1;
      }
      i := Scan(joins, FreeJoin());
      if i < joins.Length {
        joins[i] := EmptySet(true, joinId, partCount);
        return i;
      }
      return -1;
    }

    /** join_complete */
    method CompleteJoin(slot: nat)
      requires Valid() && slot < joins.Length && joins[slot].partCount > 0
      modifies this`outbox, exports, joins
      ensures Valid()
      ensures var j := old(joins[slot]);
              && exports[..] == (if AllSame(j) then AddRef(old(exports[..]), j.eids[0]) else old(exports[..]))
              && joins[..] == old(joins[..])[slot := EmptySet(false, 0, 0)]
              && outbox == old(outbox) + Verdicts(j, j.partCount)
    {
      var j := joins[slot];
      assert SetOk(j);
      var first := j.eids[0];
      var same := first >= 0;
      var k := 1;
      while same && k < j.partCount
        invariant 1 <= k <= j.partCount
        invariant same <==> first >= 0 && forall i :: 0 <= i < k ==> j.eids[i] == first
        invariant !same ==> !AllSame(j)
      {
        if j.eids[k] != first {
          same := false;
        }
        k := k + 1;
      }
      assert same == AllSame(j);
      SendVerdicts(j, same);
      joins[slot] := EmptySet(false, 0, 0);
    }

    method SendVerdicts(j: JoinSet, same: bool)
      requires Valid() && SetOk(j) && j.partCount > 0 && same == AllSame(j)
      modifies this`outbox, exports
      ensures Valid()
      ensures exports[..] == if same then AddRef(old(exports[..]), j.eids[0]) else old(exports[..])
      ensures outbox == old(outbox) + Verdicts(j, j.partCount)
    {
      hide SetsOk, AllSame;
      assert same ==> j.eids[0] >= 0 by {
        if same {
          SameNames(j);
        }
      }
      for i := 0 to j.partCount
        invariant Valid()
        invariant exports[..] == if same && i > 0 then AddRef(old(exports[..]), j.eids[0]) else old(exports[..])
        invariant outbox == old(outbox) + Verdicts(j, i)
      {
        SendJoinResult(j.qids[i], j.joinId, same, same && i == 0, j.eids[0]);
      }
    }

    method HandleJoin(qid: nat, target: Target, key: Option<JoinKey>)
      requires Valid()
      modifies this`outbox, exports, joins
      ensures Did(OnJoin(old(State()), old(vat.provisions[..]), qid, target, key), old(outbox))
    {
      hide SetsOk, JoinSlot, Resolve, AllSame, Verdicts, EmptySet, WithPart, SetOk;
      if key.None? {
        SendJoinResult(qid, 0, false, false, -1);
        return;
      }
      var k := key.value;
      if k.partCount <= 0 || k.partCount > MAX_JOIN_PARTS || k.partNum >= k.partCount {
        SendJoinResult(qid, k.joinId, false, false, -1);
        return;
      }
      ghost var before := joins[..];
      var slot := FindJoinSlot(k.joinId, k.partCount);
      if slot >= 0 {
        OpenedSet(before, joins[..], slot, k);
      }
      if slot < 0 || joins[slot].seen[k.partNum] {
        SendJoinResult(qid, k.joinId, false, false, -1);
        return;
      }
      var id := ResolveTarget(target);
      ResolveSame(old(State()), target, joins[..]);
      OpenedPart(before[slot], k, qid, id);
      AddPart(slot, k, qid, id);
      assert joins[..] == before[slot := joins[slot]];
      if joins[slot].nseen == joins[slot].partCount {
        CompleteJoin(slot);
      }
    }

    /** One more part in a set's record. */
    method AddPart(slot: nat, k: JoinKey, qid: nat, id: int)
      requires Valid() && slot < joins.Length && joins[slot].used && KeyOk(k) && -1 <= id < MAX_EXPORTS
      requires SetOk(joins[slot])
      modifies joins
      ensures Valid() && joins[..] == old(joins[..])[slot := WithPart(old(joins[slot]), k, qid, id)]
    {
      hide SetsOk;
      var j := joins[slot];
      StillValid(joins[..], slot, WithPart(j, k, qid, id));
      joins[slot] := j.(nseen := j.nseen + 1, seen := j.seen[k.partNum := true], qids := j.qids[k.partNum := qid],
                        eids := j.eids[k.partNum := id]);
    }

    method HandleProvide(qid: nat, target: Target, recipient: Option<nat>)
      requires Valid()
      modifies this`outbox, exports, answers, vat.provisions
      ensures Did(OnProvide(old(State()), old(vat.provisions[..]), qid, target, recipient), old(outbox))
    {
      hide SetsOk, Keep, Resolve;
      var id := ResolveTarget(target);
      if id < 0 || recipient.None? {
        Send(Exception(qid));
        return;
      }
      var i := Scan(vat.provisions, FreeProvision());
      if i < vat.provisions.Length {
        vat.provisions[i] := vat.provisions[i].(used := true, nonce := recipient.value, server := exports[id].server,
                                                dispatch := exports[id].dispatch, exportId := id, qid := qid, embargoed := false);
        exports[id] := exports[id].(refcount := exports[id].refcount + 1);
        SendAnswer(qid, EMPTY, true);
        return;
      }
      Send(Exception(qid));
    }

    method HandleAccept(qid: nat, provision: Option<nat>, embargo: bool)
      requires Valid()
      modifies this`outbox, exports, answers, vat.provisions
      ensures Did(OnAccept(old(State()), old(vat.provisions[..]), qid, provision, embargo), old(outbox))
    {
      hide SetsOk, Keep, ExportCap;
      if provision.None? {
        Send(Exception(qid));
        return;
      }
      var i := Scan(vat.provisions, Claimable(provision.value));
      if i == vat.provisions.Length {
        Send(Exception(qid));
        return;
      }
      var p := vat.provisions[i];
      var id := ExportCapability(Capability(p.server, p.dispatch));
      if id < 0 {
        NotExported(old(exports[..]), Capability(p.server, p.dispatch));
        Send(Exception(qid));
        return;
      }
      if embargo {
        vat.provisions[i] := p.(exportId := id, embargoed := true, acceptQid := qid);
        return;
      }
      vat.provisions[i] := p.(exportId := id, used := false);
      SendAnswer(qid, CapPayload(id), true);
    }

    /** release_provide_embargo */
    method HandleDisembargo(provideQid: nat)
      requires Valid()
      modifies this`outbox, answers, vat.provisions
      ensures Did(OnDisembargo(old(State()), old(vat.provisions[..]), provideQid), old(outbox))
    {
      hide SetsOk, Keep;
      var i := Scan(vat.provisions, HeldFor(provideQid));
      if i < vat.provisions.Length {
        var p := vat.provisions[i];
        vat.provisions[i] := NO_PROVISION;
        SendAnswer(p.acceptQid, CapPayload(p.exportId), true);
      }
    }

    /** capnp_rpc_handle */
    method HandleMessage(m: Message)
      requires Valid()
      modifies this`outbox, exports, answers, joins, vat.provisions
      ensures Did(Handle(old(State()), old(vat.provisions[..]), m), old(outbox))
    {
      hide SetsOk, OnBootstrap, OnCall, OnFinish, OnRelease, OnJoin, OnProvide, OnAccept, OnDisembargo;
      match m
      case Bootstrap(qid) => HandleBootstrap(qid);
      case Call(qid, target, reply) => HandleCall(qid, target, reply);
      case Finish(qid) => HandleFinish(qid);
      case Release(id, count) => HandleRelease(id, count);
      case Join(qid, target, key) => HandleJoin(qid, target, key);
      case Provide(qid, target, recipient) => HandleProvide(qid, target, recipient);
      case Accept(qid, provision, embargo) => HandleAccept(qid, provision, embargo);
      case DisembargoProvide(provideQid) => HandleDisembargo(provideQid);
      case Other =>
    }
  }

  /** The record a part is put in: the set's own, or a fresh one. */
  function Opened(j: JoinSet, joinId: nat, partCount: nat): JoinSet
  {
    if j.used then j else EmptySet(true, joinId, partCount)
  }

  lemma NotExported(exports: seq<Export>, cap: Capability)
    requires ExportCap(exports, cap).id < 0
    ensures ExportCap(exports, cap).exports == exports
  {
  }

  lemma SameNames(j: JoinSet)
    requires SetOk(j) && j.partCount > 0 && AllSame(j)
    ensures j.eids[0] >= 0
  {
  }

  lemma OpenedPart(j: JoinSet, k: JoinKey, qid: nat, id: int)
    requires SetOk(j) && KeyOk(k) && -1 <= id < MAX_EXPORTS
    ensures var o := Opened(j, k.joinId, k.partCount);
            && o.used && SetOk(o)
            && WithPart(o, k, qid, id) == WithPart(j, k, qid, id) && WithPart(j, k, qid, id).partCount == o.partCount
  {
  }

  lemma OpenedSet(before: seq<JoinSet>, after: seq<JoinSet>, slot: nat, k: JoinKey)
    requires SetsOk(before) && slot < |before| && KeyOk(k) && slot == JoinSlot(before, k.joinId, k.partCount)
    requires after == before[slot := Opened(before[slot], k.joinId, k.partCount)]
    ensures SetOk(before[slot]) && SetOk(after[slot]) && SetsOk(after) && after[slot].partCount == k.partCount
    ensures PartSlot(before, k) == if after[slot].seen[k.partNum] then -1 else slot
    ensures |after[slot].seen| == MAX_JOIN_PARTS && 0 < after[slot].partCount
  {
  }

  /** Targets do not depend on the joins under way. */
  lemma ResolveSame(c: Conn, target: Target, joins: seq<JoinSet>)
    ensures Resolve(c.(joins := joins), target) == Resolve(c, target)
  {
  }
}
