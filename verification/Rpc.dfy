/** The tables of an RPC connection and of the vat it belongs to, and what each message
    does to them: capnp_rpc.c. Messages are values; their bytes are not part of this module. */
module Rpc {
  import opened Options
  import opened Tables

  const MAX_EXPORTS := 64
  const MAX_ANSWERS := 64
  const MAX_PROVISIONS := 32
  const MAX_JOINS := 8
  const MAX_JOIN_PARTS := 16

  /** An object this vat serves, and the function its calls go to. */
  datatype Capability = Capability(server: nat, dispatch: nat)

  // ---- messages ------------------------------------------------------------------------

  /** A step of a pipelined transform. `Unreadable` stands for an element that is no struct. */
  datatype Op = GetPointerField(index: nat) | OtherOp | Unreadable

  /** A MessageTarget. `Nothing` stands for one that is missing or malformed. */
  datatype Target = ImportedCap(id: nat) | PromisedAnswer(qid: nat, transform: seq<Op>) | Nothing

  /** What a pointer in a payload leads to. */
  datatype Content = NullPtr | CapPtr(index: nat) | StructPtr(pointers: seq<Content>) | OtherPtr

  datatype Descriptor = SenderHosted(id: nat) | OtherDescriptor

  datatype Payload = Payload(content: Content, capTable: seq<Descriptor>)

  /** What dispatch wrote; `small` when its frame fits an answer slot. */
  datatype Reply = Reply(payload: Payload, small: bool)

  datatype JoinKey = JoinKey(joinId: nat, partCount: nat, partNum: nat)

  /** A message received. In a Call, `reply` is what dispatch makes of it, if it succeeds. */
  datatype Message =
    | Bootstrap(qid: nat)
    | Call(qid: nat, target: Target, reply: Option<Reply>)
    | Finish(qid: nat)
    | Release(id: nat, count: nat)
    | Join(qid: nat, target: Target, key: Option<JoinKey>)
    | Provide(qid: nat, target: Target, recipient: Option<nat>)
    | Accept(qid: nat, provision: Option<nat>, embargo: bool)
    | DisembargoProvide(provideQid: nat)
    | Other

  /** What handling a message gives rise to: calls into a server, and Returns sent. */
  datatype Effect =
    | Invoke(cap: Capability)
    | Results(qid: nat, payload: Payload)
    | Exception(qid: nat)
    | JoinResult(qid: nat, joinId: nat, succeeded: bool, joined: Option<nat>)

  // ---- tables --------------------------------------------------------------------------

  datatype Export = Export(used: bool, refcount: int, server: nat, dispatch: nat)

  datatype Answer = Answer(used: bool, qid: nat, payload: Payload)

  datatype JoinSet = JoinSet(used: bool, joinId: nat, partCount: nat, nseen: nat, seen: seq<bool>, qids: seq<nat>, eids: seq<int>)

  datatype Provision = Provision(used: bool, nonce: nat, server: nat, dispatch: nat, exportId: nat, qid: nat,
                                 embargoed: bool, acceptQid: nat)

  /** capnp_rpc_conn_t, as far as it answers messages. */
  datatype Conn = Conn(exports: seq<Export>, answers: seq<Answer>, joins: seq<JoinSet>, bootstrap: Option<Capability>)

  /** A connection and its vat's provisions after a message, and what handling it gave rise to. */
  datatype Outcome = Outcome(conn: Conn, provisions: seq<Provision>, effects: seq<Effect>)

  const NO_EXPORT := Export(false, 0, 0, 0)
  const EMPTY := Payload(NullPtr, [])
  const NO_ANSWER := Answer(false, 0, EMPTY)
  const NO_PROVISION := Provision(false, 0, 0, 0, 0, 0, false, 0)

  /** A set's record with no parts in. */
  function EmptySet(used: bool, joinId: nat, partCount: nat): JoinSet
  {
    JoinSet(used, joinId, partCount, 0, seq(MAX_JOIN_PARTS, _ => false), seq(MAX_JOIN_PARTS, _ => 0), seq(MAX_JOIN_PARTS, _ => 0))
  }

  function NewConn(): Conn
  {
    Conn(seq(MAX_EXPORTS, _ => NO_EXPORT), seq(MAX_ANSWERS, _ => NO_ANSWER), seq(MAX_JOINS, _ => EmptySet(false, 0, 0)), None)
  }

  function NewProvisions(): seq<Provision>
  {
    seq(MAX_PROVISIONS, _ => NO_PROVISION)
  }

  // what the scans look for

  function HasServer(server: nat): Export -> bool { (e: Export) => e.used && e.server == server }
  function FreeExport(): Export -> bool { (e: Export) => !e.used }
  function AnswerTo(qid: nat): Answer -> bool { (a: Answer) => a.used && a.qid == qid }
  function FreeAnswer(): Answer -> bool { (a: Answer) => !a.used }
  function HasJoinId(joinId: nat): JoinSet -> bool { (j: JoinSet) => j.used && j.joinId == joinId }
  function FreeJoin(): JoinSet -> bool { (j: JoinSet) => !j.used }
  function FreeProvision(): Provision -> bool { (p: Provision) => !p.used }
  function Claimable(nonce: nat): Provision -> bool { (p: Provision) => p.used && !p.embargoed && p.nonce == nonce }
  function HeldFor(qid: nat): Provision -> bool { (p: Provision) => p.used && p.embargoed && p.qid == qid }

  // ---- exports and answers ---------------------------------------------------------------

  /** The export table after a capability was exported, and its id, or -1 when the table is full. */
  datatype Exported = Exported(exports: seq<Export>, id: int)

  /** capnp_rpc_export */
  function ExportCap(exports: seq<Export>, cap: Capability): Exported
  {
    var i, j := First(exports, HasServer(cap.server)), First(exports, FreeExport());
    if i < |exports| then Exported(AddRef(exports, i), i)
    else if j < |exports| then Exported(exports[j := Export(true, 1, cap.server, cap.dispatch)], j)
    else Exported(exports, -1)
  }

  function AddRef(exports: seq<Export>, id: nat): seq<Export>
    requires id < |exports|
  {
    exports[id := exports[id].(refcount := exports[id].refcount + 1)]
  }

  /** The walk of a transform into a payload's content. */
  function Walk(cursor: Content, ops: seq<Op>): Content
    decreases |ops|
  {
    if ops == [] then cursor
    else
      match ops[0]
      case OtherOp => Walk(cursor, ops[1..])
      case Unreadable => OtherPtr
      case GetPointerField(k) =>
        if !cursor.StructPtr? then OtherPtr
        else Walk(if k < |cursor.pointers| then cursor.pointers[k] else NullPtr, ops[1..])
  }

  predicate LiveExport(c: Conn, id: int)
  {
    0 <= id < |c.exports| && c.exports[id].used
  }

  /** The live export a content pointer names through its capTable, or -1. */
  function NamedBy(c: Conn, cursor: Content, capTable: seq<Descriptor>): int
  {
    if cursor.CapPtr? && cursor.index < |capTable| && capTable[cursor.index].SenderHosted? &&
       LiveExport(c, capTable[cursor.index].id)
    then capTable[cursor.index].id else -1
  }

  /** resolve_target: the live export a target names, or -1. */
  function Resolve(c: Conn, target: Target): (id: int)
    ensures id == -1 || LiveExport(c, id)
  {
    match target
    case ImportedCap(id) => if LiveExport(c, id) then id else -1
    case PromisedAnswer(qid, ops) =>
      var i := First(c.answers, AnswerTo(qid));
      if i == |c.answers| then -1
      else NamedBy(c, Walk(c.answers[i].payload.content, ops), c.answers[i].payload.capTable)
    case Nothing => -1
  }

  /** A payload whose content is the one capability in its table. */
  function CapPayload(id: nat): Payload
  {
    Payload(CapPtr(0), [SenderHosted(id)])
  }

  /** flush_answer: a Return is kept in the first free answer slot, if it fits one. */
  function Keep(answers: seq<Answer>, qid: nat, payload: Payload, small: bool): seq<Answer>
  {
    var i := First(answers, FreeAnswer());
    if small && i < |answers| then answers[i := Answer(true, qid, payload)] else answers
  }

  // ---- messages that concern one connection ---------------------------------------------

  function OnBootstrap(c: Conn, ps: seq<Provision>, qid: nat): Outcome
  {
    if c.bootstrap.None? then Outcome(c, ps, [Exception(qid)])
    else
      var e := ExportCap(c.exports, c.bootstrap.value);
      if e.id < 0 then Outcome(c, ps, [Exception(qid)])
      else ReturnCap(c.(exports := e.exports), ps, qid, e.id)
  }

  /** A Return of one capability, kept for pipelining. */
  function ReturnCap(c: Conn, ps: seq<Provision>, qid: nat, id: nat): Outcome
  {
    Outcome(c.(answers := Keep(c.answers, qid, CapPayload(id), true)), ps, [Results(qid, CapPayload(id))])
  }

  function OnCall(c: Conn, ps: seq<Provision>, qid: nat, target: Target, reply: Option<Reply>): Outcome
  {
    var id := Resolve(c, target);
    if id < 0 then Outcome(c, ps, [Exception(qid)])
    else
      var call := Invoke(Capability(c.exports[id].server, c.exports[id].dispatch));
      if reply.None? then Outcome(c, ps, [call])
      else
        var r := reply.value;
        Outcome(c.(answers := Keep(c.answers, qid, r.payload, r.small)), ps, [call, Results(qid, r.payload)])
  }

  function OnFinish(c: Conn, ps: seq<Provision>, qid: nat): Outcome
  {
    var i := First(c.answers, AnswerTo(qid));
    if i == |c.answers| then Outcome(c, ps, [])
    else Outcome(c.(answers := c.answers[i := c.answers[i].(used := false)]), ps, [])
  }

  /** A 32-bit count taken as a signed int. */
  function AsInt(count: nat): int
  {
    if count < 0x8000_0000 then count else count - 0x1_0000_0000
  }

  function OnRelease(c: Conn, ps: seq<Provision>, id: nat, count: nat): Outcome
  {
    if !LiveExport(c, id) then Outcome(c, ps, [])
    else
      var left := c.exports[id].refcount - AsInt(count);
      Outcome(c.(exports := c.exports[id := if left <= 0 then NO_EXPORT else c.exports[id].(refcount := left)]), ps, [])
  }

  // ---- Join --------------------------------------------------------------------------------

  /** join_slot_find: the set a part belongs to, the slot for a new one, or -1. */
  function JoinSlot(joins: seq<JoinSet>, joinId: nat, partCount: nat): (slot: int)
    ensures -1 <= slot < |joins|
  {
    var i, j := First(joins, HasJoinId(joinId)), First(joins, FreeJoin());
    if i < |joins| then if joins[i].partCount == partCount then i else -1
    else if j < |joins| then j
    else -1
  }

  predicate KeyOk(k: JoinKey)
  {
    0 < k.partCount <= MAX_JOIN_PARTS && k.partNum < k.partCount
  }

  /** The shape of a set's record. */
  predicate SetOk(j: JoinSet)
  {
    && |j.seen| == MAX_JOIN_PARTS && |j.qids| == MAX_JOIN_PARTS && |j.eids| == MAX_JOIN_PARTS
    && 0 <= j.partCount <= MAX_JOIN_PARTS
    && forall i :: 0 <= i < MAX_JOIN_PARTS ==> -1 <= j.eids[i] < MAX_EXPORTS
  }

  predicate SetsOk(joins: seq<JoinSet>)
  {
    forall i :: 0 <= i < |joins| ==> SetOk(joins[i])
  }

  /** The slot a part goes to, or -1 when it is refused. */
  function PartSlot(joins: seq<JoinSet>, k: JoinKey): (slot: int)
    requires SetsOk(joins)
    ensures -1 <= slot < |joins|
  {
    if !KeyOk(k) then -1
    else
      var slot := JoinSlot(joins, k.joinId, k.partCount);
      if slot >= 0 && joins[slot].used && joins[slot].seen[k.partNum] then -1 else slot
  }

  /** The set with one more part in. */
  function WithPart(j: JoinSet, k: JoinKey, qid: nat, id: int): (r: JoinSet)
    requires SetOk(j) && KeyOk(k) && -1 <= id < MAX_EXPORTS
    ensures SetOk(r)
  {
    var s := if j.used then j else EmptySet(true, k.joinId, k.partCount);
    s.(nseen := s.nseen + 1, seen := s.seen[k.partNum := true], qids := s.qids[k.partNum := qid], eids := s.eids[k.partNum := id])
  }

  /** Every part of a set names the same export. */
  predicate AllSame(j: JoinSet)
    requires 0 < j.partCount <= |j.eids|
  {
    j.eids[0] >= 0 && forall i :: 0 <= i < j.partCount ==> j.eids[i] == j.eids[0]
  }

  /** join_complete: the Returns to the first n parts. */
  function Verdicts(j: JoinSet, n: nat): (fx: seq<Effect>)
    requires 0 < j.partCount <= |j.eids| && n <= j.partCount <= |j.qids|
    ensures |fx| == n
  {
    if n == 0 then []
    else
      var same := AllSame(j);
      Verdicts(j, n - 1) + [JoinResult(j.qids[n - 1], j.joinId, same, if same && n == 1 then Some(j.eids[0]) else None)]
  }

  lemma StillValid(joins: seq<JoinSet>, slot: nat, j: JoinSet)
    requires SetsOk(joins) && slot < |joins| && SetOk(j)
    ensures SetsOk(joins[slot := j])
  {
  }

  predicate Sized(c: Conn)
  {
    && |c.exports| == MAX_EXPORTS && |c.answers| == MAX_ANSWERS && |c.joins| == MAX_JOINS && SetsOk(c.joins)
  }

  function OnJoin(c: Conn, ps: seq<Provision>, qid: nat, target: Target, key: Option<JoinKey>): Outcome
    requires Sized(c)
  {
    if key.None? then Outcome(c, ps, [JoinResult(qid, 0, false, None)])
    else
      var k := key.value;
      var slot := PartSlot(c.joins, k);
      if slot < 0 then Outcome(c, ps, [JoinResult(qid, k.joinId, false, None)])
      else
        var j := WithPart(c.joins[slot], k, qid, Resolve(c, target));
        if j.nseen != j.partCount || j.partCount == 0 then Outcome(c.(joins := c.joins[slot := j]), ps, [])
        else
          Outcome(c.(joins := c.joins[slot := EmptySet(false, 0, 0)],
                     exports := if AllSame(j) then AddRef(c.exports, j.eids[0]) else c.exports),
                  ps, Verdicts(j, j.partCount))
  }

  // ---- handoff -----------------------------------------------------------------------------

  function OnProvide(c: Conn, ps: seq<Provision>, qid: nat, target: Target, recipient: Option<nat>): Outcome
  {
    var id, i := Resolve(c, target), First(ps, FreeProvision());
    if id < 0 || recipient.None? || i == |ps| then Outcome(c, ps, [Exception(qid)])
    else
      var p := ps[i].(used := true, nonce := recipient.value, server := c.exports[id].server, dispatch := c.exports[id].dispatch,
                      exportId := id, qid := qid, embargoed := false);
      Outcome(c.(exports := AddRef(c.exports, id), answers := Keep(c.answers, qid, EMPTY, true)),
              ps[i := p], [Results(qid, EMPTY)])
  }

  function OnAccept(c: Conn, ps: seq<Provision>, qid: nat, provision: Option<nat>, embargo: bool): Outcome
  {
    if provision.None? then Outcome(c, ps, [Exception(qid)])
    else
      var i := First(ps, Claimable(provision.value));
      if i == |ps| then Outcome(c, ps, [Exception(qid)])
      else
        var e := ExportCap(c.exports, Capability(ps[i].server, ps[i].dispatch));
        if e.id < 0 then Outcome(c, ps, [Exception(qid)])
        else if embargo then
          Outcome(c.(exports := e.exports), ps[i := ps[i].(exportId := e.id, embargoed := true, acceptQid := qid)], [])
        else
          ReturnCap(c.(exports := e.exports), ps[i := ps[i].(exportId := e.id, used := false)], qid, e.id)
  }

  /** release_provide_embargo */
  function OnDisembargo(c: Conn, ps: seq<Provision>, provideQid: nat): Outcome
  {
    var i := First(ps, HeldFor(provideQid));
    if i == |ps| then Outcome(c, ps, [])
    else ReturnCap(c, ps[i := NO_PROVISION], ps[i].acceptQid, ps[i].exportId)
  }

  /** capnp_rpc_handle */
  function Handle(c: Conn, ps: seq<Provision>, m: Message): Outcome
    requires Sized(c)
  {
    match m
    case Bootstrap(qid) => OnBootstrap(c, ps, qid)
    case Call(qid, target, reply) => OnCall(c, ps, qid, target, reply)
    case Finish(qid) => OnFinish(c, ps, qid)
    case Release(id, count) => OnRelease(c, ps, id, count)
    case Join(qid, target, key) => OnJoin(c, ps, qid, target, key)
    case Provide(qid, target, recipient) => OnProvide(c, ps, qid, target, recipient)
    case Accept(qid, provision, embargo) => OnAccept(c, ps, qid, provision, embargo)
    case DisembargoProvide(provideQid) => OnDisembargo(c, ps, provideQid)
    case Other => Outcome(c, ps, [])
  }
}
