/** The window of a stream's unacknowledged calls, and the question table it draws on:
    capnp_rpc_stream_init to capnp_rpc_stream_finish. */
module Streams {
  import opened Options
  import opened Bytes
  import opened Tables

  const MAX_QUESTIONS := 64
  const MAX_WINDOW := 64
  const ID_LIMIT := 0x1_0000_0000
  const NO_ID := 0xFFFF_FFFF

  /** capnp_rpc_question_t, without the reply's bytes. */
  datatype Question = Question(used: bool, id: nat, answered: bool, failed: bool)

  /** The questions of a connection and the next id to give out. */
  datatype Client = Client(questions: seq<Question>, nextId: nat)

  /** capnp_rpc_stream_t; `out` are its outstanding calls, oldest first. */
  datatype Window = Window(size: nat, out: seq<nat>, failed: bool, haveFailure: bool, firstFailure: nat)

  datatype Frame = CallFrame(qid: nat) | FinishFrame(qid: nat)

  function FreeQuestion(): Question -> bool { (q: Question) => !q.used }
  function HasId(qid: nat): Question -> bool { (q: Question) => q.used && q.id == qid }

  // ---- the question table ----------------------------------------------------------------

  /** question_claim */
  function Claim(c: Client): (r: (Client, Option<nat>))
  {
    var i := First(c.questions, FreeQuestion());
    if i == |c.questions| then (c, None)
    else (Client(c.questions[i := Question(true, c.nextId, false, false)], (c.nextId + 1) % ID_LIMIT), Some(c.nextId))
  }

  /** capnp_rpc_send_finish: the question's slot is free again. */
  function Drop(c: Client, qid: nat): Client
  {
    var i := First(c.questions, HasId(qid));
    if i == |c.questions| then c else c.(questions := c.questions[i := c.questions[i].(used := false)])
  }

  /** handle_return */
  function Record(c: Client, qid: nat, results: bool, fits: bool): Client
  {
    var i := First(c.questions, HasId(qid));
    if i == |c.questions| || !fits then c
    else c.(questions := c.questions[i := c.questions[i].(answered := true, failed := !results)])
  }

  /** The question has been answered with results. */
  predicate Succeeded(c: Client, qid: nat)
  {
    var i := First(c.questions, HasId(qid));
    i < |c.questions| && c.questions[i].answered && !c.questions[i].failed
  }

  // ---- the window --------------------------------------------------------------------------

  function NewWindow(size: int): Window
  {
    Window(if size < 1 then 1 else if size > MAX_WINDOW then MAX_WINDOW else size, [], false, false, 0)
  }

  datatype Outcome = Outcome(rc: Code, client: Client, window: Window, frames: seq<Frame>)

  /** stream_retire_oldest */
  function RetireOldest(c: Client, w: Window): Outcome
  {
    if w.out == [] then Outcome(OK, c, w, [])
    else
      var qid := w.out[0];
      var rest := w.(out := w.out[1..]);
      Outcome(OK, Drop(c, qid), if Succeeded(c, qid) then rest else Failing(rest, qid), [FinishFrame(qid)])
  }

  function Failing(w: Window, qid: nat): Window
  {
    w.(failed := true, haveFailure := true, firstFailure := if w.haveFailure then w.firstFailure else qid)
  }

  /** The part of capnp_rpc_stream_send after the window has room. */
  function PutCall(c: Client, w: Window): Outcome
  {
    var (client, qid) := Claim(c);
    if qid.None? then Outcome(ErrAlloc, c, w, [])
    else if qid.value == NO_ID then Outcome(ErrAlloc, client, w, [CallFrame(qid.value)])
    else Outcome(OK, client, w.(out := w.out + [qid.value]), [CallFrame(qid.value)])
  }

  /** capnp_rpc_stream_send */
  function SendCall(c: Client, w: Window): Outcome
  {
    if w.failed then Outcome(ErrArg, c, w, [])
    else if |w.out| < w.size then PutCall(c, w)
    else
      var o := RetireOldest(c, w);
      if o.window.failed then o.(rc := ErrArg)
      else
        var p := PutCall(o.client, o.window);
        p.(frames := o.frames + p.frames)
  }

  /** capnp_rpc_stream_finish */
  function Drain(c: Client, w: Window): Outcome
    decreases |w.out|
  {
    if w.out == [] then Outcome(if w.haveFailure then ErrArg else OK, c, w, [])
    else
      var o := RetireOldest(c, w);
      var d := Drain(o.client, o.window);
      d.(frames := o.frames + d.frames)
  }

  // ---- runs ----------------------------------------------------------------------------------

  /** What a program and its peer may do: use the stream, receive a Return, ask or finish
      other questions on the same connection. */
  datatype Op = Send | Finish | Return(qid: nat, results: bool, fits: bool) | Ask | Forget(qid: nat)

  function Apply(op: Op, c: Client, w: Window): Outcome
  {
    match op
    case Send => SendCall(c, w)
    case Finish => Drain(c, w)
    case Return(qid, results, fits) => Outcome(OK, Record(c, qid, results, fits), w, [])
    case Ask => Outcome(OK, Claim(c).0, w, [])
    case Forget(qid) => Outcome(OK, Drop(c, qid), w, [])
  }

  /** A call retired, and whether it had been answered with results by then. */
  datatype Retired = Retired(qid: nat, ok: bool)

  /** The calls an operation retires, in order. */
  function Retires(op: Op, c: Client, w: Window): seq<Retired>
  {
    match op
    case Send => if w.failed || |w.out| < w.size || w.out == [] then [] else [Retired(w.out[0], Succeeded(c, w.out[0]))]
    case Finish => Drained(c, w.out)
    case _ => []
  }

  function Drained(c: Client, out: seq<nat>): seq<Retired>
    decreases |out|
  {
    if out == [] then [] else [Retired(out[0], Succeeded(c, out[0]))] + Drained(Drop(c, out[0]), out[1..])
  }

  function Calls(frames: seq<Frame>): seq<nat>
  {
    if frames == [] then []
    else
      var f := frames[|frames| - 1];
      Calls(frames[..|frames| - 1]) + if f.CallFrame? && f.qid != NO_ID then [f.qid] else []
  }

  function Finishes(frames: seq<Frame>): seq<nat>
  {
    if frames == [] then []
    else
      var f := frames[|frames| - 1];
      Finishes(frames[..|frames| - 1]) + if f.FinishFrame? then [f.qid] else []
  }

  lemma {:induction false} FramesConcat(a: seq<Frame>, b: seq<Frame>)
    ensures Calls(a + b) == Calls(a) + Calls(b) && Finishes(a + b) == Finishes(a) + Finishes(b)
  {
    if b == [] {
      assert a + b == a;
    } else {
      var n := |b| - 1;
      assert (a + b)[..|a + b| - 1] == a + b[..n];
      FramesConcat(a, b[..n]);
    }
  }

  function Qids(rs: seq<Retired>): (s: seq<nat>)
    ensures |s| == |rs|
  {
    if rs == [] then [] else Qids(rs[..|rs| - 1]) + [rs[|rs| - 1].qid]
  }

  lemma {:induction false} QidsConcat(a: seq<Retired>, b: seq<Retired>)
    ensures Qids(a + b) == Qids(a) + Qids(b)
  {
    if b == [] {
      assert a + b == a;
    } else {
      assert (a + b)[..|a + b| - 1] == a + b[..|b| - 1];
      QidsConcat(a, b[..|b| - 1]);
    }
  }

  /** The earliest retired call that had not been answered with results. */
  function EarliestFailure(rs: seq<Retired>): Option<nat>
  {
    if rs == [] then None
    else
      var before := EarliestFailure(rs[..|rs| - 1]);
      if before.Some? then before else if rs[|rs| - 1].ok then None else Some(rs[|rs| - 1].qid)
  }

  predicate AllOk(rs: seq<Retired>)
  {
    forall i :: 0 <= i < |rs| ==> rs[i].ok
  }

  /** The call retired i-th is the first that had not been answered with results. */
  predicate FirstBad(rs: seq<Retired>, i: nat)
  {
    i < |rs| && !rs[i].ok && AllOk(rs[..i])
  }

  lemma {:induction false} EarliestIs(rs: seq<Retired>)
    ensures EarliestFailure(rs).None? <==> AllOk(rs)
    ensures EarliestFailure(rs).Some? ==> exists i: nat :: FirstBad(rs, i) && rs[i].qid == EarliestFailure(rs).value
  {
    if rs != [] {
      var n := |rs| - 1;
      var before := rs[..n];
      EarliestIs(before);
      assert AllOk(rs) ==> AllOk(before);
      if EarliestFailure(before).Some? {
        var i: nat :| FirstBad(before, i) && before[i].qid == EarliestFailure(before).value;
        assert before[..i] == rs[..i];
        assert FirstBad(rs, i);
      } else if !rs[n].ok {
        assert FirstBad(rs, n);
      }
    }
  }

  lemma {:induction false} EarliestConcat(a: seq<Retired>, b: seq<Retired>)
    ensures EarliestFailure(a + b) == if EarliestFailure(a).Some? then EarliestFailure(a) else EarliestFailure(b)
  {
    if b == [] {
      assert a + b == a;
    } else {
      assert (a + b)[..|a + b| - 1] == a + b[..|b| - 1];
      EarliestConcat(a, b[..|b| - 1]);
    }
  }

  // ---- what the stream keeps ---------------------------------------------------------------

  /** The window, against what its stream sent and retired so far. */
  predicate Queue(w: Window, frames: seq<Frame>, retired: seq<Retired>)
  {
    && 1 <= w.size <= MAX_WINDOW && |w.out| <= w.size
    && Finishes(frames) == Qids(retired)
    && Calls(frames) == Finishes(frames) + w.out
    && w.failed == w.haveFailure == EarliestFailure(retired).Some?
    && (w.haveFailure ==> w.firstFailure == EarliestFailure(retired).value)
  }

  lemma OneFrame(f: Frame)
    ensures Calls([f]) == (if f.CallFrame? && f.qid != NO_ID then [f.qid] else [])
    ensures Finishes([f]) == if f.FinishFrame? then [f.qid] else []
  {
    assert [f][..|[f]| - 1] == [];
    assert Calls([f]) == Calls([]) + if f.CallFrame? && f.qid != NO_ID then [f.qid] else [];
    assert Finishes([f]) == Finishes([]) + if f.FinishFrame? then [f.qid] else [];
  }

  lemma OneRetired(x: Retired)
    ensures Qids([x]) == [x.qid] && EarliestFailure([x]) == if x.ok then None else Some(x.qid)
  {
    assert [x][..|[x]| - 1] == [];
    assert Qids([x]) == Qids([]) + [x.qid];
  }

  /** Retiring dequeues: the oldest call out, finished, and judged. */
  lemma RetireQueue(c: Client, w: Window, frames: seq<Frame>, retired: seq<Retired>)
    requires Queue(w, frames, retired) && w.out != []
    ensures var o := RetireOldest(c, w);
            Queue(o.window, frames + o.frames, retired + [Retired(w.out[0], Succeeded(c, w.out[0]))])
  {
    hide Succeeded, Drop, Calls, Finishes, Qids, EarliestFailure;
    var o, x := RetireOldest(c, w), Retired(w.out[0], Succeeded(c, w.out[0]));
    FramesConcat(frames, o.frames);
    OneFrame(FinishFrame(w.out[0]));
    QidsConcat(retired, [x]);
    OneRetired(x);
    EarliestConcat(retired, [x]);
    assert w.out == [w.out[0]] + w.out[1..];
  }

  /** A new call is enqueued. */
  lemma PutQueue(c: Client, w: Window, frames: seq<Frame>, retired: seq<Retired>)
    requires Queue(w, frames, retired) && |w.out| < w.size
    ensures var o := PutCall(c, w); Queue(o.window, frames + o.frames, retired)
  {
    hide Claim, Calls, Finishes, Qids, EarliestFailure;
    var o := PutCall(c, w);
    FramesConcat(frames, o.frames);
    NoFrames();
    if o.frames != [] {
      OneFrame(o.frames[0]);
    }
  }

  lemma NoFrames()
    ensures Calls([]) == [] && Finishes([]) == [] && Qids([]) == []
  {
  }

  lemma {:induction false} DrainQueue(c: Client, w: Window, frames: seq<Frame>, retired: seq<Retired>)
    requires Queue(w, frames, retired)
    ensures var o := Drain(c, w);
            && Queue(o.window, frames + o.frames, retired + Drained(c, w.out)) && o.window.out == []
            && o.rc == if EarliestFailure(retired + Drained(c, w.out)).Some? then ErrArg else OK
    decreases |w.out|
  {
    hide Queue, Succeeded, Drop;
    if w.out == [] {
      assert frames + [] == frames && retired + [] == retired;
      FailureKnown(w, frames, retired);
    } else {
      var o, x := RetireOldest(c, w), Retired(w.out[0], Succeeded(c, w.out[0]));
      RetireQueue(c, w, frames, retired);
      DrainQueue(o.client, o.window, frames + o.frames, retired + [x]);
      var d := Drain(o.client, o.window);
      assert frames + (o.frames + d.frames) == frames + o.frames + d.frames;
      assert retired + Drained(c, w.out) == retired + [x] + Drained(o.client, o.window.out);
    }
  }

  lemma FailureKnown(w: Window, frames: seq<Frame>, retired: seq<Retired>)
    requires Queue(w, frames, retired)
    ensures w.haveFailure == EarliestFailure(retired).Some?
  {
  }

  /** Every operation keeps the window a queue. */
  lemma StepQueue(op: Op, c: Client, w: Window, frames: seq<Frame>, retired: seq<Retired>)
    requires Queue(w, frames, retired)
    ensures var o := Apply(op, c, w); Queue(o.window, frames + o.frames, retired + Retires(op, c, w))
  {
    hide Queue, Succeeded, Drop, Claim, PutCall, RetireOldest, Record, Drain, Drained;
    var o := Apply(op, c, w);
    match op
    case Finish => DrainQueue(c, w, frames, retired);
    case Send => SendQueue(c, w, frames, retired);
    case _ =>
      assert frames + [] == frames && retired + [] == retired;
  }

  lemma SendQueue(c: Client, w: Window, frames: seq<Frame>, retired: seq<Retired>)
    requires Queue(w, frames, retired)
    ensures var o := SendCall(c, w); Queue(o.window, frames + o.frames, retired + Retires(Send, c, w))
  {
    hide Succeeded, Drop, Claim, PutCall, Calls, Finishes, Qids, EarliestFailure;
    assert frames + [] == frames && retired + [] == retired;
    if !w.failed && |w.out| < w.size {
      PutQueue(c, w, frames, retired);
    } else if !w.failed {
      var o, x := RetireOldest(c, w), Retired(w.out[0], Succeeded(c, w.out[0]));
      RetireQueue(c, w, frames, retired);
      if !o.window.failed {
        PutQueue(o.client, o.window, frames + o.frames, retired + [x]);
        assert frames + (o.frames + PutCall(o.client, o.window).frames) == frames + o.frames + PutCall(o.client, o.window).frames;
      }
    }
  }

  /** A run of a stream on a connection, from capnp_rpc_stream_init on; frames and retired
      are what its operations sent and retired up to each point. */
  datatype Run = Run(ops: seq<Op>, clients: seq<Client>, windows: seq<Window>, frames: seq<seq<Frame>>,
                     retired: seq<seq<Retired>>)

  predicate Next(r: Run, i: nat)
    requires i < |r.ops| && |r.clients| == |r.windows| == |r.frames| == |r.retired| == |r.ops| + 1
  {
    var o := Apply(r.ops[i], r.clients[i], r.windows[i]);
    && r.clients[i + 1] == o.client && r.windows[i + 1] == o.window
    && r.frames[i + 1] == r.frames[i] + o.frames
    && r.retired[i + 1] == r.retired[i] + Retires(r.ops[i], r.clients[i], r.windows[i])
  }

  predicate IsRun(r: Run, size: int): (b: bool)
    ensures b ==> |r.clients| == |r.windows| == |r.frames| == |r.retired| == |r.ops| + 1
  {
    && |r.clients| == |r.windows| == |r.frames| == |r.retired| == |r.ops| + 1
    && r.windows[0] == NewWindow(size) && r.frames[0] == [] && r.retired[0] == []
    && forall i :: 0 <= i < |r.ops| ==> Next(r, i)
  }

  /** In every run the stream is a bounded queue: its calls, in the order sent, are its
      Finishes, in the order sent, and then the outstanding calls, no more than the window. */
  lemma {:induction false} StreamIsQueue(r: Run, size: int, n: nat)
    requires IsRun(r, size) && n <= |r.ops|
    ensures Queue(r.windows[n], r.frames[n], r.retired[n])
  {
    hide Queue, Apply, Retires;
    if n == 0 {
      EmptyQueue(size);
    } else {
      StreamIsQueue(r, size, n - 1);
      assert Next(r, n - 1);
      StepQueue(r.ops[n - 1], r.clients[n - 1], r.windows[n - 1], r.frames[n - 1], r.retired[n - 1]);
    }
  }

  lemma EmptyQueue(size: int)
    ensures Queue(NewWindow(size), [], [])
  {
  }

  function CallCount(frames: seq<Frame>): nat
  {
    if frames == [] then 0 else CallCount(frames[..|frames| - 1]) + if frames[|frames| - 1].CallFrame? then 1 else 0
  }

  lemma {:induction false} CountCalls(frames: seq<Frame>)
    ensures CallCount(frames) >= |Calls(frames)|
    ensures CallCount(frames) == |Calls(frames)| <==> CallFrame(NO_ID) !in frames
  {
    if frames != [] {
      var n := |frames| - 1;
      CountCalls(frames[..n]);
      assert frames == frames[..n] + [frames[n]];
    }
  }

  /** In every run, the Calls sent are the Finishes sent and the outstanding calls, exactly
      when no Call was given the id that capnp_rpc_send_call reserves for its failure. */
  lemma CallsAccounted(r: Run, size: int, n: nat)
    requires IsRun(r, size) && n <= |r.ops|
    ensures CallCount(r.frames[n]) == |Finishes(r.frames[n])| + |r.windows[n].out| <==> CallFrame(NO_ID) !in r.frames[n]
  {
    hide IsRun, CallCount, Calls, Finishes;
    StreamIsQueue(r, size, n);
    CountCalls(r.frames[n]);
  }

  // ---- a call with the reserved id -----------------------------------------------------------

  /** A run with one more operation. */
  function Extended(r: Run, size: int, op: Op): (r': Run)
    requires IsRun(r, size)
    ensures IsRun(r', size) && r'.clients[0] == r.clients[0] && r'.ops == r.ops + [op]
    ensures var n := |r.ops|;
            var o := Apply(op, r.clients[n], r.windows[n]);
            r'.clients[n + 1] == o.client && r'.windows[n + 1] == o.window && r'.frames[n + 1] == r.frames[n] + o.frames
            && r'.clients[n] == r.clients[n] && r'.windows[n] == r.windows[n]
  {
    var n := |r.ops|;
    var c, w := r.clients[n], r.windows[n];
    var o := Apply(op, c, w);
    var next := Run(r.ops + [op], r.clients + [o.client], r.windows + [o.window], r.frames + [r.frames[n] + o.frames],
                    r.retired + [r.retired[n] + Retires(op, c, w)]);
    ExtendedRuns(r, size, op, next);
    next
  }

  lemma ExtendedRuns(r: Run, size: int, op: Op, next: Run)
    requires IsRun(r, size)
    requires var n := |r.ops|;
             var o := Apply(op, r.clients[n], r.windows[n]);
             next == Run(r.ops + [op], r.clients + [o.client], r.windows + [o.window], r.frames + [r.frames[n] + o.frames],
                         r.retired + [r.retired[n] + Retires(op, r.clients[n], r.windows[n])])
    ensures IsRun(next, size)
  {
    hide Apply, Retires;
    forall i | 0 <= i < |next.ops|
      ensures Next(next, i)
    {
      if i < |r.ops| {
        assert Next(r, i);
      }
    }
  }

  /** A connection that has asked nothing yet. */
  function NewClient(): Client
  {
    Client(seq(MAX_QUESTIONS, _ => Question(false, 0, false, false)), 0)
  }

  /** The stream has sent nothing, the first question is free, and the next id is n. */
  predicate Idle(r: Run, size: int, n: nat)
    requires IsRun(r, size)
  {
    var k := |r.ops|;
    && r.clients[0] == NewClient() && r.windows[k] == NewWindow(size) && r.frames[k] == []
    && |r.clients[k].questions| == MAX_QUESTIONS && !r.clients[k].questions[0].used && r.clients[k].nextId == n
  }

  lemma AskForget(c: Client)
    requires |c.questions| == MAX_QUESTIONS && !c.questions[0].used && c.nextId < ID_LIMIT - 1
    ensures var c' := Drop(Claim(c).0, c.nextId);
            |c'.questions| == MAX_QUESTIONS && !c'.questions[0].used && c'.nextId == c.nextId + 1
  {
    assert FreeQuestion()(c.questions[0]);
    assert HasId(c.nextId)(Claim(c).0.questions[0]);
  }

  /** Asking and finishing other questions, one at a time, brings the next id to any n. */
  lemma {:induction false} AskUpTo(size: int, n: nat) returns (r: Run)
    requires n < ID_LIMIT
    ensures IsRun(r, size) && Idle(r, size, n)
  {
    hide IsRun, Claim, Drop;
    if n == 0 {
      r := Run([], [NewClient()], [NewWindow(size)], [[]], [[]]);
      assert IsRun(r, size) by { StartRuns(r, size); }
    } else {
      r := AskUpTo(size, n - 1);
      var c := r.clients[|r.ops|];
      AskForget(c);
      r := Extended(r, size, Ask);
      r := Extended(r, size, Forget(n - 1));
    }
  }

  lemma StartRuns(r: Run, size: int)
    requires r == Run([], [NewClient()], [NewWindow(size)], [[]], [[]])
    ensures IsRun(r, size)
  {
  }

  /** A run of a fresh connection in which the stream's first call is given the reserved id:
      the Call is sent, the stream reports a failure and does not count it as outstanding. */
  lemma LostCall(size: int) returns (r: Run)
    ensures IsRun(r, size) && |r.ops| > 0 && r.clients[0] == NewClient() && r.ops[|r.ops| - 1] == Send
    ensures var n := |r.ops|;
            && r.frames[n] == [CallFrame(NO_ID)] && r.windows[n].out == [] && !r.windows[n].failed
            && SendCall(r.clients[n - 1], r.windows[n - 1]).rc == ErrAlloc
            && CallCount(r.frames[n]) != |Finishes(r.frames[n])| + |r.windows[n].out|
  {
    hide IsRun, CallCount, Finishes;
    r := AskUpTo(size, NO_ID);
    var c := r.clients[|r.ops|];
    assert FreeQuestion()(c.questions[0]);
    r := Extended(r, size, Send);
    assert r.ops[|r.ops| - 1] == Send;
    CallsAccounted(r, size, |r.ops|);
  }

  // ---- after a failure ---------------------------------------------------------------------

  /** No operation on a failed stream sends a Call, and a failed stream stays failed. */
  lemma FailedSendsNone(op: Op, c: Client, w: Window)
    requires w.failed
    ensures var o := Apply(op, c, w); o.window.failed && Calls(o.frames) == []
    ensures forall i :: 0 <= i < |Apply(op, c, w).frames| ==> !Apply(op, c, w).frames[i].CallFrame?
  {
    if op.Finish? {
      DrainSendsNone(c, w);
    }
  }

  lemma {:induction false} DrainSendsNone(c: Client, w: Window)
    ensures var o := Drain(c, w);
            && Calls(o.frames) == [] && (w.failed ==> o.window.failed)
            && forall i :: 0 <= i < |o.frames| ==> !o.frames[i].CallFrame?
    decreases |w.out|
  {
    hide Succeeded, Drop;
    if w.out != [] {
      var o := RetireOldest(c, w);
      DrainSendsNone(o.client, o.window);
      FramesConcat(o.frames, Drain(o.client, o.window).frames);
      OneFrame(o.frames[0]);
    }
  }

  /** In every run, no Call is sent once a failure is recorded. */
  lemma {:induction false} NoCallAfterFailure(r: Run, size: int, i: nat, n: nat)
    requires IsRun(r, size) && i <= n <= |r.ops| && r.windows[i].failed
    ensures r.windows[n].failed && |r.frames[i]| <= |r.frames[n]| && r.frames[n][..|r.frames[i]|] == r.frames[i]
    ensures forall t :: |r.frames[i]| <= t < |r.frames[n]| ==> !r.frames[n][t].CallFrame?
  {
    hide Apply, Retires;
    if i < n {
      NoCallAfterFailure(r, size, i, n - 1);
      assert Next(r, n - 1);
      FailedSendsNone(r.ops[n - 1], r.clients[n - 1], r.windows[n - 1]);
    }
  }

  /** In every run, finishing the stream empties the window, and returns OK exactly when
      every call of the stream had been answered with results when it was retired;
      otherwise first_failure is the first of them, in send order, that had not. */
  lemma FinishReports(r: Run, size: int, n: nat)
    requires IsRun(r, size) && n < |r.ops| && r.ops[n] == Finish
    ensures r.windows[n + 1].out == []
    ensures Qids(r.retired[n + 1]) == Calls(r.frames[n + 1])
    ensures var rc := Drain(r.clients[n], r.windows[n]).rc;
            var rs := r.retired[n + 1];
            && (rc == OK <==> AllOk(rs))
            && (rc != OK ==> rc == ErrArg && exists i: nat :: FirstBad(rs, i) && r.windows[n + 1].firstFailure == rs[i].qid)
  {
    hide Drain, Drained, Calls, Finishes, Qids, EarliestFailure;
    assert Next(r, n);
    StreamIsQueue(r, size, n);
    StreamIsQueue(r, size, n + 1);
    DrainQueue(r.clients[n], r.windows[n], r.frames[n], r.retired[n]);
    EarliestIs(r.retired[n + 1]);
  }
}
