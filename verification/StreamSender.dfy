/** The stream functions of capnp_rpc.c, over the question table and the window's array. */
module StreamSender {
  import opened Options
  import opened Bytes
  import opened Tables
  import opened Streams

  /** The asking side of a connection. */
  class Caller {
    const questions: array<Question>
    var nextId: nat
    var outbox: seq<Frame>

    ghost function State(): Client
      reads this, questions
    {
      Client(questions[..], nextId)
    }

    constructor ()
      ensures fresh(questions) && questions.Length == MAX_QUESTIONS && nextId == 0 && outbox == []
      ensures forall i :: 0 <= i < MAX_QUESTIONS ==> !questions[i].used
    {
      questions := new Question[MAX_QUESTIONS](_ => Question(false, 0, false, false));
      nextId := 0;
      outbox := [];
    }

    /** question_find */
    method Find(qid: nat) returns (i: nat)
      ensures i == First(questions[..], HasId(qid))
    {
      i := 0;
      while i < questions.Length && !(questions[i].used && questions[i].id == qid)
        invariant i <= questions.Length && forall j :: 0 <= j < i ==> !HasId(qid)(questions[j])
      {
        i := i + 1;
      }
    }

    /** question_claim */
    method ClaimQuestion() returns (qid: Option<nat>)
      modifies this`nextId, questions
      ensures (State(), qid) == Claim(old(State()))
    {
      var i := 0;
      while i < questions.Length && questions[i].used
        invariant i <= questions.Length && forall j :: 0 <= j < i ==> !FreeQuestion()(questions[j])
      {
        i := i + 1;
      }
      assert i == First(questions[..], FreeQuestion());
      if i == questions.Length {
        return None;
      }
      qid := Some(nextId);
      questions[i] := Question(true, nextId, false, false);
      nextId := (nextId + 1) % ID_LIMIT;
    }

    /** capnp_rpc_send_call; NO_ID when the table is full. */
    method SendCallFrame() returns (qid: nat)
      modifies this`nextId, this`outbox, questions
      ensures State() == Claim(old(State())).0
      ensures var claimed := Claim(old(State())).1;
              if claimed.None? then qid == NO_ID && outbox == old(outbox)
              else qid == claimed.value && outbox == old(outbox) + [CallFrame(qid)]
    {
      var claimed := ClaimQuestion();
      if claimed.None? {
        return NO_ID;
      }
      qid := claimed.value;
      outbox := outbox + [CallFrame(qid)];
    }

    /** capnp_rpc_send_finish */
    method SendFinish(qid: nat)
      modifies this`outbox, questions
      ensures State() == Drop(old(State()), qid) && outbox == old(outbox) + [FinishFrame(qid)]
    {
      var i := Find(qid);
      if i < questions.Length {
        questions[i] := questions[i].(used := false);
      }
      outbox := outbox + [FinishFrame(qid)];
    }

    /** handle_return; `fits` when the reply is short enough to keep. */
    method HandleReturn(qid: nat, results: bool, fits: bool)
      modifies questions
      ensures State() == Record(old(State()), qid, results, fits)
    {
      var i := Find(qid);
      if i == questions.Length || !fits {
        return;
      }
      questions[i] := questions[i].(answered := true, failed := !results);
    }

    /** capnp_rpc_is_answered, and not capnp_rpc_is_failed */
    method HasResults(qid: nat) returns (ok: bool)
      ensures ok == Succeeded(State(), qid)
    {
      var i := Find(qid);
      ok := i < questions.Length && questions[i].answered && !questions[i].failed;
    }
  }

  /** capnp_rpc_stream_t */
  class Stream {
    const window: nat
    const qids: array<nat>
    var nout: nat
    var failed: bool
    var haveFailure: bool
    var firstFailure: nat

    ghost predicate Valid()
      reads this, qids
    {
      1 <= window <= qids.Length == MAX_WINDOW && nout <= window
    }

    ghost function State(): Window
      requires Valid()
      reads this, qids
    {
      Window(window, qids[..nout], failed, haveFailure, firstFailure)
    }

    /** capnp_rpc_stream_init */
    constructor (size: int)
      ensures Valid() && State() == NewWindow(size) && fresh(qids)
    {
      window := if size < 1 then 1 else if size > MAX_WINDOW then MAX_WINDOW else size;
      qids := new nat[MAX_WINDOW](_ => 0);
      nout := 0;
      failed := false;
      haveFailure := false;
      firstFailure := 0;
    }

    /** Move the outstanding calls down one place. */
    method Shift()
      requires Valid() && nout > 0
      modifies this`nout, qids
      ensures Valid() && nout == old(nout) - 1 && qids[..nout] == old(qids[1..nout])
    {
      var n := nout;
      for i := 1 to n
        invariant nout == n
        invariant forall k :: 0 <= k < i - 1 ==> qids[k] == old(qids[k + 1])
        invariant forall k :: i <= k < n ==> qids[k] == old(qids[k])
      {
        qids[i - 1] := qids[i];
      }
      nout := nout - 1;
    }

    /** stream_retire_oldest */
    method Retire(c: Caller)
      requires Valid()
      modifies this`nout, this`failed, this`haveFailure, this`firstFailure, qids, c`outbox, c.questions
      ensures Valid() && nout == if old(nout) == 0 then 0 else old(nout) - 1
      ensures var o := RetireOldest(old(c.State()), old(State()));
              State() == o.window && c.State() == o.client && c.outbox == old(c.outbox) + o.frames
    {
      hide Drop, Succeeded;
      if nout == 0 {
        return;
      }
      var qid := qids[0];
      Shift();
      var ok := c.HasResults(qid);
      if !ok {
        failed := true;
        if !haveFailure {
          haveFailure := true;
          firstFailure := qid;
        }
      }
      c.SendFinish(qid);
    }

    /** The call itself, in a window that has room. */
    method Put(c: Caller) returns (rc: Code)
      requires Valid() && nout < window
      modifies this`nout, qids, c`nextId, c`outbox, c.questions
      ensures Valid()
      ensures var o := PutCall(old(c.State()), old(State()));
              rc == o.rc && State() == o.window && c.State() == o.client && c.outbox == old(c.outbox) + o.frames
    {
      hide Claim;
      NotClaimed(c.State());
      var qid := c.SendCallFrame();
      if qid == NO_ID {
        return ErrAlloc;
      }
      qids[nout] := qid;
      nout := nout + 1;
      return OK;
    }

    /** capnp_rpc_stream_send */
    method Send(c: Caller) returns (rc: Code)
      requires Valid()
      modifies this, qids, c`nextId, c`outbox, c.questions
      ensures Valid()
      ensures var o := SendCall(old(c.State()), old(State()));
              rc == o.rc && State() == o.window && c.State() == o.client && c.outbox == old(c.outbox) + o.frames
    {
      hide PutCall, RetireOldest;
      if failed {
        return ErrArg;
      }
      if nout >= window {
        Retire(c);
        if failed {
          return ErrArg;
        }
      }
      rc := Put(c);
    }

    /** capnp_rpc_stream_finish */
    method Finish(c: Caller) returns (rc: Code)
      requires Valid()
      modifies this, qids, c`outbox, c.questions
      ensures Valid()
      ensures var o := Drain(old(c.State()), old(State()));
              rc == o.rc && State() == o.window && c.State() == o.client && c.outbox == old(c.outbox) + o.frames
    {
      hide RetireOldest;
      ghost var whole := Drain(c.State(), State());
      ghost var sent: seq<Frame> := [];
      assert whole.frames == sent + whole.frames;
      while nout > 0
        invariant Valid() && c.outbox == old(c.outbox) + sent
        invariant whole == Drain(c.State(), State()).(frames := sent + Drain(c.State(), State()).frames)
        decreases nout
      {
        ghost var o := RetireOldest(c.State(), State());
        ghost var rest := Drain(o.client, o.window);
        assert sent + (o.frames + rest.frames) == (sent + o.frames) + rest.frames;
        Retire(c);
        sent := sent + o.frames;
      }
      assert sent + [] == sent;
      return if haveFailure then ErrArg else OK;
    }
  }

  lemma NotClaimed(c: Client)
    ensures Claim(c).1.None? ==> Claim(c).0 == c
  {
  }
}
