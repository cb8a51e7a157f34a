/** What a stream's calls are judged by: the Returns received, over every run. */
module StreamVerdicts {
  import opened Options
  import opened Bytes
  import opened Tables
  import opened Streams

  // ---- what is heard of a question ---------------------------------------------------------

  /** The question table when an operation asks a question, if it comes to that. */
  function AskedFrom(op: Op, c: Client, w: Window): Option<seq<Question>>
  {
    match op
    case Ask => Some(c.questions)
    case Send =>
      if w.failed then None
      else if |w.out| < w.size then Some(c.questions)
      else if RetireOldest(c, w).window.failed then None
      else Some(RetireOldest(c, w).client.questions)
    case _ => None
  }

  /** The operation puts a new question in this slot: the first one free. */
  predicate Asks(op: Op, c: Client, w: Window, slot: nat)
  {
    var qs := AskedFrom(op, c, w);
    qs.Some? && slot < |qs.value| && !qs.value[slot].used && forall i :: 0 <= i < slot ==> qs.value[i].used
  }

  /** The operation is a Return, short enough to keep, to the question in this slot: the
      first in use with the Return's id. */
  predicate Answers(op: Op, c: Client, slot: nat)
  {
    && op.Return? && op.fits && slot < |c.questions| && c.questions[slot].used && c.questions[slot].id == op.qid
    && forall i :: 0 <= i < slot ==> !(c.questions[i].used && c.questions[i].id == op.qid)
  }

  /** The question in this slot has been answered with results. */
  predicate Good(c: Client, slot: nat)
  {
    slot < |c.questions| && c.questions[slot].answered && !c.questions[slot].failed
  }

  /** Questions may be dropped, and nothing else. */
  predicate OnlyDropped(c: Client, d: Client)
  {
    && |d.questions| == |c.questions| && d.nextId == c.nextId
    && forall i :: 0 <= i < |c.questions| ==>
         d.questions[i] == c.questions[i] || d.questions[i] == c.questions[i].(used := false)
  }

  lemma DropOnly(c: Client, qid: nat)
    ensures OnlyDropped(c, Drop(c, qid))
  {
  }

  lemma OnlyTrans(c: Client, d: Client, e: Client)
    requires OnlyDropped(c, d) && OnlyDropped(d, e)
    ensures OnlyDropped(c, e)
  {
  }

  lemma {:induction false} DrainOnly(c: Client, w: Window)
    ensures OnlyDropped(c, Drain(c, w).client)
    decreases |w.out|
  {
    hide Drop, Succeeded, OnlyDropped;
    if w.out == [] {
      SelfOnly(c);
    } else {
      var o := RetireOldest(c, w);
      DropOnly(c, w.out[0]);
      DrainOnly(o.client, o.window);
      OnlyTrans(c, o.client, Drain(o.client, o.window).client);
    }
  }

  lemma SelfOnly(c: Client)
    ensures OnlyDropped(c, c)
  {
  }

  lemma ClaimIs(c: Client, slot: nat)
    requires slot < |c.questions|
    ensures var (d, qid) := Claim(c);
            && |d.questions| == |c.questions|
            && d.questions[slot] == (if !c.questions[slot].used && forall i :: 0 <= i < slot ==> c.questions[i].used
                                     then Question(true, c.nextId, false, false) else c.questions[slot])
  {
    FirstAt(c.questions, FreeQuestion(), slot);
  }

  lemma RecordIs(c: Client, qid: nat, results: bool, fits: bool, slot: nat)
    requires slot < |c.questions|
    ensures var d := Record(c, qid, results, fits);
            && |d.questions| == |c.questions|
            && d.questions[slot] == (if Answers(Return(qid, results, fits), c, slot)
                                     then c.questions[slot].(answered := true, failed := !results) else c.questions[slot])
  {
    FirstAt(c.questions, HasId(qid), slot);
  }

  /** A question in a slot, after an operation: asked anew, answered, or as it was. */
  predicate Goes(op: Op, c: Client, w: Window, d: Client, slot: nat)
    requires slot < |c.questions| == |d.questions|
  {
    var q, q' := c.questions[slot], d.questions[slot];
    if Asks(op, c, w, slot) then q'.used && !q'.answered && !q'.failed
    else if Answers(op, c, slot) then q'.id == q.id && q'.answered && q'.failed == !op.results
    else q'.id == q.id && q'.answered == q.answered && q'.failed == q.failed
  }

  lemma SlotGoes(op: Op, c: Client, w: Window, slot: nat)
    requires slot < |c.questions|
    ensures var d := Apply(op, c, w).client; |d.questions| == |c.questions| && Goes(op, c, w, d, slot)
  {
    hide Drop, Claim, Record, Succeeded;
    match op
    case Send => SendGoes(c, w, slot);
    case Finish => DrainOnly(c, w);
    case Return(qid, results, fits) => RecordIs(c, qid, results, fits, slot);
    case Ask => ClaimIs(c, slot);
    case Forget(qid) => DropOnly(c, qid);
  }

  lemma SendGoes(c: Client, w: Window, slot: nat)
    requires slot < |c.questions|
    ensures var d := SendCall(c, w).client; |d.questions| == |c.questions| && Goes(Send, c, w, d, slot)
  {
    hide Drop, Claim, Succeeded;
    if !w.failed {
      if |w.out| < w.size {
        ClaimIs(c, slot);
      } else {
        var o := RetireOldest(c, w);
        SelfOnly(c);
        if w.out != [] {
          DropOnly(c, w.out[0]);
        }
        if !o.window.failed {
          ClaimIs(o.client, slot);
          NotClaimed(o.client);
        }
      }
      NotClaimed(c);
    }
  }

  lemma NotClaimed(c: Client)
    ensures Claim(c).1.None? ==> Claim(c).0 == c
  {
  }

  // ---- over a run ----------------------------------------------------------------------------

  predicate AnsweredAt(r: Run, t: nat, slot: nat)
    requires t < |r.ops| && |r.clients| == |r.ops| + 1
  {
    Answers(r.ops[t], r.clients[t], slot)
  }

  predicate AskedAt(r: Run, t: nat, slot: nat)
    requires t < |r.ops| && |r.clients| == |r.windows| == |r.ops| + 1
  {
    Asks(r.ops[t], r.clients[t], r.windows[t], slot)
  }

  /** From operation a until b, nothing is asked in the slot, nor answered there. */
  predicate Quiet(r: Run, a: nat, b: nat, slot: nat)
    requires a <= b <= |r.ops| && |r.clients| == |r.windows| == |r.ops| + 1
  {
    forall u :: a <= u < b ==> !AnsweredAt(r, u, slot) && !AskedAt(r, u, slot)
  }

  /** Operation t is the last Return heard of the question in the slot before operation n,
      and came after the question was asked. */
  predicate LastHeard(r: Run, t: nat, n: nat, slot: nat)
    requires n <= |r.ops| && |r.clients| == |r.windows| == |r.ops| + 1
  {
    t < n && AnsweredAt(r, t, slot) && Quiet(r, t + 1, n, slot)
  }

  /** The last Return heard of the question had results; or, if the run has neither asked it
      nor heard of it, it was answered with results when the run began. */
  predicate HeardResults(r: Run, n: nat, slot: nat)
    requires n <= |r.ops| && |r.clients| == |r.windows| == |r.ops| + 1
  {
    || (exists t :: 0 <= t < n && LastHeard(r, t, n, slot) && r.ops[t].results)
    || (Quiet(r, 0, n, slot) && Good(r.clients[0], slot))
  }

  lemma HeardNext(r: Run, size: int, n: nat, slot: nat)
    requires IsRun(r, size) && n < |r.ops|
    ensures HeardResults(r, n + 1, slot) <==>
              if AnsweredAt(r, n, slot) then r.ops[n].results else !AskedAt(r, n, slot) && HeardResults(r, n, slot)
  {
    hide IsRun, Answers, Asks, Good;
    if AnsweredAt(r, n, slot) {
      assert LastHeard(r, n, n + 1, slot);
      assert !Quiet(r, 0, n + 1, slot);
      NotQuiet(r, n, n + 1, slot);
    } else if AskedAt(r, n, slot) {
      assert !Quiet(r, 0, n + 1, slot);
      NotQuiet(r, n, n + 1, slot);
      assert !LastHeard(r, n, n + 1, slot);
    } else {
      assert Quiet(r, 0, n + 1, slot) <==> Quiet(r, 0, n, slot);
      forall t | 0 <= t < n
        ensures LastHeard(r, t, n + 1, slot) <==> LastHeard(r, t, n, slot)
      {
        assert Quiet(r, t + 1, n + 1, slot) <==> Quiet(r, t + 1, n, slot);
      }
      assert !LastHeard(r, n, n + 1, slot);
    }
  }

  /** What was heard before operation n is not the last, if something was heard or asked then. */
  lemma NotQuiet(r: Run, n: nat, m: nat, slot: nat)
    requires n < |r.ops| && m == n + 1 && |r.clients| == |r.windows| == |r.ops| + 1
    requires (AnsweredAt(r, n, slot) || AskedAt(r, n, slot))
    ensures forall t :: 0 <= t < n ==> !LastHeard(r, t, m, slot)
  {
    hide Answers, Asks;
  }

  /** In every run a question counts as answered with results exactly when the last Return
      heard of it since it was asked had results. */
  lemma {:induction false} SlotHeard(r: Run, size: int, n: nat, slot: nat)
    requires IsRun(r, size) && n <= |r.ops| && slot < |r.clients[0].questions|
    ensures |r.clients[n].questions| == |r.clients[0].questions|
    ensures Good(r.clients[n], slot) <==> HeardResults(r, n, slot)
  {
    hide Apply, Answers, Asks, HeardResults, Retires;
    if n == 0 {
      HeardFirst(r, slot);
    } else {
      SlotHeard(r, size, n - 1, slot);
      assert Next(r, n - 1);
      SlotGoes(r.ops[n - 1], r.clients[n - 1], r.windows[n - 1], slot);
      AskOrAnswer(r.ops[n - 1], r.clients[n - 1], r.windows[n - 1], slot);
      HeardNext(r, size, n - 1, slot);
    }
  }

  lemma AskOrAnswer(op: Op, c: Client, w: Window, slot: nat)
    ensures !(Asks(op, c, w, slot) && Answers(op, c, slot))
  {
  }

  lemma HeardFirst(r: Run, slot: nat)
    requires |r.clients| == |r.windows| == |r.ops| + 1
    ensures HeardResults(r, 0, slot) <==> Good(r.clients[0], slot)
  {
  }

  /** A Return heard of the question in a slot carries that question's id. */
  lemma {:induction false} HeardOf(r: Run, size: int, t: nat, n: nat, slot: nat)
    requires IsRun(r, size) && t < n <= |r.ops| && LastHeard(r, t, n, slot)
    ensures slot < |r.clients[n].questions| && r.clients[n].questions[slot].id == r.ops[t].qid
    decreases n
  {
    hide Apply, Asks, Retires;
    assert Next(r, n - 1);
    if n > t + 1 {
      assert Quiet(r, t + 1, n - 1, slot) && !AskedAt(r, n - 1, slot);
      HeardOf(r, size, t, n - 1, slot);
    }
    SlotGoes(r.ops[n - 1], r.clients[n - 1], r.windows[n - 1], slot);
    AskOrAnswer(r.ops[n - 1], r.clients[n - 1], r.windows[n - 1], slot);
  }

  // ---- the calls retired --------------------------------------------------------------------------

  function DropAll(c: Client, qids: seq<nat>): Client
    decreases |qids|
  {
    if qids == [] then c else DropAll(Drop(c, qids[0]), qids[1..])
  }

  /** The calls operation n retires. */
  function RetiredAt(r: Run, n: nat): seq<Retired>
    requires n < |r.ops| && |r.clients| == |r.windows| == |r.ops| + 1
  {
    Retires(r.ops[n], r.clients[n], r.windows[n])
  }

  /** The slot of the question meant by the k-th call an operation retires: the first in
      use with its id, when those before it have been finished. */
  function MeantSlot(c: Client, out: seq<nat>, k: nat): nat
    requires k < |out|
  {
    First(DropAll(c, out[..k]).questions, HasId(out[k]))
  }

  lemma {:induction false} DropAllOnly(c: Client, qids: seq<nat>)
    ensures OnlyDropped(c, DropAll(c, qids))
    decreases |qids|
  {
    hide Drop, OnlyDropped;
    if qids == [] {
      SelfOnly(c);
    } else {
      DropOnly(c, qids[0]);
      DropAllOnly(Drop(c, qids[0]), qids[1..]);
      OnlyTrans(c, Drop(c, qids[0]), DropAll(c, qids));
    }
  }

  lemma {:induction false} DrainedAt(c: Client, out: seq<nat>, k: nat)
    requires k < |out|
    ensures |Drained(c, out)| == |out|
    ensures Drained(c, out)[k] == Retired(out[k], Succeeded(DropAll(c, out[..k]), out[k]))
    decreases |out|
  {
    hide Drop, Succeeded;
    if |out| > 1 {
      DrainedAt(Drop(c, out[0]), out[1..], if k > 0 then k - 1 else 0);
    }
    if k > 0 {
      assert out[..k][0] == out[0] && out[..k][1..] == out[1..][..k - 1];
    }
  }

  /** The k-th call operation n retires is one whose last Return, heard since it was asked
      and before it was retired, had results. */
  predicate WellAnswered(r: Run, n: nat, k: nat)
    requires n < |r.ops| && |r.clients| == |r.windows| == |r.ops| + 1 && k < |r.windows[n].out|
  {
    var slot := MeantSlot(r.clients[n], r.windows[n].out, k);
    slot < |r.clients[n].questions| && HeardResults(r, n, slot)
  }

  /** So it is judged. */
  lemma Judged(r: Run, size: int, n: nat, k: nat)
    requires IsRun(r, size) && n < |r.ops| && k < |RetiredAt(r, n)|
    ensures k < |r.windows[n].out| && RetiredAt(r, n)[k] == Retired(r.windows[n].out[k], WellAnswered(r, n, k))
  {
    hide IsRun, HeardResults, Drop;
    var c, w := r.clients[n], r.windows[n];
    if w.out != [] {
      DrainedAt(c, w.out, if k < |w.out| then k else 0);
    }
    RetiredWhich(r, n, k);
    JudgedBy(c, w.out, k);
    var slot := MeantSlot(c, w.out, k);
    if slot < |c.questions| {
      SizesKept(r, size, n);
      SlotHeard(r, size, n, slot);
    }
  }

  lemma RetiredWhich(r: Run, n: nat, k: nat)
    requires n < |r.ops| && |r.clients| == |r.windows| == |r.ops| + 1 && k < |RetiredAt(r, n)|
    ensures k < |r.windows[n].out|
    ensures var c, out := r.clients[n], r.windows[n].out;
            RetiredAt(r, n)[k] == Retired(out[k], Succeeded(DropAll(c, out[..k]), out[k]))
  {
    hide Drop, Succeeded;
    var w := r.windows[n];
    if r.ops[n].Finish? {
      if w.out != [] {
        DrainedAt(r.clients[n], w.out, 0);
        DrainedAt(r.clients[n], w.out, k);
      }
    } else {
      assert w.out[..0] == [];
    }
  }

  lemma JudgedBy(c: Client, out: seq<nat>, k: nat)
    requires k < |out|
    ensures var slot := MeantSlot(c, out, k);
            Succeeded(DropAll(c, out[..k]), out[k]) <==> slot < |c.questions| && Good(c, slot)
  {
    hide Drop, DropAll;
    DropAllOnly(c, out[..k]);
  }

  lemma {:induction false} SizesKept(r: Run, size: int, n: nat)
    requires IsRun(r, size) && n <= |r.ops|
    ensures |r.clients[n].questions| == |r.clients[0].questions|
  {
    hide Apply, Retires, Goes;
    if n > 0 {
      SizesKept(r, size, n - 1);
      assert Next(r, n - 1);
      TableKept(r.ops[n - 1], r.clients[n - 1], r.windows[n - 1]);
    }
  }

  lemma TableKept(op: Op, c: Client, w: Window)
    ensures |Apply(op, c, w).client.questions| == |c.questions|
  {
    hide Drop, Claim, Record, Succeeded;
    TableSizes(c);
    match op
    case Finish => DrainOnly(c, w);
    case Return(qid, results, fits) => RecordSize(c, qid, results, fits);
    case Forget(qid) => DropOnly(c, qid);
    case Ask =>
    case Send =>
      if w.out != [] {
        DropOnly(c, w.out[0]);
        TableSizes(Drop(c, w.out[0]));
      }
  }

  lemma TableSizes(c: Client)
    ensures |Claim(c).0.questions| == |c.questions|
  {
  }

  lemma RecordSize(c: Client, qid: nat, results: bool, fits: bool)
    ensures |Record(c, qid, results, fits).questions| == |c.questions|
  {
  }

  // ---- what finishing reports -------------------------------------------------------------------------

  /** Every call retired by the first n operations was well answered. */
  predicate AllWell(r: Run, n: nat)
    requires n <= |r.ops| && |r.clients| == |r.windows| == |r.ops| + 1
  {
    forall m :: 0 <= m < n ==> AllWellAt(r, m, |RetiredAt(r, m)|)
  }

  /** So were the first `count` that operation m retired. */
  predicate AllWellAt(r: Run, m: nat, count: nat)
    requires m < |r.ops| && |r.clients| == |r.windows| == |r.ops| + 1
  {
    forall k :: 0 <= k < count && k < |r.windows[m].out| ==> WellAnswered(r, m, k)
  }

  /** The k-th call operation m retired is the first that was not well answered. */
  predicate FirstUnwell(r: Run, m: nat, k: nat)
    requires m < |r.ops| && |r.clients| == |r.windows| == |r.ops| + 1
  {
    && k < |RetiredAt(r, m)| && k < |r.windows[m].out|
    && AllWell(r, m) && AllWellAt(r, m, k) && !WellAnswered(r, m, k)
  }

  lemma {:induction false} AllJudged(r: Run, size: int, n: nat)
    requires IsRun(r, size) && n <= |r.ops|
    ensures AllOk(r.retired[n]) <==> AllWell(r, n)
  {
    hide Apply, Retires, WellAnswered;
    if n > 0 {
      var m := n - 1;
      AllJudged(r, size, m);
      assert Next(r, m);
      assert r.retired[n] == r.retired[m] + RetiredAt(r, m);
      AllOkConcat(r.retired[m], RetiredAt(r, m));
      JudgedTogether(r, size, m, |RetiredAt(r, m)|);
      assert RetiredAt(r, m)[..|RetiredAt(r, m)|] == RetiredAt(r, m);
      assert AllWell(r, n) <==> AllWell(r, m) && AllWellAt(r, m, |RetiredAt(r, m)|);
    }
  }

  lemma AllOkConcat(a: seq<Retired>, b: seq<Retired>)
    ensures AllOk(a + b) <==> AllOk(a) && AllOk(b)
  {
    if AllOk(a + b) {
      forall i | 0 <= i < |b|
        ensures b[i].ok
      {
        assert b[i] == (a + b)[|a| + i];
      }
      forall i | 0 <= i < |a|
        ensures a[i].ok
      {
        assert a[i] == (a + b)[i];
      }
    }
  }

  lemma JudgedTogether(r: Run, size: int, m: nat, count: nat)
    requires IsRun(r, size) && m < |r.ops| && count <= |RetiredAt(r, m)|
    ensures AllOk(RetiredAt(r, m)[..count]) <==> AllWellAt(r, m, count)
  {
    hide IsRun, Retires, WellAnswered;
    forall k | 0 <= k < count
      ensures k < |r.windows[m].out| && (RetiredAt(r, m)[..count][k].ok <==> WellAnswered(r, m, k))
    {
      Judged(r, size, m, k);
    }
    assert AllOk(RetiredAt(r, m)[..count]) <==> forall k :: 0 <= k < count ==> RetiredAt(r, m)[..count][k].ok;
  }

  /** The first call not well answered, found from its place among those retired. */
  lemma {:induction false} FirstFound(r: Run, size: int, n: nat, i: nat) returns (m: nat, k: nat)
    requires IsRun(r, size) && n <= |r.ops| && FirstBad(r.retired[n], i)
    ensures m < n && FirstUnwell(r, m, k) && r.retired[n][i].qid == r.windows[m].out[k]
  {
    hide Apply, Retires, WellAnswered;
    m, k := n, 0;
    if n == 0 {
      NoneRetired(r, size);
    } else {
      m := n - 1;
      assert Next(r, m);
      var before := r.retired[m];
      assert r.retired[n] == before + RetiredAt(r, m);
      if i < |before| {
        assert r.retired[n][..i] == before[..i];
        m, k := FirstFound(r, size, n - 1, i);
      } else {
        k := i - |before|;
        assert r.retired[n][..i] == before + RetiredAt(r, m)[..k];
        AllOkConcat(before, RetiredAt(r, m)[..k]);
        AllJudged(r, size, m);
        JudgedTogether(r, size, m, k);
        Judged(r, size, m, k);
      }
    }
  }

  lemma NoneRetired(r: Run, size: int)
    requires IsRun(r, size)
    ensures r.retired[0] == []
  {
  }

  /** In every run, finishing the stream returns OK exactly when, of every call the stream
      ever retired, the last Return heard since it was asked had results; otherwise
      first_failure is the first of them of which that is not so. */
  lemma FinishHeard(r: Run, size: int, n: nat)
    requires IsRun(r, size) && n < |r.ops| && r.ops[n] == Finish
    ensures var rc := Drain(r.clients[n], r.windows[n]).rc;
            && (rc == OK <==> AllWell(r, n + 1))
            && (rc != OK ==> rc == ErrArg)
            && (rc != OK ==>
                 exists m: nat, k: nat :: m <= n && FirstUnwell(r, m, k) && r.windows[n + 1].firstFailure == r.windows[m].out[k])
  {
    hide IsRun, Drain, AllWell, FirstUnwell;
    FinishReports(r, size, n);
    AllJudged(r, size, n + 1);
    if Drain(r.clients[n], r.windows[n]).rc != OK {
      var rs := r.retired[n + 1];
      var i: nat :| FirstBad(rs, i) && r.windows[n + 1].firstFailure == rs[i].qid;
      var m, k := FirstFound(r, size, n + 1, i);
    }
  }

  // ---- when a call is retired ------------------------------------------------------------------------

  /** In every run the window is as wide as asked for, between 1 and 64. */
  lemma {:induction false} WindowSize(r: Run, size: int, n: nat)
    requires IsRun(r, size) && n <= |r.ops|
    ensures r.windows[n].size == if size < 1 then 1 else if size > MAX_WINDOW then MAX_WINDOW else size
  {
    hide Retires;
    if n > 0 {
      WindowSize(r, size, n - 1);
      assert Next(r, n - 1);
      SizeStays(r.ops[n - 1], r.clients[n - 1], r.windows[n - 1]);
    }
  }

  lemma {:induction false} SizeStays(op: Op, c: Client, w: Window)
    ensures Apply(op, c, w).window.size == w.size
    decreases |w.out|
  {
    hide Succeeded, Drop, Claim, Record;
    if op.Finish? && w.out != [] {
      var o := RetireOldest(c, w);
      SizeStays(Finish, o.client, o.window);
    }
  }

  /** A Send finishes these calls, and puts a Call, if it does, with the next id; it returns
      OK exactly when it put one with an id it can tell from failure, and `why` otherwise. */
  predicate Sent(o: Outcome, finished: seq<nat>, put: bool, id: nat, why: Code)
  {
    && Finishes(o.frames) == finished
    && CallCount(o.frames) == (if put then 1 else 0)
    && (put ==> o.frames != [] && o.frames[|o.frames| - 1] == CallFrame(id))
    && o.rc == if put && id != NO_ID then OK else if put then ErrAlloc else why
  }

  ghost predicate SomeFree(c: Client)
  {
    exists i :: FreeAfter(c, i)
  }

  /** Outside of finishing, a stream retires a call only to make room in a full window, and
      then its oldest and no other; it sends a Call unless it has failed, or no question is
      free. */
  lemma SendSends(c: Client, w: Window)
    requires w.size >= 1
    ensures var o := SendCall(c, w);
            if w.failed then Sent(o, [], false, 0, ErrArg)
            else if |w.out| < w.size then Sent(o, [], SomeFree(c), c.nextId, ErrAlloc)
            else if Succeeded(c, w.out[0]) then Sent(o, [w.out[0]], SomeFree(Drop(c, w.out[0])), c.nextId, ErrAlloc)
            else Sent(o, [w.out[0]], false, 0, ErrArg)
  {
    hide Succeeded, Drop, Calls, Finishes, CallCount;
    NoFrames();
    CountNoFrames();
    if !w.failed {
      if |w.out| < w.size {
        PutSends(c, w);
      } else {
        var x := FinishFrame(w.out[0]);
        OneFrame(x);
        CountOne(x);
        DropOnly(c, w.out[0]);
        var o := RetireOldest(c, w);
        if !o.window.failed {
          PutSends(o.client, o.window);
          var p := PutCall(o.client, o.window);
          FramesConcat([x], p.frames);
          assert [w.out[0]] + [] == [w.out[0]];
          if p.frames == [] {
            assert [x] + p.frames == [x];
          } else {
            assert p.frames == [p.frames[0]];
            CountOne(p.frames[0]);
            CountTwo(x, p.frames[0]);
          }
        }
      }
    }
  }

  lemma PutSends(c: Client, w: Window)
    ensures var p := PutCall(c, w);
            && Sent(p, [], SomeFree(c), c.nextId, ErrAlloc) && |p.frames| <= 1 && (p.frames != [] ==> p.frames[0].CallFrame?)
  {
    hide Calls, Finishes, CallCount;
    NoFrames();
    CountNoFrames();
    ClaimFree(c);
    if Claim(c).1.Some? {
      OneFrame(CallFrame(Claim(c).1.value));
      CountOne(CallFrame(Claim(c).1.value));
    }
  }

  predicate FreeAfter(c: Client, i: nat)
  {
    i < |c.questions| && !c.questions[i].used
  }

  lemma ClaimFree(c: Client)
    ensures Claim(c).1.Some? <==> SomeFree(c)
  {
    var i := First(c.questions, FreeQuestion());
    if i < |c.questions| {
      assert FreeAfter(c, i);
    } else {
      assert forall j :: 0 <= j < |c.questions| ==> !FreeQuestion()(c.questions[j]);
    }
  }

  lemma CountNoFrames()
    ensures CallCount([]) == 0
  {
  }

  lemma CountOne(f: Frame)
    ensures CallCount([f]) == if f.CallFrame? then 1 else 0
  {
    assert [f][..|[f]| - 1] == [];
  }

  lemma CountTwo(f: Frame, g: Frame)
    ensures CallCount([f] + [g]) == (if f.CallFrame? then 1 else 0) + (if g.CallFrame? then 1 else 0)
  {
    assert ([f] + [g])[..1] == [f];
    CountOne(f);
  }
}
