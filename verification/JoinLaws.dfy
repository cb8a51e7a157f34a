/** What every message keeps true of the Join sets, and what a completed set answers. */
module JoinLaws {
  import opened Options
  import opened Tables
  import opened Rpc

  /** Questions of the parts seen among the first n. */
  function Parts(j: JoinSet, n: nat): multiset<nat>
  {
    if n == 0 then multiset{}
    else Parts(j, n - 1) + if n <= |j.seen| && n <= |j.qids| && j.seen[n - 1] then multiset{j.qids[n - 1]} else multiset{}
  }

  function PartsIn(): JoinSet -> multiset<nat>
  {
    (j: JoinSet) => if j.used then Parts(j, j.partCount) else multiset{}
  }

  /** Questions of the Joins a connection has yet to answer. */
  function Pending(joins: seq<JoinSet>): multiset<nat>
  {
    Collect(joins, PartsIn())
  }

  /** A set in use has at least one part, lacks at least one, and counts them right. */
  predicate Waiting(j: JoinSet)
  {
    && 1 <= j.nseen < j.partCount <= MAX_JOIN_PARTS
    && j.nseen == |Parts(j, j.partCount)|
  }

  predicate Distinct(joins: seq<JoinSet>)
  {
    forall a, b :: 0 <= a < b < |joins| && joins[a].used && joins[b].used ==> joins[a].joinId != joins[b].joinId
  }

  predicate JoinsOk(joins: seq<JoinSet>)
  {
    && SetsOk(joins) && Distinct(joins)
    && forall i :: 0 <= i < |joins| && joins[i].used ==> Waiting(joins[i])
  }

  function JoinAnswerId(): Effect -> multiset<nat>
  {
    (e: Effect) => if e.JoinResult? then multiset{e.qid} else multiset{}
  }

  /** Questions the Returns among the effects answer with a JoinResult. */
  function JoinAnswers(fx: seq<Effect>): multiset<nat>
  {
    Collect(fx, JoinAnswerId())
  }

  // ---- parts -----------------------------------------------------------------------------

  lemma {:induction false} PartsBound(j: JoinSet, n: nat)
    ensures |Parts(j, n)| <= n
  {
    if n > 0 {
      PartsBound(j, n - 1);
    }
  }

  lemma PartsNext(j: JoinSet, n: nat)
    requires 0 < n <= |j.seen| && n <= |j.qids|
    ensures |Parts(j, n)| == |Parts(j, n - 1)| + if j.seen[n - 1] then 1 else 0
  {
  }

  /** The first n parts are in. */
  predicate Full(j: JoinSet, n: nat)
    requires n <= |j.seen|
  {
    forall i :: 0 <= i < n ==> j.seen[i]
  }

  lemma FullNext(j: JoinSet, n: nat)
    requires 0 < n <= |j.seen|
    ensures Full(j, n) <==> Full(j, n - 1) && j.seen[n - 1]
  {
  }

  lemma NoParts(j: JoinSet)
    ensures Parts(j, 0) == multiset{} && Full(j, 0)
  {
  }

  /** As many parts as the set has: all of them. */
  lemma {:induction false} AllSeen(j: JoinSet, n: nat)
    requires n <= |j.seen| && n <= |j.qids|
    ensures |Parts(j, n)| == n <==> Full(j, n)
  {
    hide Parts, Full;
    if n == 0 {
      NoParts(j);
    } else {
      AllSeen(j, n - 1);
      PartsBound(j, n - 1);
      PartsNext(j, n);
      FullNext(j, n);
    }
  }

  lemma {:induction false} PartsEmpty(joinId: nat, partCount: nat, n: nat)
    ensures Parts(EmptySet(true, joinId, partCount), n) == multiset{}
  {
    if n > 0 {
      PartsEmpty(joinId, partCount, n - 1);
    }
  }

  /** Set s is j with part p in. */
  predicate With(j: JoinSet, s: JoinSet, p: nat, qid: nat)
  {
    && |j.seen| == |j.qids| && p < |j.seen| && !j.seen[p]
    && s.seen == j.seen[p := true] && s.qids == j.qids[p := qid]
  }

  /** The question of part i, if it has been seen. */
  function PartOf(j: JoinSet, i: nat): multiset<nat>
    requires i < |j.seen| && i < |j.qids|
  {
    if j.seen[i] then multiset{j.qids[i]} else multiset{}
  }

  lemma PartIs(j: JoinSet, n: nat)
    requires 0 < n <= |j.seen| && n <= |j.qids|
    ensures Parts(j, n) == Parts(j, n - 1) + PartOf(j, n - 1)
  {
  }

  lemma PartStays(j: JoinSet, s: JoinSet, p: nat, qid: nat, i: nat)
    requires With(j, s, p, qid) && i < |j.seen|
    ensures |s.seen| == |s.qids| == |j.seen|
    ensures i != p ==> PartOf(s, i) == PartOf(j, i)
    ensures i == p ==> PartOf(j, i) == multiset{} && PartOf(s, i) == multiset{qid}
  {
  }

  lemma {:induction false} PartsBefore(j: JoinSet, s: JoinSet, p: nat, qid: nat, n: nat)
    requires With(j, s, p, qid) && n <= p
    ensures Parts(s, n) == Parts(j, n)
  {
    if n > 0 {
      hide Parts, PartOf, With;
      PartsBefore(j, s, p, qid, n - 1);
      Lengths(j, s, p, qid);
      PartStays(j, s, p, qid, n - 1);
      PartIs(j, n);
      PartIs(s, n);
    }
  }

  lemma Lengths(j: JoinSet, s: JoinSet, p: nat, qid: nat)
    requires With(j, s, p, qid)
    ensures |s.seen| == |s.qids| == |j.seen| == |j.qids| && p < |j.seen|
  {
  }

  /** One more part: one more question waits. */
  lemma {:induction false} PartAdded(j: JoinSet, s: JoinSet, p: nat, qid: nat, n: nat)
    requires With(j, s, p, qid) && p < n <= |j.seen|
    ensures Parts(s, n) == Parts(j, n) + multiset{qid}
  {
    hide Parts, PartOf, With;
    Lengths(j, s, p, qid);
    PartStays(j, s, p, qid, n - 1);
    PartIs(j, n);
    PartIs(s, n);
    if n - 1 == p {
      PartsBefore(j, s, p, qid, n - 1);
      Nothing(Parts(j, n - 1));
    } else {
      PartAdded(j, s, p, qid, n - 1);
      Swap(Parts(j, n - 1), multiset{qid}, PartOf(j, n - 1));
    }
  }

  lemma Nothing(a: multiset<nat>)
    ensures a + multiset{} == a
  {
  }

  lemma Swap(a: multiset<nat>, b: multiset<nat>, c: multiset<nat>)
    ensures a + b + c == a + c + b
  {
  }

  /** The set a part goes to, as it is before and after. */
  lemma Added(joins: seq<JoinSet>, k: JoinKey, qid: nat, id: int)
    requires JoinsOk(joins) && KeyOk(k) && PartSlot(joins, k) >= 0 && -1 <= id < MAX_EXPORTS
    ensures var slot := PartSlot(joins, k);
            var j := WithPart(joins[slot], k, qid, id);
            && j.used && j.joinId == k.joinId && j.partCount == k.partCount
            && Parts(j, j.partCount) == PartsIn()(joins[slot]) + multiset{qid}
            && j.nseen == |Parts(j, j.partCount)| && 1 <= j.nseen <= j.partCount
            && (forall i :: 0 <= i < |joins| && i != slot && joins[i].used ==> joins[i].joinId != k.joinId)
  {
    var slot := PartSlot(joins, k);
    var before := joins[slot];
    var j := WithPart(before, k, qid, id);
    assert SetOk(before);
    if before.used {
      PartAdded(before, j, k.partNum, qid, j.partCount);
    } else {
      PartsEmpty(k.joinId, k.partCount, k.partCount);
      PartAdded(EmptySet(true, k.joinId, k.partCount), j, k.partNum, qid, j.partCount);
    }
    PartsBound(j, j.partCount);
  }

  /** A set short of a part is kept with the others. */
  lemma KeepsWaiting(joins: seq<JoinSet>, slot: nat, j: JoinSet)
    requires JoinsOk(joins) && slot < |joins| && SetOk(j)
    requires j.used ==> Waiting(j)
    requires j.used ==> forall i :: 0 <= i < |joins| && i != slot && joins[i].used ==> joins[i].joinId != j.joinId
    ensures JoinsOk(joins[slot := j])
  {
    hide Waiting, SetOk;
  }

  /** Every message keeps the Join sets in order. */
  lemma JoinKeeps(c: Conn, ps: seq<Provision>, qid: nat, target: Target, key: Option<JoinKey>)
    requires Sized(c) && JoinsOk(c.joins)
    ensures JoinsOk(OnJoin(c, ps, qid, target, key).conn.joins)
  {
    hide PartSlot, Resolve, WithPart, Parts, PartsIn, SetOk, Verdicts, AllSame, JoinsOk;
    if key.Some? && PartSlot(c.joins, key.value) >= 0 {
      var k, id := key.value, Resolve(c, target);
      PartAccepted(c.joins, k);
      Added(c.joins, k, qid, id);
      var slot := PartSlot(c.joins, k);
      var j := WithPart(c.joins[slot], k, qid, id);
      EmptyOk();
      KeepsWaiting(c.joins, slot, if j.nseen != j.partCount then j else EmptySet(false, 0, 0));
    }
  }

  lemma PartAccepted(joins: seq<JoinSet>, k: JoinKey)
    requires SetsOk(joins) && PartSlot(joins, k) >= 0
    ensures KeyOk(k) && SetOk(joins[PartSlot(joins, k)])
  {
  }

  lemma EmptyOk()
    ensures SetOk(EmptySet(false, 0, 0)) && !EmptySet(false, 0, 0).used
  {
  }

  // ---- the questions -------------------------------------------------------------------------

  /** The verdicts answer exactly the parts of the set. */
  lemma {:induction false} VerdictsAnswer(j: JoinSet, n: nat)
    requires SetOk(j) && 0 < j.partCount && n <= j.partCount && forall i :: 0 <= i < j.partCount ==> j.seen[i]
    ensures JoinAnswers(Verdicts(j, n)) == Parts(j, n)
    ensures forall i :: 0 <= i < n ==> Verdicts(j, n)[i].JoinResult?
  {
    hide AllSame;
    if n > 0 {
      VerdictsAnswer(j, n - 1);
      assert Verdicts(j, n)[..n - 1] == Verdicts(j, n - 1);
    }
  }

  /** The questions of Joins: one more received, and none forgotten or answered twice. */
  lemma JoinConserves(c: Conn, ps: seq<Provision>, qid: nat, target: Target, key: Option<JoinKey>)
    requires Sized(c) && JoinsOk(c.joins)
    ensures var o := OnJoin(c, ps, qid, target, key);
            && Pending(c.joins) + multiset{qid} == JoinAnswers(o.effects) + Pending(o.conn.joins)
            && (forall i :: 0 <= i < |o.effects| ==> o.effects[i].JoinResult?)
            && o.provisions == ps
  {
    hide PartSlot, Resolve, WithPart, SetOk, Verdicts, AllSame, JoinsOk, Parts, PartsIn;
    if key.None? || PartSlot(c.joins, key.value) < 0 {
      OneAnswer(JoinResult(qid, if key.None? then 0 else key.value.joinId, false, None));
    } else {
      var k, id := key.value, Resolve(c, target);
      PartAccepted(c.joins, k);
      Added(c.joins, k, qid, id);
      var slot := PartSlot(c.joins, k);
      var j := WithPart(c.joins[slot], k, qid, id);
      if j.nseen != j.partCount {
        NoAnswers();
        CollectUpdate(c.joins, PartsIn(), slot, j);
        Shifted(Pending(c.joins), Pending(c.joins[slot := j]), PartsIn()(c.joins[slot]), PartsIn()(j), qid) by { SetInUse(j); }
      } else {
        AllSeenHere(j);
        VerdictsAnswer(j, j.partCount);
        var none := EmptySet(false, 0, 0);
        CollectUpdate(c.joins, PartsIn(), slot, none);
        assert PartsIn()(none) == multiset{} by { SetNotInUse(none); }
        Emptied(Pending(c.joins), Pending(c.joins[slot := none]), PartsIn()(c.joins[slot]), Parts(j, j.partCount), qid);
      }
    }
  }

  lemma SetInUse(j: JoinSet)
    requires j.used
    ensures PartsIn()(j) == Parts(j, j.partCount)
  {
  }

  lemma SetNotInUse(j: JoinSet)
    requires !j.used
    ensures PartsIn()(j) == multiset{}
  {
  }

  lemma Shifted(before: multiset<nat>, after: multiset<nat>, old_: multiset<nat>, new_: multiset<nat>, qid: nat)
    requires after + old_ == before + new_ && new_ == old_ + multiset{qid}
    ensures before + multiset{qid} == after
  {
    forall q
      ensures (before + multiset{qid})[q] == after[q]
    {
      assert (after + old_)[q] == (before + new_)[q];
    }
  }

  lemma Emptied(before: multiset<nat>, after: multiset<nat>, old_: multiset<nat>, all: multiset<nat>, qid: nat)
    requires after + old_ == before + multiset{} && all == old_ + multiset{qid}
    ensures before + multiset{qid} == all + after
  {
    forall q
      ensures (before + multiset{qid})[q] == (all + after)[q]
    {
      assert (after + old_)[q] == before[q];
    }
  }

  lemma AllSeenHere(j: JoinSet)
    requires SetOk(j) && j.nseen == j.partCount && j.nseen == |Parts(j, j.partCount)|
    ensures forall i :: 0 <= i < j.partCount ==> j.seen[i]
  {
    AllSeen(j, j.partCount);
  }

  lemma OneAnswer(e: Effect)
    requires e.JoinResult?
    ensures JoinAnswers([e]) == multiset{e.qid}
  {
    CollectOne(e, JoinAnswerId());
  }

  lemma NoAnswers()
    ensures JoinAnswers([]) == multiset{}
  {
  }
}
