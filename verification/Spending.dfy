/** How many words and segments a message takes: the words asked for, the pads its pointers
    need, and segments that double in size. */
module Spending {
  import opened Message
  import opened SegmentSizes
  import opened Arena

  /** A builder that may begin segments of any size there is. */
  const UNLIMITED := Policy(MAX_SEGMENT_WORDS, false)

  /** Sizes a builder can have. */
  predicate Fine(z: seq<Size>)
  {
    |z| >= 1 && forall i :: 0 <= i < |z| ==> z[i].words <= z[i].cap <= MAX_SEGMENT_WORDS
  }

  /** Words in use, over all segments. */
  function WordsInUse(z: seq<Size>): nat
  {
    if z == [] then 0 else WordsInUse(z[..|z| - 1]) + z[|z| - 1].words
  }

  /** The sum of these numbers of words. */
  function Total(words: seq<nat>): nat
  {
    if words == [] then 0 else Total(words[..|words| - 1]) + words[|words| - 1]
  }

  /** c doubled k times. */
  function Doubling(c: nat, k: nat): nat
  {
    if k == 0 then c else 2 * Doubling(c, k - 1)
  }

  /** Each segment is twice the one before, from one of c words, up to the largest there is;
      and each was begun when the one before it was full. */
  predicate Doubled(z: seq<Size>, c: nat)
  {
    var k := |z|;
    && k >= 1
    && z[k - 1].cap >= Min(MAX_SEGMENT_WORDS, Doubling(c, k - 1))
    && (k >= 2 ==> WordsInUse(z) > Min(MAX_SEGMENT_WORDS, Doubling(c, k - 2)))
  }

  /** From a to b, n words were asked for, and at most p pads besides. */
  ghost predicate Spent(a: seq<Size>, b: seq<Size>, n: nat, p: nat)
  {
    && 1 <= |a| <= |b|
    && (|a| == 1 ==> (|b| == 1 <==> a[0].words + n <= a[0].cap))
    && (|a| == 1 && |b| == 1 ==> b[0] == Size(a[0].cap, a[0].words + n))
    && (WordsInUse(a) + n + p < MAX_SEGMENT_WORDS ==>
          WordsInUse(a) + n <= WordsInUse(b) <= WordsInUse(a) + n + p && forall c: nat :: Doubled(a, c) ==> Doubled(b, c))
  }

  lemma SpentThen(a: seq<Size>, b: seq<Size>, c: seq<Size>, n: nat, p: nat, m: nat, q: nat)
    requires Spent(a, b, n, p) && Spent(b, c, m, q)
    ensures Spent(a, c, n + m, p + q)
  {
    hide Doubled;
  }

  lemma SpentNone(z: seq<Size>)
    requires Fine(z)
    ensures Spent(z, z, 0, 0) && Spent(z, z, 0, 1)
  {
  }

  // ---- what the builder's operations spend -----------------------------------------------------

  lemma {:induction false} BumpedTotal(z: seq<Size>, seg: nat, cap: nat, n: nat)
    requires seg < |z|
    ensures WordsInUse(Bumped(z, seg, cap, n)) == WordsInUse(z) + n
  {
    var b, k := Bumped(z, seg, cap, n), |z| - 1;
    if seg < k {
      BumpedTotal(z[..k], seg, cap, n);
      assert b[..k] == Bumped(z[..k], seg, cap, n);
    } else {
      assert b[..k] == z[..k];
    }
  }

  lemma {:induction false} WordsWithin(z: seq<Size>, i: nat)
    requires i < |z|
    ensures z[i].words <= WordsInUse(z)
  {
    if i < |z| - 1 {
      WordsWithin(z[..|z| - 1], i);
    }
  }

  /** Words, or a pad, in a segment that is the last or not the only one. */
  lemma SpentIn(z: seq<Size>, seg: nat, cap: nat, n: nat, asked: nat, pads: nat)
    requires Fine(z) && seg < |z| && z[seg].cap <= cap && n == asked + pads
    requires |z| == 1 ==> pads == 0 && cap == z[0].cap && z[0].words + n <= cap
    ensures Spent(z, Bumped(z, seg, cap, n), asked, pads)
  {
    BumpedTotal(z, seg, cap, n);
  }

  /** Words in a new segment, since the last had no room for them. */
  lemma SpentNext(z: seq<Size>, n: nat)
    requires Fine(z) && !HasRoomFor(z[|z| - 1], n, MAX_SEGMENT_WORDS)
    ensures Spent(z, z + [Size(NextCap(z[|z| - 1].cap, n, MAX_SEGMENT_WORDS), n)], n, 0)
  {
    var k := |z|;
    var b := z + [Size(NextCap(z[k - 1].cap, n, MAX_SEGMENT_WORDS), n)];
    WordsWithin(z, k - 1);
    assert WordsInUse(b) == WordsInUse(z) + n by { assert b[..k] == z; }
    if WordsInUse(z) + n < MAX_SEGMENT_WORDS {
      forall c: nat | Doubled(z, c)
        ensures Doubled(b, c)
      {
        assert Doubling(c, k) == 2 * Doubling(c, k - 1);
      }
    }
  }

  /** alloc_words */
  lemma SpentAlloc(z: seq<Size>, n: nat)
    requires Fine(z) && n <= MAX_SEGMENT_WORDS
    ensures var b := AllocSizes(z, n, UNLIMITED).sizes; Fine(b) && Spent(z, b, n, 0)
  {
    hide Spent;
    var last := |z| - 1;
    if HasRoomFor(z[last], n, MAX_SEGMENT_WORDS) {
      SpentIn(z, last, z[last].cap, n, n, 0);
    } else {
      SpentNext(z, n);
    }
  }

  /** write_struct_ptr and write_list_ptr */
  lemma SpentLink(z: seq<Size>, slotSeg: nat, bodySeg: nat)
    requires Fine(z) && slotSeg < |z| && bodySeg < |z|
    ensures var b := LinkSizes(z, slotSeg, bodySeg, MAX_SEGMENT_WORDS); Fine(b) && Spent(z, b, 0, 1)
  {
    hide Doubled, DoubledTo;
    SpentNone(z);
    WordsWithin(z, bodySeg);
    if slotSeg != bodySeg && z[bodySeg].words + 1 <= MAX_SEGMENT_WORDS {
      SpentIn(z, bodySeg, GrownCap(z[bodySeg].cap, z[bodySeg].words + 1, MAX_SEGMENT_WORDS), 1, 0, 1);
    }
  }

  /** An object, and the pointer to it. */
  lemma SpentObject(z: seq<Size>, slotSeg: nat, n: nat)
    requires Fine(z) && slotSeg < |z| && n <= MAX_SEGMENT_WORDS
    ensures var b := ObjectSizes(z, slotSeg, n, UNLIMITED).sizes; Fine(b) && Spent(z, b, n, 1)
  {
    hide Spent, AllocSizes, LinkSizes, Fine;
    assert |z| >= 1;
    if n == 0 {
      SpentNone(z);
    } else {
      var to := AllocSizes(z, n, UNLIMITED);
      SpentAlloc(z, n);
      SpentLink(to.sizes, slotSeg, to.seg);
      SpentThen(z, to.sizes, LinkSizes(to.sizes, slotSeg, to.seg, MAX_SEGMENT_WORDS), n, 0, 0, 1);
    }
  }

  lemma {:induction false} SpentObjects(z: seq<Size>, slotSeg: nat, words: seq<nat>)
    requires Fine(z) && slotSeg < |z| && forall k :: 0 <= k < |words| ==> words[k] <= MAX_SEGMENT_WORDS
    ensures var b := ObjectsSizes(z, slotSeg, words, UNLIMITED); Fine(b) && Spent(z, b, Total(words), |words|)
  {
    hide Spent, ObjectSizes, Fine;
    if words == [] {
      SpentNone(z);
    } else {
      var n := |words| - 1;
      var before := ObjectsSizes(z, slotSeg, words[..n], UNLIMITED);
      SpentObjects(z, slotSeg, words[..n]);
      SpentObject(before, slotSeg, words[n]);
      SpentThen(z, before, ObjectSizes(before, slotSeg, words[n], UNLIMITED).sizes, Total(words[..n]), n, words[n], 1);
    }
  }

  /** A pointer list and the objects its elements lead to. */
  lemma SpentList(z: seq<Size>, slotSeg: nat, words: seq<nat>)
    requires Fine(z) && slotSeg < |z| && |words| <= MAX_SEGMENT_WORDS
    requires forall k :: 0 <= k < |words| ==> words[k] <= MAX_SEGMENT_WORDS
    ensures var b := ListSizes(z, slotSeg, words, UNLIMITED); Fine(b) && Spent(z, b, |words| + Total(words), 1 + |words|)
  {
    hide Spent, ObjectSizes, ObjectsSizes, Fine;
    var list := ObjectSizes(z, slotSeg, |words|, UNLIMITED);
    SpentObject(z, slotSeg, |words|);
    SpentObjects(list.sizes, list.seg, words);
    SpentThen(z, list.sizes, ObjectsSizes(list.sizes, list.seg, words, UNLIMITED), |words|, 1, Total(words), |words|);
  }

  // ---- a message of one struct and one list ----------------------------------------------------

  /** The segments of a message: the root pointer, a struct of `fields` words, and in it a
      pointer list of objects of these many words. */
  function MessageSizes(firstCap: nat, fields: nat, words: seq<nat>): seq<Size>
  {
    var root := AllocSizes([Size(firstCap, 0)], 1, UNLIMITED).sizes;
    var struct := ObjectSizes(root, 0, fields, UNLIMITED);
    ListSizes(struct.sizes, struct.seg, words, UNLIMITED)
  }

  /** The words it asks for. */
  function WordsAsked(fields: nat, words: seq<nat>): nat
  {
    1 + fields + |words| + Total(words)
  }

  /** With a pad for every pointer but the root's, they fit 16 segments that double. */
  predicate FitsReader(firstCap: nat, fields: nat, words: seq<nat>)
  {
    var most := WordsAsked(fields, words) + 2 + |words|;
    most < MAX_SEGMENT_WORDS && most <= 32768 * firstCap
  }

  /** It is one segment exactly if that holds the words asked for; and a reader takes it
      if they and the pads fit what 16 doubling segments hold. */
  lemma MessageSpent(firstCap: nat, fields: nat, words: seq<nat>)
    requires 1 <= firstCap <= MAX_SEGMENT_WORDS && fields <= MAX_SEGMENT_WORDS && |words| <= MAX_SEGMENT_WORDS
    requires forall k :: 0 <= k < |words| ==> words[k] <= MAX_SEGMENT_WORDS
    ensures var z := MessageSizes(firstCap, fields, words);
            && (|z| == 1 <==> WordsAsked(fields, words) <= firstCap)
            && (FitsReader(firstCap, fields, words) ==> |z| <= MAX_SEGMENTS)
  {
    hide Spent, ObjectSizes, ListSizes, AllocSizes, Doubled, WordsInUse, Total;
    var first := [Size(firstCap, 0)];
    FirstDoubled(firstCap);
    SpentAlloc(first, 1);
    var root := AllocSizes(first, 1, UNLIMITED).sizes;
    SpentObject(root, 0, fields);
    var struct := ObjectSizes(root, 0, fields, UNLIMITED);
    SpentList(struct.sizes, struct.seg, words);
    var whole := ListSizes(struct.sizes, struct.seg, words, UNLIMITED);
    SpentThen(first, root, struct.sizes, 1, 0, fields, 1);
    SpentThen(first, struct.sizes, whole, 1 + fields, 1, |words| + Total(words), 1 + |words|);
    SpentWhole(first, whole, firstCap, WordsAsked(fields, words), 2 + |words|);
  }

  lemma FirstDoubled(c: nat)
    ensures Doubled([Size(c, 0)], c) && WordsInUse([Size(c, 0)]) == 0
  {
    assert [Size(c, 0)][..0] == [];
  }

  lemma SpentWhole(a: seq<Size>, d: seq<Size>, c: nat, n: nat, p: nat)
    requires a == [Size(c, 0)] && Doubled(a, c) && WordsInUse(a) == 0 && Spent(a, d, n, p)
    ensures |d| == 1 <==> n <= c
    ensures n + p < MAX_SEGMENT_WORDS && n + p <= 32768 * c ==> |d| <= MAX_SEGMENTS
  {
    hide Doubled;
    if n + p < MAX_SEGMENT_WORDS && n + p <= 32768 * c {
      FewSegments(d, c);
    }
  }

  // ---- how segments grow -----------------------------------------------------------------------

  /** A segment made to hold more doubles its capacity as often as that takes, up to the limit. */
  lemma GrownDoubles(cap: nat, need: nat, lim: nat)
    requires cap > 0 && cap < need <= lim
    ensures exists k: nat :: DoublesTo(cap, need, k) && GrownCap(cap, need, lim) == Min(Doubling(cap, k), lim)
  {
    var k := DoubledIs(cap, need);
    DoublingStep(cap, need, k);
  }

  /** k doublings of cap cover the need, and fewer do not. */
  predicate DoublesTo(cap: nat, need: nat, k: nat)
  {
    Doubling(cap, k) >= need && (k > 0 ==> Doubling(cap, k - 1) < need)
  }

  lemma {:induction false} DoubledIs(cap: nat, need: nat) returns (k: nat)
    requires cap > 0
    ensures DoublesTo(cap, need, k) && DoubledTo(cap, need) == Doubling(cap, k)
    decreases need - cap
  {
    if cap >= need {
      k := 0;
    } else {
      var rest := DoubledIs(2 * cap, need);
      k := rest + 1;
      Again(cap, 1, rest);
      assert Doubling(cap, 1) == 2 * cap;
      if rest > 0 {
        Again(cap, 1, rest - 1);
      }
    }
  }

  lemma DoublingStep(cap: nat, need: nat, k: nat)
    requires cap > 0 && cap < need && DoubledTo(cap, need) == Doubling(cap, k)
    ensures DoubledTo(Twice(cap), need) == Doubling(cap, k)
  {
  }

  /** A pad that finds no room beside its body takes a segment of its own, which it fills. */
  lemma PadFills(z: seq<Size>, slotSeg: nat, bodySeg: nat, lim: nat)
    requires bodySeg < |z|
    ensures var b := LinkSizes(z, slotSeg, bodySeg, lim);
            && (|b| > |z| <==> slotSeg != bodySeg && z[bodySeg].words >= lim)
            && (|b| > |z| ==> b[..|z|] == z && b[|z|].words == 2 == b[|z|].cap && |b| == |z| + 1)
  {
  }

  // ---- how many segments that makes ----------------------------------------------------------------

  lemma {:induction false} DoublingMono(c: nat, j: nat, k: nat)
    requires j <= k
    ensures Doubling(c, j) <= Doubling(c, k)
    decreases k
  {
    if j < k {
      DoublingMono(c, j, k - 1);
    }
  }

  lemma Five(c: nat)
    ensures Doubling(c, 5) == 32 * c
  {
    assert Doubling(c, 1) == 2 * c;
    assert Doubling(c, 2) == 4 * c;
    assert Doubling(c, 3) == 8 * c;
    assert Doubling(c, 4) == 16 * c;
  }

  lemma Fifteen(c: nat)
    ensures Doubling(c, 15) == 32768 * c
  {
    Five(c);
    Again(c, 5, 5);
    Five(32 * c);
    Again(c, 10, 5);
    Five(1024 * c);
  }

  lemma {:induction false} Again(c: nat, j: nat, k: nat)
    ensures Doubling(c, j + k) == Doubling(Doubling(c, j), k)
  {
    if k > 0 {
      Again(c, j, k - 1);
    }
  }

  /** A message of segments that double from c words, and of no more words than the largest
      segment has and 32768 of the first, is one a reader takes. */
  lemma FewSegments(z: seq<Size>, c: nat)
    requires Doubled(z, c) && WordsInUse(z) <= Min(MAX_SEGMENT_WORDS, 32768 * c)
    ensures |z| <= MAX_SEGMENTS
  {
    Fifteen(c);
    if |z| > MAX_SEGMENTS {
      DoublingMono(c, 15, |z| - 2);
    }
  }
}
