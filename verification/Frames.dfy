/** What a pointer depends on: how following it is unaffected by other changes to the message. */
module Frames {
  import opened Arith
  import opened WirePointer
  import opened Message

  datatype Loc = Loc(seg: nat, word: int)

  /** No segment is dropped or shortened. */
  predicate Grown(a: Segs, b: Segs)
  {
    |a| <= |b| && forall i :: 0 <= i < |a| ==> |a[i]| <= |b[i]|
  }

  /** The word at l is in both, and the same. */
  predicate SameAt(a: Segs, b: Segs, l: Loc)
  {
    InBounds(a, l.seg, l.word) ==> InBounds(b, l.seg, l.word) && b[l.seg][l.word] == a[l.seg][l.word]
  }

  /** The message grew, and kept its words except those in `changed`. */
  ghost predicate SameExcept(a: Segs, b: Segs, changed: set<Loc>)
  {
    Grown(a, b) && forall l: Loc :: l !in changed ==> SameAt(a, b, l)
  }

  lemma GrownBy(a: Segs, b: Segs, changed: set<Loc>)
    requires SameExcept(a, b, changed)
    ensures Grown(a, b)
  {
  }

  lemma GrownInside(a: Segs, b: Segs, l: Loc)
    requires Grown(a, b) && InBounds(a, l.seg, l.word)
    ensures InBounds(b, l.seg, l.word)
  {
  }

  lemma SameExceptTrans(a: Segs, b: Segs, c: Segs, s: set<Loc>, t: set<Loc>)
    requires SameExcept(a, b, s) && SameExcept(b, c, t)
    ensures SameExcept(a, c, s + t)
  {
    forall l: Loc | l !in s + t
      ensures SameAt(a, c, l)
    {
      assert SameAt(a, b, l) && SameAt(b, c, l);
    }
  }

  /** The words, besides its own, that a pointer word is followed through. */
  function Footprint(segs: Segs, seg: nat, word: int, w: Word, depth: nat): set<Loc>
    decreases depth
  {
    if depth == 0 || w == 0 then {}
    else if Kind(w) == KIND_FAR then
      var tseg, toff := FarSeg(w), FarOff(w);
      if FarTwo(w) then
        {Loc(tseg, toff), Loc(tseg, toff + 1)} +
        if InBounds(segs, tseg, toff) && InBounds(segs, tseg, toff + 1)
             && Kind(segs[tseg][toff + 1]) == KIND_LIST && ListEsize(segs[tseg][toff + 1]) == SZ_COMPOSITE
        then {Loc(FarSeg(segs[tseg][toff]), FarOff(segs[tseg][toff]))} else {}
      else if !InBounds(segs, tseg, toff) then {}
      else {Loc(tseg, toff)} + Footprint(segs, tseg, toff, segs[tseg][toff], depth - 1)
    else if Kind(w) == KIND_LIST && ListEsize(w) == SZ_COMPOSITE then {Loc(seg, word + 1 + Offset(w))}
    else {}
  }

  lemma NearFrame(a: Segs, b: Segs, seg: nat, word: int, w: Word)
    requires Grown(a, b)
    requires Kind(w) == KIND_LIST && ListEsize(w) == SZ_COMPOSITE ==> SameAt(a, b, Loc(seg, word + 1 + Offset(w)))
    ensures Kind(w) == KIND_STRUCT && LookStruct(a, seg, word, w).Found? ==>
              LookStruct(b, seg, word, w) == LookStruct(a, seg, word, w)
    ensures Kind(w) == KIND_LIST && LookList(a, seg, word, w).Found? ==>
              LookList(b, seg, word, w) == LookList(a, seg, word, w)
  {
    hide Kind, Offset, ListEsize, ListCount, StructDwords, StructPwords, TagCount, RowWords, ListWords;
  }

  lemma DoubleFarFrame(a: Segs, b: Segs, tseg: nat, toff: nat)
    requires Grown(a, b) && LookDoubleFar(a, tseg, toff).Found?
    requires SameAt(a, b, Loc(tseg, toff)) && SameAt(a, b, Loc(tseg, toff + 1))
    requires InBounds(a, tseg, toff) && InBounds(a, tseg, toff + 1)
             && Kind(a[tseg][toff + 1]) == KIND_LIST && ListEsize(a[tseg][toff + 1]) == SZ_COMPOSITE
             ==> SameAt(a, b, Loc(FarSeg(a[tseg][toff]), FarOff(a[tseg][toff])))
    ensures LookDoubleFar(b, tseg, toff) == LookDoubleFar(a, tseg, toff)
  {
    hide Kind, ListEsize, ListCount, StructDwords, StructPwords, TagCount, RowWords, FarSeg, FarOff, FarTwo;
  }

  /** A pointer leads to the same object as long as its footprint is left alone. */
  lemma {:induction false} LookFrame(a: Segs, b: Segs, seg: nat, word: int, w: Word, depth: nat)
    requires Grown(a, b) && LookWord(a, seg, word, w, depth).Found?
    requires forall l :: l in Footprint(a, seg, word, w, depth) ==> SameAt(a, b, l)
    ensures LookWord(b, seg, word, w, depth) == LookWord(a, seg, word, w, depth)
    ensures Footprint(b, seg, word, w, depth) == Footprint(a, seg, word, w, depth)
    decreases depth
  {
    hide Kind, Offset, ListEsize, FarSeg, FarOff, FarTwo, LookStruct, LookList, LookDoubleFar, CapIndex, SameAt;
    if depth > 0 && w != 0 && Kind(w) == KIND_FAR {
      var tseg, toff := FarSeg(w), FarOff(w);
      if FarTwo(w) {
        assert Loc(tseg, toff) in Footprint(a, seg, word, w, depth);
        assert Loc(tseg, toff + 1) in Footprint(a, seg, word, w, depth);
        PadsKept(a, b, tseg, toff);
        DoubleFarFrame(a, b, tseg, toff);
      } else {
        var land := Loc(tseg, toff);
        assert land in Footprint(a, seg, word, w, depth);
        SameAtIs(a, b, land);
        assert Footprint(a, tseg, toff, a[tseg][toff], depth - 1) <= Footprint(a, seg, word, w, depth);
        LookFrame(a, b, tseg, toff, a[tseg][toff], depth - 1);
      }
    } else if depth > 0 && w != 0 {
      NearFrame(a, b, seg, word, w);
    }
  }

  lemma SameAtIs(a: Segs, b: Segs, l: Loc)
    requires SameAt(a, b, l) && InBounds(a, l.seg, l.word)
    ensures InBounds(b, l.seg, l.word) && b[l.seg][l.word] == a[l.seg][l.word]
  {
  }

  lemma PadsKept(a: Segs, b: Segs, tseg: nat, toff: nat)
    requires LookDoubleFar(a, tseg, toff).Found?
    requires SameAt(a, b, Loc(tseg, toff)) && SameAt(a, b, Loc(tseg, toff + 1))
    ensures InBounds(a, tseg, toff) && InBounds(a, tseg, toff + 1) && InBounds(b, tseg, toff) && InBounds(b, tseg, toff + 1)
    ensures b[tseg][toff] == a[tseg][toff] && b[tseg][toff + 1] == a[tseg][toff + 1]
  {
  }

  /** The words, besides its own, that the slot at (seg, word) depends on. */
  function SlotFootprint(segs: Segs, seg: nat, word: int): set<Loc>
  {
    if InBounds(segs, seg, word) then Footprint(segs, seg, word, segs[seg][word], DEPTH_LIMIT) else {}
  }

  lemma SlotFrame(a: Segs, b: Segs, seg: nat, word: int)
    requires Grown(a, b) && LookAt(a, seg, word).Found? && SameAt(a, b, Loc(seg, word))
    requires forall l :: l in SlotFootprint(a, seg, word) ==> SameAt(a, b, l)
    ensures LookAt(b, seg, word) == LookAt(a, seg, word)
    ensures SlotFootprint(b, seg, word) == SlotFootprint(a, seg, word)
  {
    hide LookWord, Footprint;
    LookFrame(a, b, seg, word, a[seg][word], DEPTH_LIMIT);
  }
}
