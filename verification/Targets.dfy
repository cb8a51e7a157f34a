/** What a builder's pointer is meant to lead to, and the three encodings of it:
    near, far through a pad beside the body, double-far through a pad elsewhere. */
module Targets {
  import opened Arith
  import opened WirePointer
  import opened Message
  import opened Frames

  /** The dimensions write_struct_ptr and write_list_ptr are given. */
  datatype Target = ToStruct(dw: nat, pw: nat) | ToList(esize: nat, count: nat)

  function Make(t: Target, off: int): Word
  {
    match t
    case ToStruct(dw, pw) => MakeStruct(off, dw, pw)
    case ToList(esize, count) => MakeList(off, esize, count)
  }

  predicate TargetFits(t: Target)
  {
    match t
    case ToStruct(dw, pw) => dw + pw > 0 && dw < TWO_16 && pw < TWO_16
    case ToList(esize, count) => esize < 8 && count < TWO_29
  }

  /** The words of the body; the tag of a composite list says how many rows follow it. */
  function BodyWords(v: Segs, t: Target, seg: nat, word: nat): nat
  {
    match t
    case ToStruct(dw, pw) => dw + pw
    case ToList(esize, count) =>
      if esize != SZ_COMPOSITE then ListWords(esize, count)
      else if !InBounds(v, seg, word) then 1
      else
        var list := Composite(v, seg, word);
        1 + RowWords(list.count, list.dw + list.pw)
  }

  /** The body lies in its segment. */
  predicate BodyInside(v: Segs, t: Target, seg: nat, word: nat)
  {
    && TargetFits(t) && seg < |v| && word <= |v[seg]| && word + BodyWords(v, t, seg, word) <= |v[seg]|
  }

  /** The object the pointer should resolve to. */
  function Object(v: Segs, t: Target, seg: nat, word: nat): Ptr
    requires BodyInside(v, t, seg, word)
  {
    match t
    case ToStruct(dw, pw) => Struct(seg, word, dw, pw)
    case ToList(esize, count) =>
      if esize == SZ_COMPOSITE then Composite(v, seg, word) else List(seg, word, esize, count, 0, 0)
  }

  /** The words of a composite list are read by way of its tag. */
  function TagOf(t: Target, seg: nat, word: nat): set<Loc>
  {
    if t.ToList? && t.esize == SZ_COMPOSITE then {Loc(seg, word)} else {}
  }

  predicate SmallSegs(v: Segs)
  {
    |v| <= TWO_32 && forall i :: 0 <= i < |v| ==> |v[i]| <= TWO_29
  }

  // ---- near ------------------------------------------------------------------------------

  lemma NearStruct(v: Segs, seg: nat, at: nat, word: nat, t: Target, depth: nat)
    requires t.ToStruct? && BodyInside(v, t, seg, word) && SmallSegs(v) && at < TWO_29 && depth > 0
    ensures var w := Make(t, word - at - 1);
            && LookWord(v, seg, at, w, depth) == Found(Object(v, t, seg, word), BodyWords(v, t, seg, word))
            && Footprint(v, seg, at, w, depth) == {}
  {
    hide Kind, Offset, StructDwords, StructPwords, MakeStruct;
    StructFields(word - at - 1, t.dw, t.pw);
  }

  lemma NearPlain(v: Segs, seg: nat, at: nat, word: nat, t: Target, depth: nat)
    requires t.ToList? && t.esize != SZ_COMPOSITE && BodyInside(v, t, seg, word) && SmallSegs(v) && at < TWO_29 && depth > 0
    ensures var w := Make(t, word - at - 1);
            && LookWord(v, seg, at, w, depth) == Found(Object(v, t, seg, word), BodyWords(v, t, seg, word))
            && Footprint(v, seg, at, w, depth) == {}
  {
    hide Kind, Offset, ListEsize, ListCount, MakeList, ListBits;
    ListFields(word - at - 1, t.esize, t.count);
  }

  lemma NearComposite(v: Segs, seg: nat, at: nat, word: nat, t: Target, depth: nat)
    requires t.ToList? && t.esize == SZ_COMPOSITE && BodyInside(v, t, seg, word) && SmallSegs(v) && at < TWO_29 && depth > 0
    ensures var w := Make(t, word - at - 1);
            && LookWord(v, seg, at, w, depth) == Found(Object(v, t, seg, word), BodyWords(v, t, seg, word))
            && Footprint(v, seg, at, w, depth) == TagOf(t, seg, word)
  {
    hide Kind, Offset, ListEsize, ListCount, MakeList, RowWords, TagCount, StructDwords, StructPwords;
    ListFields(word - at - 1, t.esize, t.count);
  }

  /** A pointer word beside the body, with the offset to it. */
  lemma NearLook(v: Segs, seg: nat, at: nat, word: nat, t: Target, depth: nat)
    requires BodyInside(v, t, seg, word) && SmallSegs(v) && at < TWO_29 && depth > 0
    ensures var w := Make(t, word - at - 1);
            && LookWord(v, seg, at, w, depth) == Found(Object(v, t, seg, word), BodyWords(v, t, seg, word))
            && Footprint(v, seg, at, w, depth) == TagOf(t, seg, word)
  {
    hide LookWord, Footprint, Make, BodyWords, Object;
    match t
    case ToStruct(_, _) => NearStruct(v, seg, at, word, t, depth);
    case ToList(esize, _) =>
      if esize == SZ_COMPOSITE {
        NearComposite(v, seg, at, word, t, depth);
      } else {
        NearPlain(v, seg, at, word, t, depth);
      }
  }

  // ---- far ----------------------------------------------------------------------------------

  /** A far pointer to a pad beside the body, which holds the near pointer. */
  lemma FarLook(v: Segs, slotSeg: nat, slotWord: nat, seg: nat, pad: nat, word: nat, t: Target)
    requires BodyInside(v, t, seg, word) && SmallSegs(v)
    requires InBounds(v, seg, pad) && v[seg][pad] == Make(t, word - pad - 1)
    requires InBounds(v, slotSeg, slotWord) && v[slotSeg][slotWord] == MakeFar(false, pad, seg)
    ensures LookAt(v, slotSeg, slotWord) == Found(Object(v, t, seg, word), 2 + BodyWords(v, t, seg, word))
    ensures SlotFootprint(v, slotSeg, slotWord) == {Loc(seg, pad)} + TagOf(t, seg, word)
  {
    hide Make, BodyWords, Object, Kind, FarTwo, FarOff, FarSeg, MakeFar, LookStruct, LookList;
    FarFields(false, pad, seg);
    NearLook(v, seg, pad, word, t, DEPTH_LIMIT - 1);
  }

  lemma NearSlotLook(v: Segs, seg: nat, slot: nat, word: nat, t: Target)
    requires BodyInside(v, t, seg, word) && SmallSegs(v)
    requires InBounds(v, seg, slot) && v[seg][slot] == Make(t, word - slot - 1)
    ensures LookAt(v, seg, slot) == Found(Object(v, t, seg, word), 1 + BodyWords(v, t, seg, word))
    ensures SlotFootprint(v, seg, slot) == TagOf(t, seg, word)
  {
    hide Make, BodyWords, Object, LookWord, Footprint;
    NearLook(v, seg, slot, word, t, DEPTH_LIMIT);
  }

  // ---- double-far -----------------------------------------------------------------------------

  /** The charge for following a double-far pointer; the body of a plain list is not charged. */
  function DoubleFarCost(v: Segs, t: Target, seg: nat, word: nat): nat
  {
    2 + if t.ToList? && t.esize != SZ_COMPOSITE then 0 else BodyWords(v, t, seg, word)
  }

  lemma DoubleFarStruct(v: Segs, tseg: nat, pad: nat, seg: nat, word: nat, t: Target)
    requires t.ToStruct? && BodyInside(v, t, seg, word) && SmallSegs(v) && word < TWO_29
    requires InBounds(v, tseg, pad) && InBounds(v, tseg, pad + 1)
    requires v[tseg][pad] == MakeFar(false, word, seg) && v[tseg][pad + 1] == Make(t, 0)
    ensures LookDoubleFar(v, tseg, pad) == Found(Object(v, t, seg, word), DoubleFarCost(v, t, seg, word))
    ensures Kind(v[tseg][pad + 1]) != KIND_LIST
  {
    hide Kind, Offset, StructDwords, StructPwords, MakeStruct, FarTwo, FarOff, FarSeg, MakeFar;
    FarFields(false, word, seg);
    StructFields(0, t.dw, t.pw);
  }

  lemma DoubleFarList(v: Segs, tseg: nat, pad: nat, seg: nat, word: nat, t: Target)
    requires t.ToList? && BodyInside(v, t, seg, word) && SmallSegs(v) && word < TWO_29
    requires InBounds(v, tseg, pad) && InBounds(v, tseg, pad + 1)
    requires v[tseg][pad] == MakeFar(false, word, seg) && v[tseg][pad + 1] == Make(t, 0)
    ensures LookDoubleFar(v, tseg, pad) == Found(Object(v, t, seg, word), DoubleFarCost(v, t, seg, word))
    ensures ListEsize(v[tseg][pad + 1]) == t.esize && Kind(v[tseg][pad + 1]) == KIND_LIST
    ensures FarSeg(v[tseg][pad]) == seg && FarOff(v[tseg][pad]) == word
  {
    hide Kind, ListEsize, ListCount, MakeList, FarTwo, FarOff, FarSeg, MakeFar, ListBits, RowWords, TagCount,
         StructDwords, StructPwords;
    FarFields(false, word, seg);
    ListFields(0, t.esize, t.count);
  }

  /** A double-far pointer to a pad of two words: a far pointer to the body, and its tag. */
  lemma DoubleFarLook(v: Segs, slotSeg: nat, slotWord: nat, tseg: nat, pad: nat, seg: nat, word: nat, t: Target)
    requires BodyInside(v, t, seg, word) && SmallSegs(v) && word < TWO_29 && tseg < TWO_32
    requires InBounds(v, tseg, pad) && InBounds(v, tseg, pad + 1)
    requires v[tseg][pad] == MakeFar(false, word, seg) && v[tseg][pad + 1] == Make(t, 0)
    requires InBounds(v, slotSeg, slotWord) && v[slotSeg][slotWord] == MakeFar(true, pad, tseg)
    ensures LookAt(v, slotSeg, slotWord) == Found(Object(v, t, seg, word), 1 + DoubleFarCost(v, t, seg, word))
    ensures SlotFootprint(v, slotSeg, slotWord) == {Loc(tseg, pad), Loc(tseg, pad + 1)} + TagOf(t, seg, word)
  {
    hide Make, BodyWords, Object, Kind, ListEsize, FarTwo, FarOff, FarSeg, MakeFar, LookDoubleFar, LookStruct, LookList;
    FarFields(true, pad, tseg);
    match t
    case ToStruct(_, _) => DoubleFarStruct(v, tseg, pad, seg, word, t);
    case ToList(_, _) => DoubleFarList(v, tseg, pad, seg, word, t);
  }

  // ---- bodies stay put -----------------------------------------------------------------------

  lemma BodyKept(a: Segs, b: Segs, changed: set<Loc>, t: Target, seg: nat, word: nat)
    requires SameExcept(a, b, changed) && BodyInside(a, t, seg, word) && TagOf(t, seg, word) !! changed
    ensures BodyInside(b, t, seg, word) && BodyWords(b, t, seg, word) == BodyWords(a, t, seg, word)
    ensures Object(b, t, seg, word) == Object(a, t, seg, word)
  {
    hide ListWords, RowWords, TagCount, StructDwords, StructPwords;
    if t.ToList? && t.esize == SZ_COMPOSITE {
      assert Loc(seg, word) in TagOf(t, seg, word);
      assert SameAt(a, b, Loc(seg, word));
    }
  }

  /** The slot leads to the object, by words that are either the object's tag or new since v. */
  ghost predicate PointsTo(v: Segs, v': Segs, slot: Loc, t: Target, seg: nat, word: nat)
  {
    var l := LookAt(v', slot.seg, slot.word);
    && BodyInside(v', t, seg, word)
    && l.Found? && l.ptr == Object(v', t, seg, word) && l.cost <= 3 + BodyWords(v', t, seg, word)
    && forall p :: p in SlotFootprint(v', slot.seg, slot.word) ==>
         p in TagOf(t, seg, word) || (!InBounds(v, p.seg, p.word) && InBounds(v', p.seg, p.word))
  }
}
