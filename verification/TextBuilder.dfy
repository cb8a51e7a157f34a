/** write_text_at and capnp_builder_set_list_text_n. */
module TextBuilder {
  import opened Bytes
  import opened WirePointer
  import opened Message
  import opened Frames
  import opened Targets
  import opened Arena
  import opened Texts
  import opened SegmentSizes

  /** A block filled right after it was allocated changes nothing that was there before. */
  lemma FilledKeeps(v: Segs, v1: Segs, seg: nat, at: nat, n: nat, ws: seq<Word>)
    requires Allocated(v, v1, seg, at, n) && |ws| == n
    ensures seg < |v1| && at + n <= |v1[seg]| && |v1| <= |v| + 1
    ensures var v2 := StoredRun(v1, seg, at, ws);
            SameExcept(v, v2, {}) && BlockAt(v2, seg, at, ws) && |v2[seg]| == at + n
    ensures forall k :: at <= k < at + n ==> !InBounds(v, seg, k)
  {
    AllocatedKeeps(v, v1, seg, at, n);
    var v2 := StoredRun(v1, seg, at, ws);
    assert v2[seg][at..at + n] == ws;
    forall l: Loc | l !in {}
      ensures SameAt(v, v2, l)
    {
    }
  }

  lemma TextBody(v: Segs, seg: nat, at: nat, text: seq<byte>)
    requires BlockAt(v, seg, at, TextBlock(text)) && |text| + 1 < TWO_29
    ensures BodyInside(v, ToList(SZ_BYTE, |text| + 1), seg, at)
    ensures Object(v, ToList(SZ_BYTE, |text| + 1), seg, at) == List(seg, at, SZ_BYTE, |text| + 1, 0, 0)
    ensures BodyWords(v, ToList(SZ_BYTE, |text| + 1), seg, at) == TextWords(text)
    ensures TagOf(ToList(SZ_BYTE, |text| + 1), seg, at) == {}
  {
    hide TextBlock;
  }

  lemma TextWritten(v: Segs, v2: Segs, v3: Segs, slot: Loc, seg: nat, at: nat, text: seq<byte>)
    requires |text| + 1 < TWO_29
    requires InBounds(v, slot.seg, slot.word)
    requires SameExcept(v, v2, {}) && BlockAt(v2, seg, at, TextBlock(text))
    requires forall k :: at <= k < at + TextWords(text) ==> !InBounds(v, seg, k)
    requires SameExcept(v2, v3, {slot}) && PointsTo(v2, v3, slot, ToList(SZ_BYTE, |text| + 1), seg, at)
    ensures SameExcept(v, v3, {slot})
    ensures Holds(v, v3, slot, Place(seg, at), text)
  {
    hide TextBlock, LookAt, SlotFootprint, BodyInside, Object, BodyWords, TagOf, SameExcept, InBounds;
    SameExceptTrans(v, v2, v3, {}, {slot});
    assert {} + {slot} == {slot};
    BlockKept(v2, v3, {slot}, seg, at, TextBlock(text));
    TextBody(v3, seg, at, text);
    SameOther(v, v2, {}, slot);
    SlotStays(v, v2, v3, slot);
    forall p | p in SlotFootprint(v3, slot.seg, slot.word)
      ensures !InBounds(v, p.seg, p.word)
    {
      if InBounds(v, p.seg, p.word) {
        SameOther(v, v2, {}, p);
        SameInside(v, v2, p);
      }
    }
  }

  lemma SlotStays(v: Segs, v2: Segs, v3: Segs, slot: Loc)
    requires InBounds(v, slot.seg, slot.word) && SameExcept(v, v2, {}) && SameExcept(v2, v3, {slot})
    ensures InBounds(v2, slot.seg, slot.word) && InBounds(v3, slot.seg, slot.word)
  {
    hide InBounds;
    SameOther(v, v2, {}, slot);
    SameInside(v, v2, slot);
    GrownInBounds(v2, v3, {slot}, slot);
  }

  lemma GrownInBounds(a: Segs, b: Segs, changed: set<Loc>, l: Loc)
    requires SameExcept(a, b, changed) && InBounds(a, l.seg, l.word)
    ensures InBounds(b, l.seg, l.word)
  {
  }

  /** write_text_at: a Text of any bytes, at the end of the arena, linked from a slot. */
  method WriteTextAt(b: Builder, slotSeg: nat, slotWord: nat, text: seq<byte>) returns (rc: Code, ghost pl: Place)
    requires b.Valid() && InBounds(View(b.segs), slotSeg, slotWord) && |text| + 1 < TWO_29
    modifies b`segs, b`maxSegWords
    ensures b.Valid() && b.maxSegWords == old(b.maxSegWords)
    ensures TextWords(text) <= b.Lim() && !b.forceSingle && |old(b.segs)| + 2 < TWO_32 ==> rc == OK
    ensures rc == OK ==> |b.segs| <= |old(b.segs)| + 2
    ensures rc == OK ==> SameExcept(View(old(b.segs)), View(b.segs), {Loc(slotSeg, slotWord)})
    ensures rc == OK ==> Holds(View(old(b.segs)), View(b.segs), Loc(slotSeg, slotWord), pl, text)
    ensures rc == OK ==>
              && slotSeg < |old(b.segs)|
              && SizesOf(b.segs) == ObjectSizes(SizesOf(old(b.segs)), slotSeg, TextWords(text), b.Rules()).sizes
  {
    hide AllocSizes, LinkSizes, View, TextBlock, LookAt, SlotFootprint, BodyInside, Object, BodyWords, TagOf,
         SameExcept, Allocated, StoredRun,
         Holds, PointsTo, BlockAt;
    ghost var v := View(b.segs);
    var seg, at;
    pl := Place(0, 0);
    rc, seg, at := b.AllocWords(TextWords(text));
    if rc != OK {
      return ErrAlloc, pl;
    }
    ghost var v1 := View(b.segs);
    FilledKeeps(v, v1, seg, at, TextWords(text), TextBlock(text));
    b.StoreRun(seg, at, TextBlock(text));
    ghost var v2 := View(b.segs);
    TextBody(v2, seg, at, text);
    GrownInBounds(v, v2, {}, Loc(slotSeg, slotWord));
    assert at < TWO_29 by { BlockStart(b.segs, seg, at, TextBlock(text)); }
    rc := b.WritePtr(slotSeg, slotWord, seg, at, ToList(SZ_BYTE, |text| + 1));
    if rc == OK {
      pl := Place(seg, at);
      TextWritten(v, v2, View(b.segs), Loc(slotSeg, slotWord), seg, at, text);
    }
  }

  lemma BlockStart(segs: seq<Seg>, seg: nat, at: nat, ws: seq<Word>)
    requires |segs| < TWO_32 && forall i :: 0 <= i < |segs| ==> SegOk(segs[i])
    requires BlockAt(View(segs), seg, at, ws) && |ws| > 0
    ensures at < TWO_29
  {
  }

  // ---- List(Text) ----------------------------------------------------------------------------

  /** The slots of a pointer list hold the first k texts; nothing they depend on was there in v0. */
  ghost predicate HoldsAll(v0: Segs, v: Segs, seg: nat, start: nat, places: seq<Place>, texts: seq<seq<byte>>)
  {
    && |places| <= |texts|
    && forall k :: 0 <= k < |places| ==> Holds(v0, v, Loc(seg, start + k), places[k], texts[k])
  }

  /** The slots of a list lie in v. */
  predicate SlotsInside(v: Segs, seg: nat, start: nat, n: nat)
  {
    n > 0 ==> seg < |v| && start + n <= |v[seg]|
  }

  lemma HoldsOlder(v0: Segs, v1: Segs, v: Segs, slot: Loc, pl: Place, text: seq<byte>, changed: set<Loc>)
    requires SameExcept(v0, v1, changed) && Holds(v1, v, slot, pl, text)
    ensures Holds(v0, v, slot, pl, text)
  {
    hide LookAt, SlotFootprint, TextBlock, BlockAt, InBounds, SameExcept;
    forall p: Loc | InBounds(v0, p.seg, p.word)
      ensures InBounds(v1, p.seg, p.word)
    {
      GrownInBounds(v0, v1, changed, p);
    }
    forall k | pl.at <= k < pl.at + TextWords(text)
      ensures !InBounds(v0, pl.seg, k)
    {
      var p := Loc(pl.seg, k);
      assert InBounds(v0, p.seg, p.word) ==> InBounds(v1, p.seg, p.word);
    }
  }

  /** Writing text k leaves the texts before it alone. */
  lemma HoldsNext(v0: Segs, a: Segs, b: Segs, seg: nat, start: nat, n: nat, places: seq<Place>, pl: Place, texts: seq<seq<byte>>,
                  changed: set<Loc>)
    requires n == |texts| && |places| < n && SlotsInside(v0, seg, start, n)
    requires SameExcept(v0, a, changed)
    requires HoldsAll(v0, a, seg, start, places, texts)
    requires SameExcept(a, b, {Loc(seg, start + |places|)})
    requires Holds(a, b, Loc(seg, start + |places|), pl, texts[|places|])
    ensures HoldsAll(v0, b, seg, start, places + [pl], texts)
  {
    hide Holds, SameExcept;
    var slot := Loc(seg, start + |places|);
    HoldsOlder(v0, a, b, slot, pl, texts[|places|], changed);
    forall k | 0 <= k < |places|
      ensures Holds(v0, b, Loc(seg, start + k), places[k], texts[k])
    {
      HoldsKept(v0, a, b, Loc(seg, start + k), places[k], texts[k], slot);
    }
  }

  /** The changes to the list's slots so far, counted together. */
  function SlotSet(seg: nat, start: nat, k: nat): (slots: set<Loc>)
    ensures forall l :: l in slots ==> l.seg == seg && start <= l.word < start + k
  {
    if k == 0 then {} else SlotSet(seg, start, k - 1) + {Loc(seg, start + k - 1)}
  }

  /** Every text fits a segment. */
  predicate TextsFit(texts: seq<seq<byte>>, lim: nat)
  {
    forall k :: 0 <= k < |texts| ==> TextWords(texts[k]) <= lim
  }

  predicate ListFits(texts: seq<seq<byte>>, lim: nat)
  {
    |texts| <= lim && TextsFit(texts, lim)
  }

  /** The words the texts take. */
  function WordsOfTexts(texts: seq<seq<byte>>): (words: seq<nat>)
    ensures |words| == |texts| && forall k :: 0 <= k < |texts| ==> words[k] == TextWords(texts[k])
  {
    seq(|texts|, k requires 0 <= k < |texts| => TextWords(texts[k]))
  }

  /** The element loop of capnp_builder_set_list_text_n. */
  method WriteTexts(b: Builder, seg: nat, start: nat, texts: seq<seq<byte>>) returns (rc: Code, ghost places: seq<Place>)
    requires b.Valid() && SlotsInside(View(b.segs), seg, start, |texts|)
    requires forall k :: 0 <= k < |texts| ==> |texts[k]| + 1 < TWO_29
    modifies b`segs, b`maxSegWords
    ensures b.Valid() && b.maxSegWords == old(b.maxSegWords)
    ensures !b.forceSingle && |old(b.segs)| + 2 * |texts| < TWO_32 && TextsFit(texts, b.Lim()) ==> rc == OK
    ensures rc == OK ==> |places| == |texts|
    ensures rc == OK ==> HoldsAll(View(old(b.segs)), View(b.segs), seg, start, places, texts)
    ensures rc == OK ==> SameExcept(View(old(b.segs)), View(b.segs), SlotSet(seg, start, |texts|))
    ensures rc == OK && seg < |old(b.segs)| ==>
              SizesOf(b.segs) == ObjectsSizes(SizesOf(old(b.segs)), seg, WordsOfTexts(texts), b.Rules())
  {
    hide View, Holds, SameExcept, TextWords, ObjectSizes;
    ghost var v0, words := View(b.segs), WordsOfTexts(texts);
    places := [];
    SameSelf(v0);
    assert SlotSet(seg, start, 0) == {};
    assert words[..0] == [];
    for i := 0 to |texts|
      invariant b.Valid() && b.maxSegWords == old(b.maxSegWords) && |places| == i
      invariant |b.segs| <= |old(b.segs)| + 2 * i
      invariant HoldsAll(v0, View(b.segs), seg, start, places, texts)
      invariant SameExcept(v0, View(b.segs), SlotSet(seg, start, i))
      invariant |b.segs| >= |old(b.segs)|
      invariant seg < |old(b.segs)| ==> SizesOf(b.segs) == ObjectsSizes(SizesOf(old(b.segs)), seg, words[..i], b.Rules())
    {
      ghost var a := View(b.segs);
      GrownInBounds(v0, a, SlotSet(seg, start, i), Loc(seg, start + i));
      ghost var pl;
      rc, pl := WriteTextAt(b, seg, start + i, texts[i]);
      if rc != OK {
        return ErrAlloc, places;
      }
      HoldsNext(v0, a, View(b.segs), seg, start, |texts|, places, pl, texts, SlotSet(seg, start, i));
      SameExceptTrans(v0, a, View(b.segs), SlotSet(seg, start, i), {Loc(seg, start + i)});
      assert SlotSet(seg, start, i) + {Loc(seg, start + i)} == SlotSet(seg, start, i + 1);
      places := places + [pl];
      assert words[..i + 1][..i] == words[..i];
    }
    assert words[..|texts|] == words;
    return OK, places;
  }

  lemma SameSelf(v: Segs)
    ensures SameExcept(v, v, {})
  {
  }

  /** The slot leads to a pointer list of the texts; nothing it depends on was there in v0. */
  ghost predicate TextList(v0: Segs, v: Segs, slot: Loc, seg: nat, start: nat, places: seq<Place>, texts: seq<seq<byte>>)
  {
    var l := LookAt(v, slot.seg, slot.word);
    && InBounds(v, slot.seg, slot.word)
    && l.Found? && l.ptr == List(seg, start, SZ_PTR, |texts|, 0, 0) && l.cost <= 3 + |texts|
    && (forall p :: p in SlotFootprint(v, slot.seg, slot.word) ==> !InBounds(v0, p.seg, p.word))
    && |places| == |texts| && HoldsAll(v0, v, seg, start, places, texts)
  }

  /** Filling in the elements leaves the pointer to the list alone. */
  lemma ListKept(v0: Segs, v1: Segs, v2: Segs, v3: Segs, slot: Loc, seg: nat, start: nat, places: seq<Place>,
                 texts: seq<seq<byte>>)
    requires InBounds(v0, slot.seg, slot.word) && |texts| < TWO_29
    requires SameExcept(v0, v1, {}) && SlotsInside(v1, seg, start, |texts|)
    requires forall k :: start <= k < start + |texts| ==> !InBounds(v0, seg, k)
    requires SameExcept(v1, v2, {slot}) && PointsTo(v1, v2, slot, ToList(SZ_PTR, |texts|), seg, start)
    requires SameExcept(v2, v3, SlotSet(seg, start, |texts|))
    requires |places| == |texts| && HoldsAll(v2, v3, seg, start, places, texts)
    ensures SameExcept(v0, v3, {slot})
    ensures TextList(v0, v3, slot, seg, start, places, texts)
  {
    hide Holds, LookAt, SlotFootprint, SameExcept, InBounds;
    var changed, n := SlotSet(seg, start, |texts|), |texts|;
    SlotStays(v0, v1, v2, slot);
    assert slot !in changed;
    forall p | p in SlotFootprint(v2, slot.seg, slot.word)
      ensures SameAt(v2, v3, p) && !InBounds(v0, p.seg, p.word)
    {
      PointsFresh(v1, v2, slot, n, seg, start, p);
      SlotIn(v1, seg, start, n, p);
      SameOther(v2, v3, changed, p);
      if InBounds(v0, p.seg, p.word) {
        GrownInBounds(v0, v1, {}, p);
      }
    }
    GrownBy(v2, v3, changed);
    SameOther(v2, v3, changed, slot);
    ListObject(v1, v2, slot, n, seg, start);
    SlotFrame(v2, v3, slot.seg, slot.word);
    GrownInBounds(v2, v3, changed, slot);
    SameExceptTrans(v0, v1, v2, {}, {slot});
    forall k | 0 <= k < n
      ensures Holds(v0, v3, Loc(seg, start + k), places[k], texts[k])
    {
      HoldsOlder(v0, v2, v3, Loc(seg, start + k), places[k], texts[k], {} + {slot});
    }
    SameFresh(v0, v2, v3, slot, changed);
  }

  /** Changes to words that were not there before do not count. */
  lemma SameFresh(v0: Segs, v2: Segs, v3: Segs, slot: Loc, changed: set<Loc>)
    requires SameExcept(v0, v2, {} + {slot}) && SameExcept(v2, v3, changed)
    requires forall l :: l in changed ==> !InBounds(v0, l.seg, l.word)
    ensures SameExcept(v0, v3, {slot})
  {
    forall l: Loc | l !in {slot}
      ensures SameAt(v0, v3, l)
    {
      if InBounds(v0, l.seg, l.word) {
        assert SameAt(v0, v2, l) && SameAt(v2, v3, l);
      }
    }
  }

  lemma PointsFresh(v1: Segs, v2: Segs, slot: Loc, n: nat, seg: nat, start: nat, p: Loc)
    requires PointsTo(v1, v2, slot, ToList(SZ_PTR, n), seg, start) && p in SlotFootprint(v2, slot.seg, slot.word)
    ensures !InBounds(v1, p.seg, p.word)
  {
    hide LookAt, SlotFootprint;
  }

  lemma SlotIn(v: Segs, seg: nat, start: nat, n: nat, p: Loc)
    requires SlotsInside(v, seg, start, n) && !InBounds(v, p.seg, p.word)
    ensures p !in SlotSet(seg, start, n)
  {
    if p in SlotSet(seg, start, n) {
      assert InBounds(v, p.seg, p.word);
    }
  }

  lemma ListObject(v1: Segs, v2: Segs, slot: Loc, n: nat, seg: nat, start: nat)
    requires PointsTo(v1, v2, slot, ToList(SZ_PTR, n), seg, start)
    ensures var l := LookAt(v2, slot.seg, slot.word);
            l.Found? && l.ptr == List(seg, start, SZ_PTR, n, 0, 0) && l.cost <= 3 + n
  {
    hide LookAt, SlotFootprint;
  }

  /** capnp_builder_set_list_text_n: a pointer list with one Text for each item. */
  method SetListTextN(b: Builder, bodySeg: nat, bodyWord: nat, dwords: nat, ptrIndex: nat, texts: seq<seq<byte>>)
    returns (rc: Code, ghost seg: nat, ghost start: nat, ghost places: seq<Place>)
    requires b.Valid() && bodySeg < |b.segs|
    requires |texts| < TWO_29 && forall k :: 0 <= k < |texts| ==> |texts[k]| + 1 < TWO_29
    modifies b`segs, b`maxSegWords
    ensures b.Valid() && b.maxSegWords == old(b.maxSegWords)
    ensures rc == ErrBounds <==> bodyWord + dwords + ptrIndex >= old(b.segs)[bodySeg].words
    ensures rc != ErrBounds && ListFits(texts, b.Lim()) && !b.forceSingle && |old(b.segs)| + 2 + 2 * |texts| < TWO_32 ==> rc == OK
    ensures rc == OK ==> SameExcept(View(old(b.segs)), View(b.segs), {Loc(bodySeg, bodyWord + dwords + ptrIndex)})
    ensures rc == OK ==>
              TextList(View(old(b.segs)), View(b.segs), Loc(bodySeg, bodyWord + dwords + ptrIndex), seg, start, places, texts)
    ensures rc == OK ==> SizesOf(b.segs) == ListSizes(SizesOf(old(b.segs)), bodySeg, WordsOfTexts(texts), b.Rules())
  {
    hide AllocSizes, LinkSizes, ObjectsSizes, View, HoldsAll, SameExcept, Allocated, PointsTo, TextList, TextsFit,
         BodyInside, TagOf, SlotSet;
    ghost var v0 := View(b.segs);
    var slot := bodyWord + dwords + ptrIndex;
    seg, start, places := bodySeg, slot + 1, [];
    if slot >= b.segs[bodySeg].words {
      return ErrBounds, seg, start, places;
    }
    SlotInView(b.segs, bodySeg, slot);
    var listSeg, listStart := bodySeg, slot + 1;
    SameSelf(v0);
    if |texts| > 0 {
      rc, listSeg, listStart := b.AllocWords(|texts|);
      if rc != OK {
        return ErrAlloc, seg, start, places;
      }
      AllocatedSlots(v0, View(b.segs), listSeg, listStart, |texts|);
    }
    ghost var v1 := View(b.segs);
    GrownInBounds(v0, v1, {}, Loc(bodySeg, slot));
    SlotListBody(b.segs, bodySeg, slot, listSeg, listStart, |texts|);
    rc := b.WritePtr(bodySeg, slot, listSeg, listStart, ToList(SZ_PTR, |texts|));
    if rc != OK {
      return ErrAlloc, seg, start, places;
    }
    ghost var v2 := View(b.segs);
    ListPlaced(SizesOf(old(b.segs)), SizesOf(b.segs), bodySeg, |texts|, listSeg, b.Rules());
    GrownSlots(v1, v2, {Loc(bodySeg, slot)}, listSeg, listStart, |texts|);
    rc, places := WriteTexts(b, listSeg, listStart, texts);
    if rc != OK {
      return ErrAlloc, seg, start, places;
    }
    seg, start := listSeg, listStart;
    ListKept(v0, v1, v2, View(b.segs), Loc(bodySeg, slot), listSeg, listStart, places, texts);
  }

  /** A list with no elements takes no words, and its slot is its own pad. */
  lemma ListPlaced(a: seq<Size>, c: seq<Size>, slotSeg: nat, n: nat, seg: nat, p: Policy)
    requires slotSeg < |a| && seg <= |a|
    requires n == 0 ==> seg == slotSeg && c == LinkSizes(a, slotSeg, seg, p.lim)
    requires n > 0 ==> var to := AllocSizes(a, n, p); seg == to.seg && c == LinkSizes(to.sizes, slotSeg, seg, p.lim)
    ensures Placed(c, seg) == ObjectSizes(a, slotSeg, n, p)
  {
    hide AllocSizes;
  }

  lemma SlotInView(segs: seq<Seg>, seg: nat, slot: nat)
    requires seg < |segs| && (forall i :: 0 <= i < |segs| ==> SegOk(segs[i])) && slot < segs[seg].words
    ensures InBounds(View(segs), seg, slot)
  {
  }

  lemma AllocatedSlots(v: Segs, v': Segs, seg: nat, at: nat, n: nat)
    requires Allocated(v, v', seg, at, n)
    ensures SameExcept(v, v', {}) && SlotsInside(v', seg, at, n) && |v'| <= |v| + 1
    ensures forall k :: at <= k < at + n ==> !InBounds(v, seg, k)
  {
    AllocatedKeeps(v, v', seg, at, n);
  }

  lemma GrownSlots(a: Segs, b: Segs, changed: set<Loc>, seg: nat, start: nat, n: nat)
    requires SameExcept(a, b, changed) && SlotsInside(a, seg, start, n)
    ensures SlotsInside(b, seg, start, n)
  {
  }

  lemma SlotListBody(segs: seq<Seg>, slotSeg: nat, slot: nat, seg: nat, start: nat, n: nat)
    requires |segs| < TWO_32 && forall i :: 0 <= i < |segs| ==> SegOk(segs[i])
    requires InBounds(View(segs), slotSeg, slot) && SlotsInside(View(segs), seg, start, n) && n < TWO_29
    requires n == 0 ==> seg == slotSeg && start == slot + 1
    ensures BodyInside(View(segs), ToList(SZ_PTR, n), seg, start) && (slotSeg == seg || start < TWO_29)
    ensures TagOf(ToList(SZ_PTR, n), seg, start) == {}
  {
  }
}
