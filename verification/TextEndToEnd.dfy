/** List(Text) from the builder, through a frame, to the reader. */
module TextEndToEnd {
  import opened Options
  import opened Bytes
  import opened WirePointer
  import opened Message
  import opened WordBytes
  import opened Framing
  import opened Frames
  import opened Targets
  import opened Arena
  import opened Texts
  import opened TextBuilder
  import opened SegmentSizes
  import opened Spending
  import Framer

  // ---- reading ---------------------------------------------------------------------------

  /** Where item `index` of a list of texts leads: an element of a pointer list, or
      the first pointer of a row of a composite list. */
  function LookText(v: Segs, list: Ptr, index: nat): Look
  {
    if !list.List? then Bad(ErrKind, 0)
    else if list.esize == SZ_PTR then LookElement(v, list, index)
    else if list.esize == SZ_COMPOSITE then
      if index >= list.count then Bad(ErrBounds, 0) else LookField(v, Element(list, index), 0)
    else Bad(ErrKind, 0)
  }

  /** The text at the end of a look. */
  function TextAt(v: Segs, l: Look): Option<seq<byte>>
    requires l.Found?
  {
    if l.ptr.Null? then Some([])
    else if l.ptr.List? && l.ptr.esize == SZ_BYTE then TextIn(v, l.ptr)
    else None
  }

  /** In a composite list the text of a row is that of its first pointer, the word after its
      data; a row without pointers has the empty text, as has a null pointer. */
  lemma RowText(v: Segs, list: Ptr, i: nat)
    requires list.List? && list.esize == SZ_COMPOSITE && i < list.count
    ensures LookText(v, list, i)
         == if list.pw > 0 then LookAt(v, list.seg, list.word + Arith.Place(i, list.dw, list.dw + list.pw)) else Found(Null, 0)
    ensures TextAt(v, Found(Null, 0)) == Some([])
  {
    hide LookAt, Arith.Place;
    Arith.PlaceStep(i, 0, list.dw, list.dw + list.pw);
  }

  /** The bytes of a byte list lie in its segment. */
  predicate TextInside(v: Segs, p: Ptr)
  {
    p.List? && p.esize == SZ_BYTE ==> TextIn(v, p).Some?
  }

  /** capnp_list_get_text */
  method ListGetText(m: Message, list: Ptr, index: nat) returns (rc: Code, text: seq<byte>)
    requires var l := LookText(m.segs, list, index); l.Found? ==> TextInside(m.segs, l.ptr)
    modifies m
    ensures var l := LookText(m.segs, list, index);
            if l.cost > old(m.left) then rc == ErrTraversal
            else if l.Bad? then rc == l.code
            else if TextAt(m.segs, l).Some? then rc == OK && text == TextAt(m.segs, l).value && m.left == old(m.left) - l.cost
            else rc == ErrKind
  {
    hide LookAt, TextIn, Arith.Place;
    text := [];
    if !list.List? {
      return ErrKind, text;
    }
    var elem;
    if list.esize == SZ_PTR {
      rc, elem := m.ListGetp(list, index);
      if rc != OK {
        return;
      }
    } else if list.esize == SZ_COMPOSITE {
      rc, elem := m.ListGetp(list, index);
      if rc != OK {
        return;
      }
      rc, elem := m.Getp(elem, 0);
      if rc != OK {
        return;
      }
    } else {
      return ErrKind, text;
    }
    if elem.Null? {
      return OK, text;
    }
    if !elem.List? || elem.esize != SZ_BYTE {
      return ErrKind, text;
    }
    text := Payload(m, elem);
    return OK, text;
  }

  /** The bytes of a byte list, without a trailing NUL. */
  method Payload(m: Message, list: Ptr) returns (text: seq<byte>)
    requires list.List? && list.esize == SZ_BYTE && TextIn(m.segs, list).Some?
    ensures text == TextIn(m.segs, list).value
  {
    hide BytesOf;
    var n := list.count;
    var words := ListWords(SZ_BYTE, n);
    var p: seq<byte> := if words == 0 then [] else BytesOf(m.segs[list.seg][list.word..list.word + words])[..n];
    if n > 0 && p[n - 1] == 0 {
      n := n - 1;
    }
    text := p[..n];
  }

  // ---- building --------------------------------------------------------------------------

  /** capnp_builder_root */
  method BuilderRoot(b: Builder) returns (rc: Code)
    requires b.Valid()
    modifies b`segs
    ensures b.Valid()
    ensures old(b.segs[0].words) != 0 ==> rc == ErrArg && b.segs == old(b.segs)
    ensures old(b.segs[0].words) == 0 ==>
              rc == if |old(b.segs)| == 1 && (|old(b.segs)[0].data| > 0 || b.forceSingle) then OK else ErrAlloc
    ensures |old(b.segs)| == 1 && old(b.segs[0].words) == 0 && |old(b.segs)[0].data| > 0 ==>
              rc == OK && View(b.segs) == [[0]]
    ensures old(b.segs[0].words) == 0 ==>
              || View(b.segs) == View(old(b.segs))
              || exists seg: nat, at: nat :: Allocated(View(old(b.segs)), View(b.segs), seg, at, 1)
    ensures rc == OK ==> Placed(SizesOf(b.segs), 0) == AllocSizes(SizesOf(old(b.segs)), 1, b.Rules())
  {
    hide GrownCap, NextCap, Used;
    if b.segs[0].words != 0 {
      return ErrArg;
    }
    ghost var v := View(b.segs);
    if |b.segs| == 1 {
      NoneUsed(b.segs);
    }
    var seg, at;
    rc, seg, at := b.AllocWords(1);
    if rc != OK || seg != 0 || at != 0 {
      return ErrAlloc;
    }
    if |v| == 1 {
      assert [] + ZeroWords(1) == [0];
      assert View(b.segs) == [[0]];
    }
  }

  lemma NoneUsed(segs: seq<Seg>)
    requires |segs| == 1 && segs[0].words == 0
    ensures View(segs) == [[]]
  {
  }

  /** capnp_builder_struct: a struct of the given size, linked from a slot. */
  method BuilderStruct(b: Builder, slotSeg: nat, slotWord: nat, dw: nat, pw: nat) returns (rc: Code, seg: nat, at: nat)
    requires b.Valid() && InBounds(View(b.segs), slotSeg, slotWord) && dw < TWO_16 && pw < TWO_16
    modifies b`segs, b`maxSegWords
    ensures b.Valid() && b.maxSegWords == old(b.maxSegWords)
    ensures dw + pw <= b.Lim() && !b.forceSingle && |old(b.segs)| + 2 < TWO_32 ==> rc == OK
    ensures rc == OK ==> |b.segs| <= |old(b.segs)| + 2
    ensures rc == OK ==> SameExcept(View(old(b.segs)), View(b.segs), {Loc(slotSeg, slotWord)})
    ensures rc == OK && dw + pw == 0 ==>
              && LookAt(View(b.segs), slotSeg, slotWord) == Found(Struct(slotSeg, slotWord, 0, 0), 1)
              && seg == slotSeg && at == slotWord
    ensures rc == OK && dw + pw > 0 ==>
              StructAt(View(old(b.segs)), View(b.segs), Loc(slotSeg, slotWord), seg, at, dw, pw)
    ensures rc == OK ==>
              && slotSeg < |old(b.segs)|
              && Placed(SizesOf(b.segs), seg) == ObjectSizes(SizesOf(old(b.segs)), slotSeg, dw + pw, b.Rules())
  {
    hide AllocSizes, LinkSizes, View, SameExcept, Allocated, PointsTo, BodyInside, TagOf, LookAt, Stored;
    ghost var v0 := View(b.segs);
    seg, at := slotSeg, slotWord;
    if dw + pw == 0 {
      StoredKeeps(v0, slotSeg, slotWord, MakeStruct(-1, 0, 0));
      b.StoreWord(slotSeg, slotWord, MakeStruct(-1, 0, 0));
      EmptyStructLook(View(b.segs), slotSeg, slotWord);
      return OK, seg, at;
    }
    rc, seg, at := b.AllocWords(dw + pw);
    if rc != OK {
      return ErrAlloc, seg, at;
    }
    ghost var v1 := View(b.segs);
    AllocatedSlots(v0, v1, seg, at, dw + pw);
    StructBody(b.segs, seg, at, dw, pw);
    GrownInBounds(v0, v1, {}, Loc(slotSeg, slotWord));
    rc := b.WritePtr(slotSeg, slotWord, seg, at, ToStruct(dw, pw));
    if rc == OK {
      SameExceptTrans(v0, v1, View(b.segs), {}, {Loc(slotSeg, slotWord)});
      assert {} + {Loc(slotSeg, slotWord)} == {Loc(slotSeg, slotWord)};
      StructPlaced(v0, v1, View(b.segs), Loc(slotSeg, slotWord), seg, at, dw, pw);
    }
  }

  /** The slot leads to a zeroed-or-newer struct body, which was not there in v0; the
      slot's pads are no part of that body. */
  ghost predicate StructAt(v0: Segs, v: Segs, slot: Loc, seg: nat, at: nat, dw: nat, pw: nat)
  {
    var l := LookAt(v, slot.seg, slot.word);
    && l.Found? && l.ptr == Struct(seg, at, dw, pw) && l.cost <= 3 + dw + pw
    && SlotsInside(v, seg, at, dw + pw)
    && (forall k :: at <= k < at + dw + pw ==> !InBounds(v0, seg, k))
    && (forall p :: p in SlotFootprint(v, slot.seg, slot.word) ==> !InBounds(v0, p.seg, p.word))
    && (forall p :: p in SlotFootprint(v, slot.seg, slot.word) ==> !(p.seg == seg && at <= p.word < at + dw + pw))
  }

  lemma StructPlaced(v0: Segs, v1: Segs, v: Segs, slot: Loc, seg: nat, at: nat, dw: nat, pw: nat)
    requires dw + pw > 0 && SameExcept(v0, v1, {}) && SlotsInside(v1, seg, at, dw + pw)
    requires forall k :: at <= k < at + dw + pw ==> !InBounds(v0, seg, k)
    requires SameExcept(v1, v, {slot}) && PointsTo(v1, v, slot, ToStruct(dw, pw), seg, at)
    ensures StructAt(v0, v, slot, seg, at, dw, pw)
  {
    hide LookAt, SlotFootprint, SameExcept, InBounds;
    GrownSlots(v1, v, {slot}, seg, at, dw + pw);
    forall p | p in SlotFootprint(v, slot.seg, slot.word)
      ensures !InBounds(v0, p.seg, p.word) && !(p.seg == seg && at <= p.word < at + dw + pw)
    {
      if InBounds(v0, p.seg, p.word) {
        GrownInBounds(v0, v1, {}, p);
      }
      if p.seg == seg && at <= p.word < at + dw + pw {
        InsideBlock(v1, seg, at, dw + pw, p.word);
      }
    }
  }

  lemma InsideBlock(v: Segs, seg: nat, at: nat, n: nat, k: int)
    requires SlotsInside(v, seg, at, n) && at <= k < at + n
    ensures InBounds(v, seg, k)
  {
  }

  lemma StructBody(segs: seq<Seg>, seg: nat, at: nat, dw: nat, pw: nat)
    requires |segs| < TWO_32 && forall i :: 0 <= i < |segs| ==> SegOk(segs[i])
    requires SlotsInside(View(segs), seg, at, dw + pw) && dw + pw > 0 && dw < TWO_16 && pw < TWO_16
    ensures BodyInside(View(segs), ToStruct(dw, pw), seg, at) && at < TWO_29 && TagOf(ToStruct(dw, pw), seg, at) == {}
  {
  }

  lemma EmptyStructLook(v: Segs, seg: nat, word: nat)
    requires InBounds(v, seg, word) && v[seg][word] == MakeStruct(-1, 0, 0)
    ensures LookAt(v, seg, word) == Found(Struct(seg, word, 0, 0), 1)
  {
    hide Kind, Offset, StructDwords, StructPwords, MakeStruct;
    StructFields(-1, 0, 0);
  }

  // ---- end to end ---------------------------------------------------------------------------

  /** Item i of the list is text i. */
  lemma ItemReads(v0: Segs, v: Segs, slot: Loc, seg: nat, start: nat, places: seq<Place>, texts: seq<seq<byte>>, i: nat)
    requires TextList(v0, v, slot, seg, start, places, texts) && i < |texts|
    ensures var l := LookAt(v, slot.seg, slot.word);
            && l.Found? && l.ptr.List? && l.cost <= 3 + |texts|
            && var e := LookText(v, l.ptr, i);
               e.Found? && e.cost <= 3 + TextWords(texts[i]) && TextInside(v, e.ptr) && TextAt(v, e) == Some(texts[i])
  {
    hide LookAt, SlotFootprint, TextBlock, TextIn, BlockAt;
    assert Holds(v0, v, Loc(seg, start + i), places[i], texts[i]);
    TextBlockReads(v, places[i].seg, places[i].at, texts[i]);
  }

  /** The slot of pointer `ptrIndex` of the struct, and what it holds, seen from the root. */
  lemma RootStays(v0: Segs, v: Segs, v2: Segs, seg: nat, at: nat, dw: nat, pw: nat, slot: Loc)
    requires InBounds(v0, 0, 0) && StructAt(v0, v, Loc(0, 0), seg, at, dw, pw)
    requires slot.seg == seg && at <= slot.word < at + dw + pw && SameExcept(v, v2, {slot})
    ensures LookAt(v2, 0, 0) == LookAt(v, 0, 0)
  {
    hide LookAt, SlotFootprint, SameExcept;
    var root := Loc(0, 0);
    assert !InBounds(v0, seg, slot.word);
    SameOther(v, v2, {slot}, root);
    forall p | p in SlotFootprint(v, 0, 0)
      ensures SameAt(v, v2, p)
    {
      SameOther(v, v2, {slot}, p);
    }
    GrownBy(v, v2, {slot});
    SlotFrame(v, v2, 0, 0);
  }

  /** Words charged to reach and read one item of the list. */
  function ReadCost(dw: nat, pw: nat, texts: seq<seq<byte>>, i: nat): nat
    requires i < |texts|
  {
    9 + dw + pw + |texts| + TextWords(texts[i])
  }

  lemma StructInside(segs: seq<Seg>, v0: Segs, slot: Loc, seg: nat, at: nat, dw: nat, pw: nat)
    requires |segs| < TWO_32 && forall i :: 0 <= i < |segs| ==> SegOk(segs[i])
    requires StructAt(v0, View(segs), slot, seg, at, dw, pw) && dw + pw > 0
    ensures seg < |segs| && at + dw + pw <= segs[seg].words
  {
    hide LookAt, SlotFootprint;
  }

  lemma ViewFramable(segs: seq<Seg>)
    requires 0 < |segs| <= MAX_SEGMENTS && forall i :: 0 <= i < |segs| ==> SegOk(segs[i])
    ensures Framable(View(segs))
  {
  }

  lemma FirstInUse(segs: seq<Seg>)
    requires |segs| > 0 && InBounds(View(segs), 0, 0)
    ensures segs[0].words > 0
  {
  }

  /** Item i of the list in pointer `ptrIndex` of the root struct. */
  method ReadItem(m: Message, ptrIndex: nat, i: nat) returns (rc: Code, text: seq<byte>)
    requires m.left == TRAVERSAL_WORDS
    requires ReachesTexts(m.segs, ptrIndex, i)
    modifies m
    ensures rc == if PathCost(m.segs, ptrIndex, i) <= TRAVERSAL_WORDS then OK else ErrTraversal
    ensures rc == OK ==> Some(text) == TextAt(m.segs, ItemLook(m.segs, ptrIndex, i))
  {
    hide LookAt, LookText, TextAt, TextInside;
    text := [];
    var root, list;
    rc, root := m.Root();
    if rc != OK {
      return;
    }
    rc, list := m.Getp(root, ptrIndex);
    if rc != OK {
      return;
    }
    rc, text := ListGetText(m, list, i);
  }

  function RootLook(v: Segs): Look
  {
    LookAt(v, 0, 0)
  }

  function ListLook(v: Segs, ptrIndex: nat): Look
    requires RootLook(v).Found?
  {
    LookField(v, RootLook(v).ptr, ptrIndex)
  }

  function ItemLook(v: Segs, ptrIndex: nat, i: nat): Look
    requires RootLook(v).Found? && ListLook(v, ptrIndex).Found?
  {
    LookText(v, ListLook(v, ptrIndex).ptr, i)
  }

  /** The root leads to a list of texts that has an item i. */
  predicate ReachesTexts(v: Segs, ptrIndex: nat, i: nat)
  {
    && |v| > 0 && RootLook(v).Found? && ListLook(v, ptrIndex).Found? && ItemLook(v, ptrIndex, i).Found?
    && TextInside(v, ItemLook(v, ptrIndex, i).ptr) && TextAt(v, ItemLook(v, ptrIndex, i)).Some?
  }

  function PathCost(v: Segs, ptrIndex: nat, i: nat): nat
    requires ReachesTexts(v, ptrIndex, i)
  {
    RootLook(v).cost + ListLook(v, ptrIndex).cost + ItemLook(v, ptrIndex, i).cost
  }

  /** Every item can be read from the root, and what that costs. */
  ghost predicate AllReached(v: Segs, dw: nat, pw: nat, ptrIndex: nat, texts: seq<seq<byte>>)
  {
    forall i :: 0 <= i < |texts| ==> Reached(v, dw, pw, ptrIndex, texts, i)
  }

  predicate Reached(v: Segs, dw: nat, pw: nat, ptrIndex: nat, texts: seq<seq<byte>>, i: nat)
    requires i < |texts|
  {
    && ReachesTexts(v, ptrIndex, i) && PathCost(v, ptrIndex, i) <= ReadCost(dw, pw, texts, i)
    && TextAt(v, ItemLook(v, ptrIndex, i)) == Some(texts[i])
  }

  /** A struct at the root, and a list of texts in one of its pointers. */
  lemma TextsReached(v0: Segs, v1: Segs, v: Segs, seg: nat, at: nat, dw: nat, pw: nat, ptrIndex: nat,
                     listSeg: nat, start: nat, places: seq<Place>, texts: seq<seq<byte>>, i: nat)
    requires InBounds(v0, 0, 0) && StructAt(v0, v1, Loc(0, 0), seg, at, dw, pw) && ptrIndex < pw && i < |texts|
    requires SameExcept(v1, v, {Loc(seg, at + dw + ptrIndex)})
    requires TextList(v1, v, Loc(seg, at + dw + ptrIndex), listSeg, start, places, texts)
    ensures Reached(v, dw, pw, ptrIndex, texts, i)
  {
    hide LookAt, SlotFootprint, SameExcept, TextAt, TextInside, LookText, TextList;
    var slot := Loc(seg, at + dw + ptrIndex);
    RootStays(v0, v1, v, seg, at, dw, pw, slot);
    ItemReads(v1, v, slot, listSeg, start, places, texts, i);
    assert |v| > 0 by { SomeSegment(v, slot); }
  }

  lemma SomeSegment(v: Segs, slot: Loc)
    requires LookAt(v, slot.seg, slot.word).Found?
    ensures |v| > 0
  {
    hide LookWord;
  }

  /** The segments a message of texts has. */
  function SegmentsOf(firstWords: nat, dw: nat, pw: nat, texts: seq<seq<byte>>): nat
  {
    |MessageSizes(FirstCap(firstWords), dw + pw, WordsOfTexts(texts))|
  }

  /** Write a list of texts into a fresh message. */
  method WriteMessage(firstWords: nat, dw: nat, pw: nat, ptrIndex: nat, texts: seq<seq<byte>>) returns (b: Builder)
    requires dw < TWO_16 && ptrIndex < pw < TWO_16 && |texts| < TWO_29
    requires forall k :: 0 <= k < |texts| ==> |texts[k]| + 1 < TWO_29
    ensures b.Valid() && b.segs[0].words > 0 && |b.segs| == SegmentsOf(firstWords, dw, pw, texts)
    ensures AllReached(View(b.segs), dw, pw, ptrIndex, texts)
  {
    hide View, TextList, StructAt, SameExcept, LookAt, TextWords, Reached, InBounds;
    hide AllocSizes, ObjectSizes, ListSizes, FirstCap;
    b := new Builder(firstWords);
    assert |b.segs[0].data| == FirstCap(firstWords) by { assert SizesOf(b.segs)[0].cap == FirstCap(firstWords); }
    var rc := BuilderRoot(b);
    ghost var v0 := View(b.segs);
    assert v0 == [[0]] && InBounds(v0, 0, 0) by { RootInside(); }
    var seg, at;
    rc, seg, at := BuilderStruct(b, 0, 0, dw, pw);
    ghost var v1 := View(b.segs);
    StructInside(b.segs, v0, Loc(0, 0), seg, at, dw, pw);
    ghost var listSeg, start, places;
    assert ListFits(texts, b.Lim()) by { AllFit(texts); }
    rc, listSeg, start, places := SetListTextN(b, seg, at, dw, ptrIndex, texts);
    ghost var v := View(b.segs);
    forall i | 0 <= i < |texts|
      ensures Reached(v, dw, pw, ptrIndex, texts, i)
    {
      TextsReached(v0, v1, v, seg, at, dw, pw, ptrIndex, listSeg, start, places, texts, i);
    }
    RootKept(v0, v1, v, Loc(0, 0), Loc(seg, at + dw + ptrIndex));
    FirstInUse(b.segs);
  }

  lemma WordsFit(texts: seq<seq<byte>>)
    requires forall k :: 0 <= k < |texts| ==> |texts[k]| + 1 < TWO_29
    ensures forall k :: 0 <= k < |texts| ==> WordsOfTexts(texts)[k] <= MAX_SEGMENT_WORDS
  {
  }

  /** Frame such a message and read item i back. */
  method ListTextRoundTrip(firstWords: nat, dw: nat, pw: nat, ptrIndex: nat, texts: seq<seq<byte>>, i: nat)
    returns (rc: Code, text: seq<byte>, segments: nat)
    requires dw < TWO_16 && ptrIndex < pw < TWO_16 && i < |texts| < TWO_29
    requires forall k :: 0 <= k < |texts| ==> |texts[k]| + 1 < TWO_29
    ensures segments == SegmentsOf(firstWords, dw, pw, texts)
    ensures rc == ErrFraming <==> SegmentsOf(firstWords, dw, pw, texts) > MAX_SEGMENTS
    ensures segments == 1 <==> WordsAsked(dw + pw, WordsOfTexts(texts)) <= FirstCap(firstWords)
    ensures FitsReader(FirstCap(firstWords), dw + pw, WordsOfTexts(texts)) ==> segments <= MAX_SEGMENTS
    ensures segments <= MAX_SEGMENTS && ReadCost(dw, pw, texts, i) <= TRAVERSAL_WORDS ==> rc == OK
    ensures rc == OK ==> text == texts[i]
    ensures rc == OK || rc == ErrFraming || rc == ErrTraversal
  {
    hide View, Flat, Parse, TextWords, ReachesTexts, PathCost, ReadCost, TextAt, ItemLook, MessageSizes, FitsReader,
         WordsAsked, FirstCap;
    text := [];
    var b := WriteMessage(firstWords, dw, pw, ptrIndex, texts);
    ghost var v := View(b.segs);
    segments := |b.segs|;
    WordsFit(texts);
    MessageSpent(FirstCap(firstWords), dw + pw, WordsOfTexts(texts));
    var buf, parsed;
    rc, buf := Framer.Serialize(b);
    assert Flat(v) + [] == Flat(v);
    rc, parsed := Framer.ParseFrame(buf[..]);
    if segments > MAX_SEGMENTS {
      ParseTooMany(v, []);
      return;
    }
    ViewFramable(b.segs);
    ParseFlat(v, []);
    assert Reached(v, dw, pw, ptrIndex, texts, i);
    var m := new Message(parsed);
    rc, text := ReadItem(m, ptrIndex, i);
  }

  // ---- more segments than a reader takes --------------------------------------------------------

  /** A builder whose segments hold one word each makes as many as it is asked for, and a
      message of 17 of them is refused by the reader. */
  method SeventeenSegments() returns (rc: Code, b: Builder)
    ensures b.Valid() && |b.segs| == 17
    ensures Parse(Flat(View(b.segs))) == Err(ErrFraming) && rc == ErrFraming
  {
    hide View, Flat, Parse, Appended;
    b := new Builder(1);
    b.SetMaxSegWords(1);
    var seg, at;
    rc, seg, at := b.AllocWords(1);
    for i := 1 to 17
      invariant b.Valid() && b.maxSegWords == 1 && !b.forceSingle && |b.segs| == i
      invariant forall k :: 0 <= k < i ==> b.segs[k].words == 1 && |b.segs[k].data| == 1
    {
      rc, seg, at := b.AllocWords(1);
    }
    ghost var v := View(b.segs);
    var buf, parsed;
    rc, buf := Framer.Serialize(b);
    assert Flat(v) + [] == Flat(v);
    rc, parsed := Framer.ParseFrame(buf[..]);
    ParseTooMany(v, []);
  }

  lemma RootKept(v0: Segs, v1: Segs, v: Segs, root: Loc, slot: Loc)
    requires InBounds(v0, 0, 0) && SameExcept(v0, v1, {root}) && SameExcept(v1, v, {slot})
    ensures InBounds(v, 0, 0)
  {
    hide SameExcept;
    GrownInBounds(v0, v1, {root}, Loc(0, 0));
    GrownInBounds(v1, v, {slot}, Loc(0, 0));
  }

  lemma RootInside()
    ensures InBounds([[0]], 0, 0)
  {
  }

  lemma AllFit(texts: seq<seq<byte>>)
    requires |texts| < TWO_29 && forall k :: 0 <= k < |texts| ==> |texts[k]| + 1 < TWO_29
    ensures ListFits(texts, MAX_SEGMENT_WORDS)
  {
  }
}
