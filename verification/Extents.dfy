/** Which words of a segment an object takes: the resolver accepts a near pointer exactly
    when they are there, and charges for exactly them. */
module Extents {
  import opened Arith
  import opened Bytes
  import opened WirePointer
  import opened WordBytes
  import opened Message
  import opened ObjectTree
  import ListViews
  import ByteOrder

  /** The bits of one element of a list that is not composite. */
  function ElementBits(esize: nat): nat
  {
    if esize == SZ_BIT then 1
    else if esize == SZ_PTR then 64
    else 8 * ListViews.ElementBytes(esize)
  }

  /** The bits of all its elements. */
  function AllBits(esize: nat, count: nat): nat
  {
    MulMono(0, count, ElementBits(esize));
    count * ElementBits(esize)
  }

  lemma ElementSizes()
    ensures ElementBits(0) == 0 && ElementBits(1) == 1 && ElementBits(2) == 8 && ElementBits(3) == 16
    ensures ElementBits(4) == 32 && ElementBits(5) == 64 && ElementBits(6) == 64
  {
  }

  lemma BitsAre(esize: nat, count: nat)
    requires esize < SZ_COMPOSITE
    ensures ListBits(esize, count) == AllBits(esize, count)
  {
    assert count * 0 == 0 && count * 1 == count;
    assert count * 8 == 8 * count && count * 16 == 16 * count && count * 32 == 32 * count && count * 64 == 64 * count;
    assert esize == 0 || esize == 1 || esize == 2 || esize == 3 || esize == 4 || esize == 5 || esize == 6;
  }

  /** The least number of words that hold so many bits. */
  predicate LeastWords(n: nat, bits: nat)
  {
    64 * n >= bits && (n > 0 ==> 64 * (n - 1) < bits)
  }

  /** A list takes the least words that hold its elements. */
  lemma ListWordsLeast(esize: nat, count: nat)
    requires esize < SZ_COMPOSITE
    ensures LeastWords(ListWords(esize, count), AllBits(esize, count))
  {
    hide ListBits, AllBits;
    BitsAre(esize, count);
  }

  /** The byte of a segment that holds the last bit of a list that starts at a word. */
  function LastByte(start: nat, esize: nat, count: nat): nat
    requires AllBits(esize, count) > 0
  {
    8 * start + (AllBits(esize, count) - 1) / 8
  }

  /** The list takes no bytes, or its last one is in the segment. */
  predicate ListEnds(segs: Segs, seg: nat, start: nat, esize: nat, count: nat)
  {
    AllBits(esize, count) > 0 ==> seg < |segs| && LastByte(start, esize, count) < 8 * |segs[seg]|
  }

  /** A near pointer to a plain list that starts in range resolves if and only if the last
      byte of its elements is in the segment; it charges the least words that hold them. */
  lemma PlainResolves(segs: Segs, seg: nat, word: nat, w: Word, depth: nat)
    requires Kind(w) == KIND_LIST && ListEsize(w) != SZ_COMPOSITE && depth > 0 && word + 1 + Offset(w) >= 0
    ensures var start, esize, count := word + 1 + Offset(w), ListEsize(w), ListCount(w);
            var l := LookWord(segs, seg, word, w, depth);
            && (l.Found? <==> ListEnds(segs, seg, start, esize, count))
            && (l.Found? ==> l.ptr == List(seg, start, esize, count, 0, 0) && LeastWords(l.cost, AllBits(esize, count)))
            && (l.Bad? ==> l == Bad(ErrBounds, 0))
  {
    hide AllBits, ListWords, Offset, ListEsize, ListCount;
    assert w != 0;
    ListWordsLeast(ListEsize(w), ListCount(w));
    LastWord(word + 1 + Offset(w), ListWords(ListEsize(w), ListCount(w)), ListEsize(w), ListCount(w));
  }

  /** The last byte of a list is in its last word. */
  lemma LastWord(start: nat, n: nat, esize: nat, count: nat)
    requires LeastWords(n, AllBits(esize, count))
    ensures AllBits(esize, count) > 0 ==> n > 0 && LastByte(start, esize, count) / 8 == start + n - 1
    ensures AllBits(esize, count) == 0 ==> n == 0
  {
    hide AllBits;
  }

  /** n words from `from` on are in the segment. */
  predicate WordsInside(segs: Segs, seg: nat, from: int, n: nat)
  {
    forall k :: from <= k < from + n ==> InBounds(segs, seg, k)
  }

  /** A near pointer to a struct resolves if and only if every word of its sections is in
      the segment; it charges for each. */
  lemma StructResolves(segs: Segs, seg: nat, word: nat, w: Word, depth: nat)
    requires Kind(w) == KIND_STRUCT && w != 0 && depth > 0
    ensures var body, n := word + 1 + Offset(w), StructDwords(w) + StructPwords(w);
            var l := LookWord(segs, seg, word, w, depth);
            && (l.Found? <==> WordsInside(segs, seg, body, n))
            && l == if l.Found? then Found(Struct(seg, body, StructDwords(w), StructPwords(w)), n) else Bad(ErrBounds, 0)
  {
    hide Offset, StructDwords, StructPwords;
    var body, n := word + 1 + Offset(w), StructDwords(w) + StructPwords(w);
    if n > 0 && WordsInside(segs, seg, body, n) {
      assert InBounds(segs, seg, body) && InBounds(segs, seg, body + n - 1);
    }
  }

  /** Row i of a composite list, in rows of m words after the tag, is in the segment. */
  predicate RowInside(segs: Segs, seg: nat, tag: int, m: nat, i: nat)
  {
    forall k :: 0 <= k < m ==> InBounds(segs, seg, tag + 1 + Place(i, k, m))
  }

  predicate RowsAllInside(segs: Segs, seg: nat, tag: int, count: nat, m: nat)
  {
    forall i :: 0 <= i < count ==> RowInside(segs, seg, tag, m, i)
  }

  /** A near pointer to a composite list resolves if and only if its tag is in the segment,
      and every word of every row; it charges for each. */
  lemma CompositeResolves(segs: Segs, seg: nat, word: nat, w: Word, depth: nat)
    requires Kind(w) == KIND_LIST && ListEsize(w) == SZ_COMPOSITE && depth > 0
    ensures var start := word + 1 + Offset(w);
            var l := LookWord(segs, seg, word, w, depth);
            if !InBounds(segs, seg, start) then l == Bad(ErrBounds, 0)
            else
              var tag := segs[seg][start];
              var count, dw, pw := TagCount(tag), StructDwords(tag), StructPwords(tag);
              && (l.Found? <==> RowsAllInside(segs, seg, start, count, dw + pw))
              && l == if l.Found? then Found(List(seg, start + 1, SZ_COMPOSITE, count, dw, pw), 1 + count * (dw + pw))
                      else Bad(ErrBounds, 1)
  {
    hide Offset, TagCount, StructDwords, StructPwords;
    assert w != 0;
    var start := word + 1 + Offset(w);
    if InBounds(segs, seg, start) {
      var tag := segs[seg][start];
      RowsInside(segs, seg, start, TagCount(tag), StructDwords(tag) + StructPwords(tag));
    }
  }

  lemma RowsInside(segs: Segs, seg: nat, tag: int, count: nat, m: nat)
    requires InBounds(segs, seg, tag)
    ensures (RowWords(count, m) > 0 ==> InBounds(segs, seg, tag + RowWords(count, m)))
              <==> RowsAllInside(segs, seg, tag, count, m)
  {
    hide Place;
    if RowsAllInside(segs, seg, tag, count, m) {
      if RowWords(count, m) > 0 {
        PlaceMono(0, count, m);
        var i, k := RowOf(RowWords(count, m) - 1, count, m);
        assert RowInside(segs, seg, tag, m, i);
      }
    } else {
      var i :| 0 <= i < count && !RowInside(segs, seg, tag, m, i);
      var k :| 0 <= k < m && !InBounds(segs, seg, tag + 1 + Place(i, k, m));
      PlaceFits(i, k, count, m);
    }
  }

  /** A capability word resolves to the capability it was made from, free of charge. */
  lemma CapResolves(segs: Segs, seg: nat, word: nat, index: nat, depth: nat)
    requires index < TWO_32 && depth > 0
    ensures LookWord(segs, seg, word, MakeCap(index), depth) == Found(Cap(index), 0)
  {
    hide Kind, CapIndex, MakeCap;
    CapFields(index);
  }

  /** A double-far pointer leads by way of two pad words that must be there: a far pointer to
      the content, and a word that says what it is. Structs and composite lists are charged
      for with the pad, other lists are not; only the tag of a composite list is looked for. */
  lemma DoubleFarResolves(segs: Segs, seg: nat, word: nat, w: Word, depth: nat)
    requires Kind(w) == KIND_FAR && FarTwo(w) && depth > 0
    ensures var tseg, toff := FarSeg(w), FarOff(w);
            var l := LookWord(segs, seg, word, w, depth);
            if tseg < |segs| && toff + 2 <= |segs[tseg]| then l == PadLook(segs, segs[tseg][toff], segs[tseg][toff + 1])
            else l == Bad(ErrBounds, 0)
  {
    hide Offset, StructDwords, StructPwords, ListEsize, ListCount, Kind, FarTwo, FarSeg, FarOff, TagCount;
    assert w != 0 by { ZeroKind(); }
  }

  /** What the two words of a pad lead to. */
  function PadLook(segs: Segs, pad: Word, tag: Word): Look
  {
    var cseg, coff := FarSeg(pad), FarOff(pad);
    if Kind(pad) != KIND_FAR || FarTwo(pad) || Kind(tag) == KIND_FAR || Kind(tag) == KIND_CAP then Bad(ErrKind, 2)
    else if Kind(tag) == KIND_STRUCT then
      Found(Struct(cseg, coff, StructDwords(tag), StructPwords(tag)), 2 + (StructDwords(tag) + StructPwords(tag)))
    else if ListEsize(tag) != SZ_COMPOSITE then Found(List(cseg, coff, ListEsize(tag), ListCount(tag), 0, 0), 2)
    else if cseg < |segs| && coff < |segs[cseg]| then
      var t := segs[cseg][coff];
      var count, dw, pw := TagCount(t), StructDwords(t), StructPwords(t);
      MulMono(0, count, dw + pw);
      Found(List(cseg, coff + 1, SZ_COMPOSITE, count, dw, pw), 2 + (1 + count * (dw + pw)))
    else Bad(ErrBounds, 2)
  }

  /** A far pointer leads where its pad does, for one word more, as long as that is there. */
  lemma FarResolves(segs: Segs, seg: nat, word: nat, w: Word, depth: nat)
    requires Kind(w) == KIND_FAR && !FarTwo(w) && depth > 1
    ensures var tseg, toff := FarSeg(w), FarOff(w);
            var l := LookWord(segs, seg, word, w, depth);
            if tseg < |segs| && toff < |segs[tseg]| then l == Plus(1, LookWord(segs, tseg, toff, segs[tseg][toff], depth - 1))
            else l == Bad(ErrBounds, 0)
  {
    hide Offset, LookStruct, LookList, LookDoubleFar, Kind, FarTwo, FarSeg, FarOff;
    assert w != 0 by { ZeroKind(); }
  }

  /** A chain of n far pointers, each to the next one's word in one segment. */
  predicate FarChain(segs: Segs, n: nat)
  {
    |segs| == 1 && |segs[0]| > n && forall i :: 0 <= i < n ==> segs[0][i] == MakeFar(false, i + 1, 0)
  }

  /** As deep as the limit such a chain fails, at a charge for every pad on the way. */
  lemma {:induction false} ChainFails(segs: Segs, n: nat, i: nat, depth: nat)
    requires FarChain(segs, n) && n < TWO_29 && i + depth < n
    ensures LookWord(segs, 0, i, segs[0][i], depth) == Bad(ErrDepth, depth)
    decreases depth
  {
    hide MakeFar, Kind, FarTwo, FarOff, FarSeg, LookDoubleFar;
    if depth > 0 {
      FarFields(false, i + 1, 0);
      ChainFails(segs, n, i + 1, depth - 1);
    }
  }

  /** So it does from the root: 64 pads are followed, and the 65th is not. */
  lemma LongChain(segs: Segs)
    requires FarChain(segs, 65)
    ensures LookRoot(segs) == Bad(ErrDepth, 65)
  {
    hide LookWord;
    ChainFails(segs, 65, 0, 64);
  }

  lemma ZeroKind()
    ensures Kind(0) == KIND_STRUCT
  {
  }

  // ---- slots of objects -------------------------------------------------------------------------

  /** A word at an offset from the start of an object: what its slot leads to, where there is
      one; null past the pointers of a struct. */
  lemma FieldSlots(segs: Segs, s: Ptr, k: nat)
    ensures s.Struct? && k < s.pw ==> LookField(segs, s, k) == LookAt(segs, s.seg, s.word + (s.dw + k))
    ensures s.Struct? && k >= s.pw ==> LookField(segs, s, k) == Found(Null, 0)
    ensures !s.Struct? ==> LookField(segs, s, k) == Bad(ErrKind, 0)
  {
    hide LookAt;
  }

  /** Elements of a pointer list are its words; those of a composite list are its rows, one
      after the other; other lists have none that lead anywhere. */
  lemma ElementSlots(segs: Segs, list: Ptr, i: nat)
    ensures !list.List? ==> LookElement(segs, list, i) == Bad(ErrKind, 0)
    ensures list.List? && i >= list.count ==> LookElement(segs, list, i) == Bad(ErrBounds, 0)
    ensures list.List? && i < list.count && list.esize == SZ_PTR ==>
              LookElement(segs, list, i) == LookAt(segs, list.seg, list.word + i)
    ensures list.List? && i < list.count && list.esize == SZ_COMPOSITE ==>
              LookElement(segs, list, i) == Found(Element(list, i), 0)
    ensures list.List? && i < list.count && list.esize != SZ_PTR && list.esize != SZ_COMPOSITE ==>
              LookElement(segs, list, i) == Bad(ErrKind, 0)
  {
    hide LookAt, Element;
  }

  lemma RowsFollow(list: Ptr, i: nat)
    requires list.List?
    ensures Element(list, 0) == Struct(list.seg, list.word, list.dw, list.pw)
    ensures Element(list, i + 1) == Struct(list.seg, Element(list, i).word + (list.dw + list.pw), list.dw, list.pw)
  {
    hide Place;
    PlaceStep(i, 0, 0, list.dw + list.pw);
  }

  /** The root is word 0 of segment 0; a message without segments has none. */
  lemma RootSlot(segs: Segs)
    ensures LookRoot(segs) == if |segs| == 0 then Bad(ErrArg, 0) else LookAt(segs, 0, 0)
    ensures |segs| > 0 && |segs[0]| == 0 ==> LookRoot(segs) == Bad(ErrBounds, 0)
  {
    hide LookWord;
  }

  // ---- a plain list's value is its bytes --------------------------------------------------------

  /** Byte b of a word in a body: of a plain list, zero past the bytes of its elements. */
  lemma {:induction false} LowBytes(w: Word, n: nat, b: nat)
    requires 1 <= n <= 8 && b < 8
    ensures Store(Low(w, n), 8)[b] == if b < n then Store(w, 8)[b] else 0
  {
    hide Low;
    LowIs(w, n);
    StoreMod(w, 8, n, b);
  }

  lemma LowIs(w: Word, n: nat)
    requires 1 <= n <= 8
    ensures Low(w, n) == w % Pow256(n)
  {
    assert Pow256(1) == 256;
    assert Pow256(2) == 256 * Pow256(1);
    assert Pow256(3) == 256 * Pow256(2);
    assert Pow256(4) == 256 * Pow256(3);
    assert Pow256(5) == 256 * Pow256(4);
    assert Pow256(6) == 256 * Pow256(5);
    assert Pow256(7) == 256 * Pow256(6);
    assert Pow256(8) == 256 * Pow256(7);
  }

  lemma Digits(r: nat, a: nat, b: nat)
    requires r == a + 256 * b && a < 256
    ensures r % 256 == a && r / 256 == b
  {
  }

  lemma ModParts(w: nat, n: nat)
    requires n > 0
    ensures w % Pow256(n) % 256 == w % 256 && w % Pow256(n) / 256 == w / 256 % Pow256(n - 1)
  {
    var p := Pow256(n - 1);
    assert Pow256(n) == 256 * p;
    hide Pow256;
    ByteOrder.ModMod(w, p);
    Digits(w % Pow256(n), w % 256, w / 256 % p);
  }

  lemma StoreTail(n: nat, k: nat, b: nat)
    requires 0 < b < k
    ensures Store(n, k)[b] == Store(n / 256, k - 1)[b - 1]
  {
  }

  lemma StoreHead(n: nat, k: nat)
    requires k > 0
    ensures Store(n, k)[0] == n % 256
  {
  }

  lemma {:induction false} StoreMod(w: nat, k: nat, n: nat, b: nat)
    requires n <= k && b < k
    ensures Store(w % Pow256(n), k)[b] == if b < n then Store(w, k)[b] else 0
    decreases k
  {
    if n == 0 {
      StoreZero(k, b);
    } else {
      hide Store, Pow256;
      ModParts(w, n);
      var r := w % Pow256(n);
      if b == 0 {
        StoreHead(r, k);
        StoreHead(w, k);
      } else {
        StoreMod(w / 256, k - 1, n - 1, b - 1);
        StoreTail(r, k, b);
        StoreTail(w, k, b);
      }
    }
  }

  lemma {:induction false} StoreZero(k: nat, b: nat)
    requires b < k
    ensures Store(0, k)[b] == 0
    decreases k
  {
    if b > 0 {
      StoreZero(k - 1, b - 1);
      assert Store(0, k)[b] == Store(0, k - 1)[b - 1];
    }
  }

  /** The bytes the elements of a list take. */
  function AllBytes(esize: nat, count: nat): nat
  {
    (AllBits(esize, count) + 7) / 8
  }

  /** The words of a plain list's value hold the bytes of its elements, and zeros: bits and
      bytes past the last element do not count. */
  lemma PlainBytes(segs: Segs, p: Ptr, j: nat, b: nat)
    requires p.List? && p.esize < SZ_COMPOSITE && p.esize != SZ_PTR && j < CellCount(ShapeOf(p)) && b < 8
    ensures Store(DataAt(segs, p, j), 8)[b]
         == if 8 * j + b < AllBytes(p.esize, p.count) then Store(At(segs, p.seg, p.word + j), 8)[b] else 0
  {
    hide AllBits, Store, ListBits, Low;
    BitsAre(p.esize, p.count);
    ListWordsLeast(p.esize, p.count);
    LowBytes(At(segs, p.seg, p.word + j), BytesUsed(ShapeOf(p), j), b);
  }
}
