/** What the canonical form is for: it keeps the value of a message, it depends on
    nothing else, it is bounded by the budget, and it is its own canonical form. */
module CanonicalTheorems {
  import opened Options
  import opened Arith
  import opened Bytes
  import opened WirePointer
  import opened Message
  import opened ObjectTree
  import opened NormalForm
  import opened Layout
  import opened LayoutReads
  import opened Budget
  import opened Canonical
  import opened CopyProofs
  import opened Canonicalizer

  // ---- values are well formed ---------------------------------------------------------------

  lemma LowTwice(w: Word, n: nat)
    requires 1 <= n <= 8
    ensures Low(Low(w, n), n) == Low(w, n)
  {
    if n < 8 {
      var m := [0, 0x100, 0x1_0000, 0x100_0000, 0x1_0000_0000, 0x100_0000_0000, 0x1_0000_0000_0000, 0x100_0000_0000_0000][n];
      assert Low(w, n) == w % m < m;
    }
  }

  lemma {:induction false} ReadProper(segs: Segs, p: Ptr, fuel: nat, t: Tree)
    requires PtrFits(p) && Read(segs, p, fuel) == Some(t)
    ensures Proper(t) && FitsDepth(t, fuel)
    decreases fuel, 0
  {
    if p.Struct? || p.List? {
      hide ReadCell, Read, CellCount, IsPointer, ProperCell, ShapeFits;
      var d := fuel - 1;
      CellsOfRead(segs, p, d);
      forall j | 0 <= j < |t.cells|
        ensures ProperCell(t.shape, t.cells[j], j)
        ensures t.cells[j].P? ==> CellFits(t.shape, t.cells[j].tree, d)
      {
        ReadProperCell(segs, p, j, d, t.cells[j]);
      }
    }
  }

  lemma {:induction false} ReadProperCell(segs: Segs, p: Ptr, j: nat, fuel: nat, c: Cell)
    requires (p.Struct? || p.List?) && j < CellCount(ShapeOf(p)) && ReadCell(segs, p, j, fuel) == Some(c)
    ensures ProperCell(ShapeOf(p), c, j)
    ensures c.P? ==> CellFits(ShapeOf(p), c.tree, fuel)
    decreases fuel, 1
  {
    hide LookAt, Low, BytesUsed, CellCount, IsPointer, PtrFits;
    if IsPointer(ShapeOf(p), j) {
      LookFits(segs, p.seg, p.word + j);
      var q := LookAt(segs, p.seg, p.word + j).ptr;
      if fuel > 0 && Read(segs, q, fuel).Some? {
        ReadProper(segs, q, fuel, Read(segs, q, fuel).value);
      }
    } else {
      LowTwice(At(segs, p.seg, p.word + j), BytesUsed(ShapeOf(p), j));
    }
  }

  lemma ValueProper(segs: Segs)
    requires Value(segs).Some?
    ensures Proper(Value(segs).value) && FitsDepth(Value(segs).value, Fuel(0))
    ensures Proper(Trim(Value(segs).value)) && FitsDepth(Trim(Value(segs).value), Fuel(0))
  {
    hide Proper, FitsDepth, Read, LookRoot, Trim;
    RootFits(segs);
    var t := Value(segs).value;
    ReadProper(segs, LookRoot(segs).ptr, Fuel(0), t);
    TrimProper(t);
    TrimFits(t, Fuel(0));
  }

  // ---- meaning --------------------------------------------------------------------------------

  /** Reading the canonical words gives the value of the message, in normal form, when
      every offset in them fits its 30 bits. */
  lemma MeaningPreserved(segs: Segs)
    requires CanonicalCode(segs) == OK
    requires OffsetsFit(Trim(Value(segs).value))
    ensures var out := Encode(Trim(Value(segs).value));
            && Value([out]) == Some(Trim(Value(segs).value))
            && Trim(Value([out]).value) == Trim(Value(segs).value)
  {
    hide Proper, FitsDepth, Read, LookRoot, Trim, Encode, OffsetsFit;
    ValueProper(segs);
    var t := Value(segs).value;
    EncodeReadsBack(Trim(t), Fuel(0));
    TrimTwice(t);
  }

  /** A message canonicalizes exactly when its root leads somewhere and has a value of at
      most 65 levels, and looking at the root and copying fit 8388608 words; ErrKind is for a
      root that cannot be looked at, ErrAlloc for the rest. */
  lemma CanonicalSucceeds(segs: Segs)
    ensures var l := LookRoot(segs);
            && (CanonicalCode(segs) == OK <==>
                  l.Found? && Read(segs, l.ptr, 65).Some? && l.cost + CopyCost(segs, l.ptr, 65) <= 8388608)
            && (CanonicalCode(segs) == ErrKind <==> l.Bad? || l.cost > 8388608)
            && CanonicalCode(segs) in {OK, ErrKind, ErrAlloc}
  {
    hide Read, CopyCost, LookRoot;
    assert Fuel(0) == 65;
  }

  /** Messages of the same value have the same canonical words, and no others do, when
      the offsets in them fit. */
  lemma CanonicalIffSameValue(segs: Segs, segs': Segs)
    requires CanonicalCode(segs) == OK && CanonicalCode(segs') == OK
    ensures var t, t' := Trim(Value(segs).value), Trim(Value(segs').value);
            && (t == t' ==> Encode(t) == Encode(t'))
            && (OffsetsFit(t) && OffsetsFit(t') && Encode(t) == Encode(t') ==> t == t')
  {
    hide Proper, FitsDepth, Read, LookRoot, Trim, Encode, OffsetsFit;
    ValueProper(segs);
    ValueProper(segs');
    var t, t' := Trim(Value(segs).value), Trim(Value(segs').value);
    if OffsetsFit(t) && OffsetsFit(t') && Encode(t) == Encode(t') {
      EncodeInjective(t, t', Fuel(0));
    }
  }

  // ---- the budget bounds the output --------------------------------------------------------------

  /** Words of the body of an object, with the tag of a composite list. */
  function Extent(p: Ptr): nat
  {
    if p.Struct? || p.List? then |Head(ShapeOf(p))| + CellCount(ShapeOf(p)) else 0
  }

  /** Following a pointer charged for the slot and for the body it leads to. */
  predicate LookCharged(l: Look)
  {
    l.Found? ==> l.cost >= 1 + Extent(l.ptr)
  }

  /** So does every pointer below p, to `fuel` levels. */
  predicate Charged(segs: Segs, p: Ptr, fuel: nat)
    decreases fuel, 1
  {
    fuel > 0 && (p.Struct? || p.List?) ==>
      forall j :: 0 <= j < CellCount(ShapeOf(p)) && IsPointer(ShapeOf(p), j) ==> SlotCharged(segs, p.seg, p.word + j, fuel)
  }

  predicate SlotCharged(segs: Segs, seg: nat, at: int, fuel: nat)
    requires fuel > 0
    decreases fuel, 0
  {
    var l := LookAt(segs, seg, at);
    LookCharged(l) && (l.Found? ==> Charged(segs, l.ptr, fuel - 1))
  }

  predicate MessageCharged(segs: Segs)
  {
    var l := LookRoot(segs);
    LookCharged(l) && (l.Found? ==> Charged(segs, l.ptr, Fuel(0)))
  }

  lemma NarrowerCount(from: Shape, to: Shape)
    requires Narrower(from, to)
    ensures CellCount(to) <= CellCount(from) && |Head(to)| == |Head(from)|
  {
    if from.Rows? {
      var m, n := to.dw + to.pw, from.dw + from.pw;
      assert to.count * (n - m) >= 0;
      assert to.count * n == to.count * m + to.count * (n - m);
    }
  }

  /** Every word allocated was charged for by the look that reached it. */
  lemma {:induction false} SizeWithinCost(segs: Segs, p: Ptr, fuel: nat)
    requires Read(segs, p, fuel).Some? && Charged(segs, p, fuel)
    ensures Size(Trim(Read(segs, p, fuel).value)) <= Extent(p) + CopyCost(segs, p, fuel)
    decreases fuel, 1, 0
  {
    if p.Struct? || p.List? {
      hide Read, Charged, CellCount, TrimShape, Below, Size, Trim, CellsCost, Head, TargetShape, SizingCost;
      var t, d := Read(segs, p, fuel).value, fuel - 1;
      CellsOfRead(segs, p, d);
      TargetIsTrimmed(segs, p, d, t);
      TrimmedSize(t);
      NarrowerCount(ShapeOf(p), TargetShape(segs, p));
      var u := Trim(t);
      BodyOf(u);
      BelowWithinCost(segs, p, d, t, |u.cells|);
      assert u.cells[..|u.cells|] == u.cells;
      CostOf(segs, p, d);
    } else {
      assert Size(Absent) == 0;
    }
  }

  lemma {:induction false} BelowWithinCost(segs: Segs, p: Ptr, fuel: nat, t: Tree, m: nat)
    requires ReadsAs(segs, p, fuel, t) && Charged(segs, p, fuel + 1) && m <= |Trim(t).cells|
    requires Trim(t).Node? && TargetShape(segs, p) == TrimShape(t.shape, t.cells)
    ensures Below(Trim(t).cells[..m]) <= CellsCost(segs, p, TargetShape(segs, p), m, fuel)
    decreases fuel, 2, m
  {
    hide Read, CellCount, TrimShape, Trim, TargetShape, ReadCell, LookAt, Source, IsPointer, SizingCost, Extent, Size, CopyCost;
    if m > 0 {
      var u, to := Trim(t), TargetShape(segs, p);
      TrimmedSize(t);
      BelowWithinCost(segs, p, fuel, t, m - 1);
      assert DropLast(u.cells[..m]) == u.cells[..m - 1];
      TrimmedCell(t, m - 1);
      var at := Source(ShapeOf(p), to, m - 1);
      ChildWithinCost(segs, p, fuel, t, at);
    }
  }

  lemma {:induction false} ChildWithinCost(segs: Segs, p: Ptr, fuel: nat, t: Tree, at: nat)
    requires ReadsAs(segs, p, fuel, t) && Charged(segs, p, fuel + 1) && at < |t.cells|
    ensures CellSize(TrimCell(t.cells[at])) <= CellCost(segs, p, at, fuel)
    decreases fuel, 2, 0
  {
    hide CellCount, IsPointer, LookAt, Size, Trim, Extent, DataAt;
    assert ReadCell(segs, p, at, fuel) == Some(t.cells[at]);
    if IsPointer(ShapeOf(p), at) {
      assert SlotCharged(segs, p.seg, p.word + at, fuel + 1);
      var q := LookAt(segs, p.seg, p.word + at).ptr;
      if q.Null? && !ShapeOf(p).Elems? {
        TrimAbsentSize();
      } else {
        SizeWithinCost(segs, q, fuel);
      }
    }
  }

  lemma TrimAbsentSize()
    ensures Size(Trim(Absent)) == 0
  {
  }

  /** The canonical words of a charged message fit the traversal budget. */
  lemma OutputBounded(segs: Segs)
    requires CanonicalCode(segs) == OK && MessageCharged(segs)
    ensures |Encode(Trim(Value(segs).value))| <= TRAVERSAL_WORDS
  {
    hide Read, Charged, CopyCost, LookRoot, Trim, Size, Extent;
    SizeWithinCost(segs, LookRoot(segs).ptr, Fuel(0));
  }

  // ---- near and single-far pointers charge for what they reach ------------------------------------

  /** The pointer word goes through a double-far landing pad. */
  predicate ThroughDoubleFar(segs: Segs, w: Word, depth: nat)
    decreases depth
  {
    depth > 0 && w != 0 && Kind(w) == KIND_FAR &&
    (FarTwo(w) || (InBounds(segs, FarSeg(w), FarOff(w)) && ThroughDoubleFar(segs, segs[FarSeg(w)][FarOff(w)], depth - 1)))
  }

  lemma NearListCharged(segs: Segs, seg: nat, word: int, w: Word)
    ensures var l := LookList(segs, seg, word, w); l.Found? ==> l.cost >= Extent(l.ptr)
  {
    hide Offset, ListEsize, ListCount, StructDwords, StructPwords, TagCount, RowWords;
  }

  lemma {:induction false} NearWordCharged(segs: Segs, seg: nat, word: int, w: Word, depth: nat)
    requires !ThroughDoubleFar(segs, w, depth)
    ensures var l := LookWord(segs, seg, word, w, depth); l.Found? ==> l.cost >= Extent(l.ptr)
    decreases depth
  {
    hide Offset, StructDwords, StructPwords, Kind, FarTwo, FarSeg, FarOff, CapIndex, LookList, LookDoubleFar;
    if depth > 0 && w != 0 && Kind(w) == KIND_FAR {
      if InBounds(segs, FarSeg(w), FarOff(w)) {
        NearWordCharged(segs, FarSeg(w), FarOff(w), segs[FarSeg(w)][FarOff(w)], depth - 1);
      }
    } else if depth > 0 && w != 0 && Kind(w) == KIND_LIST {
      NearListCharged(segs, seg, word, w);
    }
  }

  /** No pointer below p, to `fuel` levels, goes through a double-far pad. */
  predicate Near(segs: Segs, p: Ptr, fuel: nat)
    decreases fuel, 1
  {
    fuel > 0 && (p.Struct? || p.List?) ==>
      forall j :: 0 <= j < CellCount(ShapeOf(p)) && IsPointer(ShapeOf(p), j) ==> SlotNear(segs, p.seg, p.word + j, fuel)
  }

  predicate SlotNear(segs: Segs, seg: nat, at: int, fuel: nat)
    requires fuel > 0
    decreases fuel, 0
  {
    var l := LookAt(segs, seg, at);
    && (InBounds(segs, seg, at) ==> !ThroughDoubleFar(segs, segs[seg][at], DEPTH_LIMIT))
    && (l.Found? ==> Near(segs, l.ptr, fuel - 1))
  }

  lemma SlotLookCharged(segs: Segs, seg: nat, at: int)
    requires InBounds(segs, seg, at) ==> !ThroughDoubleFar(segs, segs[seg][at], DEPTH_LIMIT)
    ensures LookCharged(LookAt(segs, seg, at))
  {
    hide LookWord, ThroughDoubleFar, Extent;
    if InBounds(segs, seg, at) {
      NearWordCharged(segs, seg, at, segs[seg][at], DEPTH_LIMIT);
    }
  }

  lemma {:induction false} NearCharged(segs: Segs, p: Ptr, fuel: nat)
    requires Near(segs, p, fuel)
    ensures Charged(segs, p, fuel)
    decreases fuel
  {
    if fuel > 0 && (p.Struct? || p.List?) {
      hide LookAt, CellCount, IsPointer, ThroughDoubleFar, LookCharged;
      forall j | 0 <= j < CellCount(ShapeOf(p)) && IsPointer(ShapeOf(p), j)
        ensures SlotCharged(segs, p.seg, p.word + j, fuel)
      {
        var at := p.word + j;
        assert SlotNear(segs, p.seg, at, fuel);
        SlotLookCharged(segs, p.seg, at);
        var l := LookAt(segs, p.seg, at);
        if l.Found? {
          NearCharged(segs, l.ptr, fuel - 1);
        }
      }
    }
  }

  /** A message whose pointers are near or single-far has canonical words within the budget. */
  lemma NearOutputBounded(segs: Segs)
    requires CanonicalCode(segs) == OK
    requires SlotNear(segs, 0, 0, Fuel(0) + 1)
    ensures MessageCharged(segs) && |Encode(Trim(Value(segs).value))| <= TRAVERSAL_WORDS
  {
    hide Near, Charged, Read, CopyCost, LookAt, ThroughDoubleFar, LookCharged, Trim, Encode;
    SlotLookCharged(segs, 0, 0);
    NearCharged(segs, LookRoot(segs).ptr, Fuel(0));
    OutputBounded(segs);
  }

  /** So its canonical words always have its value. */
  lemma NearKeepsMeaning(segs: Segs)
    requires CanonicalCode(segs) == OK
    requires SlotNear(segs, 0, 0, Fuel(0) + 1)
    ensures var t := Trim(Value(segs).value); OffsetsFit(t) && Value([Encode(t)]) == Some(t)
  {
    hide SlotNear, Read, CopyCost, LookRoot, Trim, OffsetsFit, Body, PointerTo;
    NearOutputBounded(segs);
    SmallFits(Trim(Value(segs).value));
    MeaningPreserved(segs);
  }
}
