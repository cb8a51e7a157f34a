/** Canonicalizing a canonical message gives it back, within the same budget. */
module CanonicalIdempotence {
  import opened Options
  import opened Arith
  import opened Bytes
  import opened WirePointer
  import opened Message
  import opened ObjectTree
  import opened NormalForm
  import opened Layout
  import opened LayoutReads
  import opened Budget
  import opened Canonical
  import opened CopyProofs
  import opened Canonicalizer
  import opened CanonicalTheorems

  // ---- a canonical message is sound --------------------------------------------------------------

  lemma {:induction false} LaidOutSound(ws: seq<Word>, q: Ptr, f: nat, t: Tree, fuel: nat)
    requires Proper(t) && LaidOut(ws, f, t) && OffsetsFit(t) && Denotes(q, f, t)
    ensures Sound([ws], q, fuel)
    decreases fuel
  {
    hide LaidOut, Proper, LookAt, CellCount, IsPointer, Head, Sound, LinkFits, Below;
    if t.Node? {
      ProperCount(t);
      forall j | 0 <= j < CellCount(ShapeOf(q)) && !IsPointer(ShapeOf(q), j)
        ensures InBounds([ws], q.seg, q.word + j)
      {
        CellLinked(ws, f, t, j);
      }
      if fuel > 0 {
        forall j | 0 <= j < CellCount(ShapeOf(q)) && IsPointer(ShapeOf(q), j)
          ensures SlotSound([ws], q.seg, q.word + j, fuel)
        {
          CellLinked(ws, f, t, j);
          ProperCells(t, j);
          var c := t.cells[j].tree;
          assert CellOffsetFits(t, j);
          LookLinked(ws, q.word + j, CellBase(t, f, j), c);
          LinkedLaidOut(ws, q.word + j, CellBase(t, f, j), c);
          LaidOutSound(ws, LookAt([ws], 0, q.word + j).ptr, CellBase(t, f, j), c, fuel - 1);
        }
      }
    }
    SoundMeans([ws], q, fuel);
  }

  lemma SoundMeans(segs: Segs, p: Ptr, fuel: nat)
    requires DataInside(segs, p)
    requires fuel > 0 && (p.Struct? || p.List?) ==>
          forall j :: 0 <= j < CellCount(ShapeOf(p)) && IsPointer(ShapeOf(p), j) ==> SlotSound(segs, p.seg, p.word + j, fuel)
    ensures Sound(segs, p, fuel)
  {
    hide CellCount, IsPointer, SlotSound;
  }

  // ---- copying the copy costs no more -----------------------------------------------------------

  /** q, in the words ws, is the copy of p, whose value is t. */
  predicate CopyOf(segs: Segs, p: Ptr, fuel: nat, t: Tree, ws: seq<Word>, q: Ptr, f: nat)
  {
    && ReadsAs(segs, p, fuel, t) && PtrFits(p) && Charged(segs, p, fuel + 1)
    && Proper(t) && Proper(Trim(t)) && |ws| <= TWO_29
    && LaidOut(ws, f, Trim(t)) && Denotes(q, f, Trim(t))
  }

  /** Slot j of the copy, and the slot `at` it was copied from: both lead somewhere, to
      c and its normal form, and following the first is no dearer. */
  lemma SlotPair(segs: Segs, p: Ptr, fuel: nat, t: Tree, ws: seq<Word>, q: Ptr, f: nat, j: nat)
    returns (at: nat, c: Tree, l: Look, l': Look)
    requires CopyOf(segs, p, fuel, t, ws, q, f) && t.Node?
    requires j < |Trim(t).cells| && IsPointer(Trim(t).shape, j)
    ensures at == Source(t.shape, Trim(t).shape, j) && at < |t.cells| && IsPointer(t.shape, at)
    ensures (p.Struct? || p.List?) && (q.Struct? || q.List?) && q.seg == 0
    ensures l == LookAt(segs, p.seg, p.word + at) && l' == LookAt([ws], 0, q.word + j)
    ensures l.Found? && l'.Found? && l'.cost <= l.cost && (l'.ptr.Null? <==> l.ptr.Null?)
    ensures Proper(Trim(c)) && LaidOut(ws, CellBase(Trim(t), f, j), Trim(c))
    ensures Denotes(l'.ptr, CellBase(Trim(t), f, j), Trim(c))
    ensures PtrFits(l.ptr) && Charged(segs, l.ptr, fuel)
    ensures !l.ptr.Null? ==> Read(segs, l.ptr, fuel) == Some(c)
  {
    hide LookAt, LaidOut, Proper, CellCount, Source, IsPointer, TrimShape, Charged, PtrFits, Read, Extent, Trim, Head;
    var u := Trim(t);
    TrimmedSize(t);
    TrimmedCell(t, j);
    at := Source(t.shape, u.shape, j);
    TrimCellIs(t.cells[at]);
    ProperCells(u, j);
    c := t.cells[at].tree;
    l, l' := LookAt(segs, p.seg, p.word + at), LookAt([ws], 0, q.word + j);
    CellLinked(ws, f, u, j);
    LinkedLaidOut(ws, q.word + j, CellBase(u, f, j), Trim(c));
    LinkedFits(ws, q.word + j, CellBase(u, f, j), Trim(c));
    LookLinked(ws, q.word + j, CellBase(u, f, j), Trim(c));
    SlotSource(segs, p, fuel, t, at);
    ExtentDown(segs, l.ptr, fuel, c);
  }

  lemma TrimCellIs(c: Cell)
    ensures TrimCell(c) == match c case W(_) => c case P(t) => P(Trim(t))
  {
  }

  lemma SlotSource(segs: Segs, p: Ptr, fuel: nat, t: Tree, at: nat)
    requires ReadsAs(segs, p, fuel, t) && Charged(segs, p, fuel + 1) && at < |t.cells| && IsPointer(t.shape, at)
    ensures var l := LookAt(segs, p.seg, p.word + at);
            && l.Found? && LookCharged(l) && PtrFits(l.ptr) && Charged(segs, l.ptr, fuel) && t.cells[at].P?
            && (l.ptr.Null? ==> t.cells[at].tree.Absent?)
            && (!l.ptr.Null? ==> Read(segs, l.ptr, fuel) == Some(t.cells[at].tree))
  {
    hide LookAt, CellCount, IsPointer, PtrFits, Extent, DataAt;
    assert ReadCell(segs, p, at, fuel) == Some(t.cells[at]);
    assert SlotCharged(segs, p.seg, p.word + at, fuel + 1);
    LookFits(segs, p.seg, p.word + at);
    NullReads(segs, fuel);
    NoneAtZero(segs, Null);
  }

  /** The body of the normal form is no larger than the object it was read from. */
  lemma ExtentDown(segs: Segs, p: Ptr, fuel: nat, t: Tree)
    requires (p.Null? && t.Absent?) || Read(segs, p, fuel) == Some(t)
    ensures Extent(p) >= if Trim(t).Absent? then 0 else |Head(Trim(t).shape)| + |Trim(t).cells|
    ensures Trim(t).Absent? <==> p.Null?
  {
    hide Head, CellCount, ReadCells, TrimShape, Trim;
    AbsentTrim(t);
    if t.Node? {
      TrimmedSize(t);
      TrimNarrows(t.shape, t.cells);
      NarrowerCount(t.shape, Trim(t).shape);
    }
  }

  /** Sizing a row of the copy: fewer slots, each no dearer. */
  lemma {:induction false} RowTrimDown(segs: Segs, seg: nat, at: int, n: nat, ws: seq<Word>, at': int, n': nat)
    requires n' <= n
    requires forall k :: 0 <= k < n' ==> SlotDown(segs, seg, at, ws, at', k)
    requires forall k :: n' <= k < n ==> RowSlotNull(segs, seg, at, k)
    ensures TrimCost([ws], 0, at', n') <= TrimCost(segs, seg, at, n)
    decreases n
  {
    hide LookAt;
    if n' < n {
      assert RowSlotNull(segs, seg, at, n - 1);
      RowTrimDown(segs, seg, at, n - 1, ws, at', n');
    } else if n > 0 {
      assert SlotDown(segs, seg, at, ws, at', n - 1);
      RowTrimDown(segs, seg, at, n - 1, ws, at', n - 1);
    }
  }

  predicate SlotDown(segs: Segs, seg: nat, at: int, ws: seq<Word>, at': int, k: nat)
  {
    && LookAt([ws], 0, at' + k).cost <= LookAt(segs, seg, at + k).cost
    && (SlotNull([ws], 0, at' + k) <==> SlotNull(segs, seg, at + k))
  }

  predicate RowSlotNull(segs: Segs, seg: nat, at: int, k: nat)
  {
    SlotNull(segs, seg, at + k)
  }

  lemma SlotPairDown(segs: Segs, p: Ptr, fuel: nat, t: Tree, ws: seq<Word>, q: Ptr, f: nat, j: nat)
    requires CopyOf(segs, p, fuel, t, ws, q, f) && t.Node?
    requires j < |Trim(t).cells| && IsPointer(Trim(t).shape, j)
    ensures (q.Struct? || q.List?)
    ensures var l, l' := LookAt(segs, p.seg, p.word + Source(t.shape, Trim(t).shape, j)), LookAt([ws], 0, q.word + j);
            && l'.cost <= l.cost
            && (SlotNull([ws], 0, q.word + j) <==> SlotNull(segs, p.seg, p.word + Source(t.shape, Trim(t).shape, j)))
  {
    hide CopyOf, LookAt, LaidOut, Proper, CellCount, Source, IsPointer, Charged, PtrFits, Read, Trim, Head;
    var at, c, l, l' := SlotPair(segs, p, fuel, t, ws, q, f, j);
  }

  lemma CopyShape(segs: Segs, p: Ptr, fuel: nat, t: Tree, ws: seq<Word>, q: Ptr, f: nat)
    requires CopyOf(segs, p, fuel, t, ws, q, f)
    ensures t.Node? && Trim(t).Node? && (p.Struct? || p.List?) && (q.Struct? || q.List?) && q.seg == 0
    ensures ShapeOf(p) == t.shape && ShapeOf(q) == Trim(t).shape == TrimShape(t.shape, t.cells) == TargetShape(segs, p)
    ensures |t.cells| == CellCount(t.shape) && |Trim(t).cells| == CellCount(ShapeOf(q))
    ensures Narrower(t.shape, Trim(t).shape) && |ws| <= TWO_29
  {
    hide LaidOut, Proper, CellCount, Charged, PtrFits, Trim, TrimShape, TargetShape;
    TargetIsTrimmed(segs, p, fuel, t);
    TrimmedSize(t);
    TrimNarrows(t.shape, t.cells);
  }

  lemma FieldsSizingDown(segs: Segs, p: Ptr, fuel: nat, t: Tree, ws: seq<Word>, q: Ptr, f: nat)
    requires CopyOf(segs, p, fuel, t, ws, q, f) && p.Struct?
    ensures (q.Struct? || q.List?) && SizingCost([ws], q) <= SizingCost(segs, p)
  {
    hide CopyOf, LookAt, TrimCost, SlotNull, SlotsUsed, WordsUsed, Trim, TrimShape;
    CopyShape(segs, p, fuel, t, ws, q, f);
    var at, at' := p.word + p.dw, q.word + q.dw;
    forall k | 0 <= k < q.pw
      ensures SlotDown(segs, p.seg, at, ws, at', k)
    {
      SlotPairDown(segs, p, fuel, t, ws, q, f, q.dw + k);
    }
    forall k | q.pw <= k < p.pw
      ensures RowSlotNull(segs, p.seg, at, k)
    {
      SlotsPastUsed(segs, p.seg, at, p.pw, k);
    }
    RowTrimDown(segs, p.seg, at, p.pw, ws, at', q.pw);
  }

  lemma RowSizingDown(segs: Segs, p: Ptr, fuel: nat, t: Tree, ws: seq<Word>, q: Ptr, f: nat, i: nat)
    requires CopyOf(segs, p, fuel, t, ws, q, f) && p.List? && p.esize == SZ_COMPOSITE && i < p.count
    ensures q.List? && q.count == p.count
    ensures TrimCost([ws], 0, RowAt(q, i) + q.dw, q.pw) <= TrimCost(segs, p.seg, RowAt(p, i) + p.dw, p.pw)
  {
    hide CopyOf, LookAt, TrimCost, SlotNull, SlotsUsed, WordsUsed, MaxSlots, MaxWords, Trim, TrimShape, Place,
         CellCount, Source, IsPointer;
    CopyShape(segs, p, fuel, t, ws, q, f);
    var at, at', n, m := RowAt(p, i) + p.dw, RowAt(q, i) + q.dw, q.dw + q.pw, p.dw + p.pw;
    forall k | 0 <= k < q.pw
      ensures SlotDown(segs, p.seg, at, ws, at', k)
    {
      SourceRow(t.shape, Trim(t).shape, i, q.dw + k);
      SlotPairDown(segs, p, fuel, t, ws, q, f, Place(i, q.dw + k, n));
      PlaceStep(i, 0, q.dw + k, n);
      PlaceStep(i, 0, p.dw + k, m);
    }
    forall k | q.pw <= k < p.pw
      ensures RowSlotNull(segs, p.seg, at, k)
    {
      RowWithin(segs, p, p.count, i);
      SlotsPastUsed(segs, p.seg, at, p.pw, k);
    }
    RowTrimDown(segs, p.seg, at, p.pw, ws, at', q.pw);
  }

  lemma {:induction false} RowsSizingDown(segs: Segs, p: Ptr, fuel: nat, t: Tree, ws: seq<Word>, q: Ptr, f: nat, rows: nat)
    requires CopyOf(segs, p, fuel, t, ws, q, f) && p.List? && p.esize == SZ_COMPOSITE && rows <= p.count
    ensures q.List? && q.esize == SZ_COMPOSITE && q.seg == 0 && q.count == p.count
    ensures RowsTrimCost([ws], q, rows) <= RowsTrimCost(segs, p, rows)
  {
    hide CopyOf, TrimCost, RowAt;
    if rows > 0 {
      RowsSizingDown(segs, p, fuel, t, ws, q, f, rows - 1);
      RowSizingDown(segs, p, fuel, t, ws, q, f, rows - 1);
    } else {
      CopyShape(segs, p, fuel, t, ws, q, f);
    }
  }

  lemma SizingDown(segs: Segs, p: Ptr, fuel: nat, t: Tree, ws: seq<Word>, q: Ptr, f: nat)
    requires CopyOf(segs, p, fuel, t, ws, q, f)
    ensures (p.Struct? || p.List?) && (q.Struct? || q.List?) && SizingCost([ws], q) <= SizingCost(segs, p)
  {
    hide CopyOf, TrimCost, RowsTrimCost, TargetShape, TrimShape, Trim;
    CopyShape(segs, p, fuel, t, ws, q, f);
    if p.Struct? {
      FieldsSizingDown(segs, p, fuel, t, ws, q, f);
    } else if p.esize == SZ_COMPOSITE {
      RowsSizingDown(segs, p, fuel, t, ws, q, f, p.count);
    }
  }

  /** Copying the copy of p spends no more than copying p did. */
  lemma {:induction false} CostDown(segs: Segs, p: Ptr, fuel: nat, t: Tree, ws: seq<Word>, q: Ptr, f: nat)
    requires CopyOf(segs, p, fuel, t, ws, q, f)
    ensures CopyCost([ws], q, fuel + 1) <= CopyCost(segs, p, fuel + 1)
    decreases fuel, 2, 0
  {
    hide CopyOf, TargetShape, SizingCost, CellsCost, Trim, TrimShape, CellCount;
    SizingDown(segs, p, fuel, t, ws, q, f);
    CopyShape(segs, p, fuel, t, ws, q, f);
    CopyTarget(segs, p, fuel, t, ws, q, f);
    CellsDown(segs, p, fuel, t, ws, q, f, CellCount(ShapeOf(q)));
    CostOf(segs, p, fuel);
    CostOf([ws], q, fuel);
  }

  /** The copy is already trimmed. */
  lemma CopyTarget(segs: Segs, p: Ptr, fuel: nat, t: Tree, ws: seq<Word>, q: Ptr, f: nat)
    requires CopyOf(segs, p, fuel, t, ws, q, f)
    ensures (q.Struct? || q.List?) && TargetShape([ws], q) == ShapeOf(q)
  {
    hide Trim, TrimShape, TargetShape, LaidOut, Proper, ReadCell, CellCount, Charged, Read, PtrFits;
    CopyShape(segs, p, fuel, t, ws, q, f);
    CopyFits(segs, p, fuel, t);
    var u := Trim(t);
    LaidOutFits(ws, f, u);
    ReadLinked(ws, q, f, u, fuel + 1);
    CellsOfRead([ws], q, fuel);
    TargetIsTrimmed([ws], q, fuel, u);
    TrimmedShape(t);
  }

  lemma CopyFits(segs: Segs, p: Ptr, fuel: nat, t: Tree)
    requires ReadsAs(segs, p, fuel, t) && PtrFits(p) && Proper(t)
    ensures FitsDepth(Trim(t), fuel + 1)
  {
    hide Trim, ReadCell, Proper, PtrFits, CellCount;
    forall j | 0 <= j < CellCount(ShapeOf(p))
      ensures Readable(segs, p, j, fuel)
    {
      assert ReadCell(segs, p, j, fuel) == Some(t.cells[j]);
    }
    CellsOfRead(segs, p, fuel);
    assert Read(segs, p, fuel + 1).value.cells == t.cells;
    ReadProper(segs, p, fuel + 1, t);
    TrimFits(t, fuel + 1);
  }

  lemma {:induction false} CellsDown(segs: Segs, p: Ptr, fuel: nat, t: Tree, ws: seq<Word>, q: Ptr, f: nat, m: nat)
    requires CopyOf(segs, p, fuel, t, ws, q, f)
    requires (p.Struct? || p.List?) && (q.Struct? || q.List?) && m <= CellCount(ShapeOf(q))
    ensures CellsCost([ws], q, ShapeOf(q), m, fuel) <= CellsCost(segs, p, ShapeOf(q), m, fuel)
    decreases fuel, 1, m
  {
    hide CopyOf, CellCost, Source, CellCount;
    if m > 0 {
      CellsDown(segs, p, fuel, t, ws, q, f, m - 1);
      SourceSelf(ShapeOf(q), m - 1);
      CellDown(segs, p, fuel, t, ws, q, f, m - 1);
    }
  }

  lemma {:induction false} CellDown(segs: Segs, p: Ptr, fuel: nat, t: Tree, ws: seq<Word>, q: Ptr, f: nat, j: nat)
    requires CopyOf(segs, p, fuel, t, ws, q, f)
    requires (p.Struct? || p.List?) && (q.Struct? || q.List?) && j < CellCount(ShapeOf(q))
    ensures CellCost([ws], q, j, fuel) <= CellCost(segs, p, Source(ShapeOf(p), ShapeOf(q), j), fuel)
    decreases fuel, 0, 0
  {
    hide CopyOf, Source, CellCount, IsPointer, LookAt, CopyCost, Trim, TrimShape, TargetShape, Charged, PtrFits,
         Proper, LaidOut, Read;
    CopyShape(segs, p, fuel, t, ws, q, f);
    if IsPointer(ShapeOf(q), j) {
      var at, c, l, l' := SlotPair(segs, p, fuel, t, ws, q, f, j);
      NullCost(segs, fuel);
      NullCost([ws], fuel);
      if !l.ptr.Null? {
        NoneAtZero(segs, l.ptr);
        ChildCopy(segs, l.ptr, fuel - 1, c, ws, l'.ptr, CellBase(Trim(t), f, j));
        CostDown(segs, l.ptr, fuel - 1, c, ws, l'.ptr, CellBase(Trim(t), f, j));
      }
    }
  }

  lemma NullCost(segs: Segs, fuel: nat)
    ensures CopyCost(segs, Null, fuel) == 0
  {
  }

  lemma ChildCopy(segs: Segs, p: Ptr, fuel: nat, t: Tree, ws: seq<Word>, q: Ptr, f: nat)
    requires Read(segs, p, fuel + 1) == Some(t) && !p.Null? && PtrFits(p) && Charged(segs, p, fuel + 1)
    requires Proper(Trim(t)) && |ws| <= TWO_29 && LaidOut(ws, f, Trim(t)) && Denotes(q, f, Trim(t))
    ensures CopyOf(segs, p, fuel, t, ws, q, f)
  {
    hide Trim, Proper, LaidOut, Denotes, Charged, PtrFits, ReadCell, CellCount;
    assert p.Struct? || p.List?;
    CellsOfRead(segs, p, fuel);
    ReadProper(segs, p, fuel + 1, t);
  }

  // ---- the theorem ----------------------------------------------------------------------------------

  /** Canonicalizing the canonical words of a charged message succeeds, and gives the same words. */
  lemma CanonicalTwice(segs: Segs)
    requires CanonicalCode(segs) == OK && MessageCharged(segs)
    ensures var out := Encode(Trim(Value(segs).value));
            && MessageSound([out])
            && CanonicalCode([out]) == OK
            && Value([out]).Some? && Encode(Trim(Value([out]).value)) == out
  {
    hide Read, CopyCost, Trim, Encode, Charged, LookRoot, Proper, FitsDepth, Sound;
    var t := Value(segs).value;
    var u, out := Trim(t), Encode(Trim(t));
    OutputBounded(segs);
    SmallFits(u);
    MeaningPreserved(segs);
    ValueProper(segs);
    RootFits(segs);
    var f := RootLaidOut(u);
    var p, q := LookRoot(segs).ptr, LookRoot([out]).ptr;
    LaidOutSound(out, q, f, u, Fuel(0));
    ExtentDown(segs, p, Fuel(0), t);
    NullCost([out], Fuel(0));
    if !p.Null? {
      ChildCopy(segs, p, Fuel(0) - 1, t, out, q, f);
      CostDown(segs, p, Fuel(0) - 1, t, out, q, f);
    }
  }

  lemma RootLaidOut(u: Tree) returns (f: nat)
    requires Proper(u) && |Encode(u)| <= TWO_29
    ensures var ws := Encode(u);
            var l := LookRoot([ws]);
            && LaidOut(ws, f, u) && l.Found? && Denotes(l.ptr, f, u)
            && l.cost == 1 + if u.Absent? then 0 else |Head(u.shape)| + |u.cells|
  {
    hide Body, Size, PointerTo, LookAt, Proper, Head;
    var ws := Encode(u);
    f := 1;
    assert ws[1..1 + Size(u)] == Body(u);
    assert Linked(ws, 0, 1, u);
    LinkedFits(ws, 0, 1, u);
    LookLinked(ws, 0, 1, u);
  }
}
