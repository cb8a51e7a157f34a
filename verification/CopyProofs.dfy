/** What the end of a copy loop shows about the object copied. */
module CopyProofs {
  import opened Options
  import opened Arith
  import opened WirePointer
  import opened Message
  import opened ObjectTree
  import opened NormalForm
  import opened Layout
  import opened Budget
  import opened Progress
  import opened Canonical

  /** The dimensions of p are those a pointer word can hold. */
  predicate PtrFits(p: Ptr)
  {
    p.Struct? || p.List? ==> ShapeFits(ShapeOf(p))
  }

  lemma CompositeFits(segs: Segs, seg: nat, start: int)
    requires InBounds(segs, seg, start)
    ensures PtrFits(Composite(segs, seg, start))
  {
    hide StructDwords, StructPwords, Offset;
  }

  lemma {:induction false} LookWordFits(segs: Segs, seg: nat, word: int, w: Word, depth: nat)
    ensures var l := LookWord(segs, seg, word, w, depth); l.Found? ==> PtrFits(l.ptr)
    decreases depth
  {
    hide StructDwords, StructPwords, Offset, ListEsize, ListCount, Kind, FarTwo, FarSeg, FarOff, CapIndex, ListWords,
         RowWords, Composite;
    if depth > 0 && w != 0 && Kind(w) == KIND_FAR {
      var seg', off := FarSeg(w), FarOff(w);
      if FarTwo(w) {
        if InBounds(segs, seg', off) && InBounds(segs, seg', off + 1) {
          var pad := segs[seg'][off];
          if InBounds(segs, FarSeg(pad), FarOff(pad)) {
            CompositeFits(segs, FarSeg(pad), FarOff(pad));
          }
        }
      } else if InBounds(segs, seg', off) {
        LookWordFits(segs, seg', off, segs[seg'][off], depth - 1);
      }
    } else if depth > 0 && w != 0 && Kind(w) == KIND_LIST {
      var start := word + 1 + Offset(w);
      if InBounds(segs, seg, start) {
        CompositeFits(segs, seg, start);
      }
    }
  }

  lemma LookFits(segs: Segs, seg: nat, at: int)
    ensures var l := LookAt(segs, seg, at); l.Found? ==> PtrFits(l.ptr)
  {
    hide LookWord, PtrFits;
    if InBounds(segs, seg, at) {
      LookWordFits(segs, seg, at, segs[seg][at], DEPTH_LIMIT);
    }
  }

  // ---- what trimming leaves out is null ----------------------------------------------------

  lemma {:induction false} SlotsPastUsed(segs: Segs, seg: nat, at: int, n: nat, k: nat)
    requires SlotsUsed(segs, seg, at, n) <= k < n
    ensures SlotNull(segs, seg, at + k)
  {
    hide SlotNull;
    if SlotNull(segs, seg, at + n - 1) && k < n - 1 {
      SlotsPastUsed(segs, seg, at, n - 1, k);
    }
  }

  lemma {:induction false} RowWithin(segs: Segs, p: Ptr, rows: nat, i: nat)
    requires p.List? && i < rows
    ensures SlotsUsed(segs, p.seg, RowAt(p, i) + p.dw, p.pw) <= MaxSlots(segs, p, rows)
  {
    hide SlotsUsed, RowAt;
    if i < rows - 1 {
      RowWithin(segs, p, rows - 1, i);
    }
  }

  /** A pointer of the source is one the copy keeps, or null. */
  lemma KeptOrNull(segs: Segs, p: Ptr, at: nat) returns (j: nat)
    requires (p.Struct? || p.List?) && at < CellCount(ShapeOf(p)) && IsPointer(ShapeOf(p), at)
    ensures var to := TargetShape(segs, p);
            || (j < CellCount(to) && IsPointer(to, j) && Source(ShapeOf(p), to, j) == at)
            || (!ShapeOf(p).Elems? && SlotNull(segs, p.seg, p.word + at))
  {
    hide SlotNull, SlotsUsed, WordsUsed, MaxSlots, MaxWords;
    var to := TargetShape(segs, p);
    match ShapeOf(p)
    case Fields(dw, pw) =>
      if at - dw >= to.pw {
        SlotsPastUsed(segs, p.seg, p.word + dw, pw, at - dw);
        j := 0;
      } else {
        j := to.dw + (at - dw);
      }
    case Elems(_, _) =>
      j := at;
    case Rows(count, dw, pw) =>
      j := KeptRow(segs, p, at);
  }

  lemma KeptRow(segs: Segs, p: Ptr, at: nat) returns (j: nat)
    requires p.List? && p.esize == SZ_COMPOSITE && at < CellCount(ShapeOf(p)) && IsPointer(ShapeOf(p), at)
    ensures var to := TargetShape(segs, p);
            || (j < CellCount(to) && IsPointer(to, j) && Source(ShapeOf(p), to, j) == at)
            || SlotNull(segs, p.seg, p.word + at)
  {
    hide SlotNull, SlotsUsed, WordsUsed, MaxSlots, MaxWords, Place, Source, IsPointer;
    var to, m := TargetShape(segs, p), p.dw + p.pw;
    var i, k := RowOf(at, p.count, m);
    assert k >= p.dw by { RowPointer(p, at, i, k); }
    if k - p.dw >= to.pw {
      RowWithin(segs, p, p.count, i);
      SlotsPastUsed(segs, p.seg, RowAt(p, i) + p.dw, p.pw, k - p.dw);
      PlaceStep(i, 0, k, m);
      j := 0;
    } else {
      SourceRow(ShapeOf(p), to, i, to.dw + (k - p.dw));
      j := Place(i, to.dw + (k - p.dw), to.dw + to.pw);
    }
  }

  lemma RowPointer(p: Ptr, at: nat, i: nat, k: nat)
    requires p.List? && p.esize == SZ_COMPOSITE && IsPointer(ShapeOf(p), at)
    requires p.dw + p.pw > 0 && k == at % (p.dw + p.pw)
    ensures k >= p.dw
  {
  }

  lemma {:induction false} LastUsed(segs: Segs, seg: nat, at: int, n: nat)
    requires SlotsUsed(segs, seg, at, n) > 0
    ensures !SlotNull(segs, seg, at + SlotsUsed(segs, seg, at, n) - 1)
  {
    hide SlotNull;
    if SlotNull(segs, seg, at + n - 1) {
      LastUsed(segs, seg, at, n - 1);
    }
  }

  lemma {:induction false} LargestRow(segs: Segs, p: Ptr, rows: nat) returns (i: nat)
    requires p.List? && MaxSlots(segs, p, rows) > 0
    ensures i < rows && SlotsUsed(segs, p.seg, RowAt(p, i) + p.dw, p.pw) == MaxSlots(segs, p, rows)
  {
    hide SlotsUsed, RowAt;
    if SlotsUsed(segs, p.seg, RowAt(p, rows - 1) + p.dw, p.pw) == MaxSlots(segs, p, rows) {
      i := rows - 1;
    } else {
      i := LargestRow(segs, p, rows - 1);
    }
  }

  /** A copy that keeps any field at all keeps one that is not null. */
  lemma LastKept(segs: Segs, p: Ptr, j: nat) returns (at: nat)
    requires (p.Struct? || p.List?) && !ShapeOf(p).Elems?
    requires j < CellCount(TargetShape(segs, p)) && IsPointer(TargetShape(segs, p), j)
    ensures at < CellCount(ShapeOf(p)) && IsPointer(ShapeOf(p), at) && !SlotNull(segs, p.seg, p.word + at)
  {
    hide SlotNull, SlotsUsed, WordsUsed, MaxSlots, MaxWords, Place;
    var to := TargetShape(segs, p);
    if p.Struct? {
      LastUsed(segs, p.seg, p.word + p.dw, p.pw);
      at := p.dw + to.pw - 1;
    } else {
      var r, k := RowOf(j, to.count, to.dw + to.pw);
      var i := LargestRow(segs, p, p.count);
      LastUsed(segs, p.seg, RowAt(p, i) + p.dw, p.pw);
      var m, c := p.dw + p.pw, p.dw + to.pw - 1;
      PlaceFits(i, c, p.count, m);
      at := Place(i, c, m);
      PlaceStep(i, 0, c, m);
      DivMod(i, c, m);
    }
  }

  // ---- how a copy ends ----------------------------------------------------------------------

  lemma ReadableCell(segs: Segs, p: Ptr, at: nat, fuel: nat)
    requires (p.Struct? || p.List?) && at < CellCount(ShapeOf(p))
    ensures !IsPointer(ShapeOf(p), at) ==> Readable(segs, p, at, fuel)
    ensures IsPointer(ShapeOf(p), at) && SlotNull(segs, p.seg, p.word + at) && !ShapeOf(p).Elems? ==> Readable(segs, p, at, fuel)
    ensures IsPointer(ShapeOf(p), at) && Readable(segs, p, at, fuel) ==>
              var l := LookAt(segs, p.seg, p.word + at);
              l.Found? && ((l.ptr.Null? && !ShapeOf(p).Elems?) || Read(segs, l.ptr, fuel).Some?)
  {
    hide LookAt, DataAt, IsPointer, CellCount, Read;
  }

  /** All words written: p has a value, and they are its normal form. */
  lemma Finished(segs: Segs, p: Ptr, to: Shape, cells: seq<Cell>, fuel: nat)
    requires Matches(segs, p, to, cells, fuel) && |cells| == CellCount(to) && to == TargetShape(segs, p)
    ensures Read(segs, p, fuel + 1).Some? && Trim(Read(segs, p, fuel + 1).value) == Node(to, cells)
  {
    hide ReadCell, Read, LookAt, Source, IsPointer, CellCount, TargetShape, Trim, TrimCell, SlotNull, TrimShape, Narrower;
    forall at | 0 <= at < CellCount(ShapeOf(p))
      ensures Readable(segs, p, at, fuel)
    {
      ReadableCell(segs, p, at, fuel);
      if IsPointer(ShapeOf(p), at) {
        var j := KeptOrNull(segs, p, at);
        if j < CellCount(to) && Source(ShapeOf(p), to, j) == at {
          assert CellMatches(segs, p, to, cells[j], j, fuel);
        }
      }
    }
    CellsOfRead(segs, p, fuel);
    var t := Read(segs, p, fuel + 1).value;
    TargetIsTrimmed(segs, p, fuel, t);
    TrimmedSize(t);
    forall j | 0 <= j < |cells|
      ensures Trim(t).cells[j] == cells[j]
    {
      TrimmedCell(t, j);
      assert CellMatches(segs, p, to, cells[j], j, fuel);
    }
    assert Trim(t).cells == cells;
  }

  /** A pointer got stuck: p has no value of that depth, or copying it costs too much. */
  lemma Refused(segs: Segs, p: Ptr, fuel: nat, left: nat)
    requires p.Struct? || p.List?
    requires var to := TargetShape(segs, p);
             SizingCost(segs, p) <= left && Stuck(segs, p, to, 0, CellCount(to), fuel, left - SizingCost(segs, p))
    ensures !Copyable(segs, p, fuel + 1, left)
  {
    hide ReadCell, Read, LookAt, Source, IsPointer, CellCount, TargetShape, SlotNull, CellsCost, Narrower, SizingCost;
    var to := TargetShape(segs, p);
    var j :| 0 <= j < CellCount(to) && IsPointer(to, j) &&
      (!Reachable(segs, p, to, j, fuel) ||
       CellsCost(segs, p, to, j + 1, fuel) - CellsCost(segs, p, to, 0, fuel) > left - SizingCost(segs, p));
    CellsCostMono(segs, p, to, j + 1, CellCount(to), fuel);
    CostOf(segs, p, fuel);
    SourceFits(ShapeOf(p), to, j);
    CellsOfRead(segs, p, fuel);
    ReadableCell(segs, p, Source(ShapeOf(p), to, j), fuel);
    if Read(segs, p, fuel + 1).Some? && !Reachable(segs, p, to, j, fuel) {
      assert Readable(segs, p, Source(ShapeOf(p), to, j), fuel);
      NullReads(segs, fuel);
      var at := LastKept(segs, p, j);
      SlotNullIs(segs, p.seg, p.word + at);
      assert Readable(segs, p, at, fuel);
      ReadableCell(segs, p, at, fuel);
      NoneAtZero(segs, LookAt(segs, p.seg, p.word + at).ptr);
    }
  }

  lemma CostOf(segs: Segs, p: Ptr, fuel: nat)
    requires p.Struct? || p.List?
    ensures var to := TargetShape(segs, p);
            CopyCost(segs, p, fuel + 1) == SizingCost(segs, p) + CellsCost(segs, p, to, CellCount(to), fuel)
              && CellsCost(segs, p, to, 0, fuel) == 0
  {
  }

  lemma NullReads(segs: Segs, fuel: nat)
    ensures fuel > 0 ==> Read(segs, Null, fuel) == Some(Absent)
  {
  }

  lemma NoneAtZero(segs: Segs, q: Ptr)
    ensures Read(segs, q, 0).None?
  {
  }

  lemma SlotNullIs(segs: Segs, seg: nat, at: int)
    ensures var l := LookAt(segs, seg, at); SlotNull(segs, seg, at) <==> l.Found? && l.ptr.Null?
  {
  }

  // ---- pieces of the copy loops ---------------------------------------------------------------

  /** The cells j0.. of the copy are data words of el, in order. */
  ghost predicate SameData(p: Ptr, to: Shape, j0: nat, nd: nat, el: Ptr)
  {
    && (p.Struct? || p.List?) && !ShapeOf(p).Elems? && el.Struct? && el.seg == p.seg && nd <= el.dw
    && j0 + nd <= CellCount(to)
    && forall j :: j0 <= j < j0 + nd ==>
         !IsPointer(to, j) && p.word + Source(ShapeOf(p), to, j) == el.word + (j - j0)
  }

  /** The cells j0.. of the copy are n pointers whose slots start at `first`. */
  ghost predicate SameSlots(p: Ptr, to: Shape, j0: nat, n: nat, first: int)
  {
    && (p.Struct? || p.List?) && Narrower(ShapeOf(p), to) && j0 + n <= CellCount(to)
    && forall j :: j0 <= j < j0 + n ==>
         IsPointer(to, j) && p.word + Source(ShapeOf(p), to, j) == first + (j - j0)
  }

  /** The body starts as zeros. */
  lemma BuildStart(segs: Segs, p: Ptr, to: Shape, fuel: nat)
    requires (p.Struct? || p.List?) && Narrower(ShapeOf(p), to)
    ensures Matches(segs, p, to, [], fuel) && Partial(CellCount(to), []) == ZeroWords(CellCount(to))
  {
    hide CellCount, Narrower;
  }

  /** Once all its cells are in place, the body is that of the tree. */
  lemma BuildDone(ws: seq<Word>, slot: nat, to: Shape, cells: seq<Cell>)
    requires slot < |ws| && |cells| == CellCount(to)
    ensures var t := Node(to, cells);
            ws[slot := PointerTo(t, |ws| - slot - 1)] + Head(to) + Partial(CellCount(to), cells) == Placed(ws, slot, t)
  {
    hide Body, Front, Bodies, Below, PointerTo, Head, Size, CellCount;
    BodyOf(Node(to, cells));
    PartialAll(cells);
  }

  /** A copy spends at least the cost of following each pointer it keeps. */
  lemma CostAtLeast(segs: Segs, p: Ptr, to: Shape, j: nat, fuel: nat)
    requires (p.Struct? || p.List?) && Narrower(ShapeOf(p), to) && j < CellCount(to) && IsPointer(to, j)
    ensures CellsCost(segs, p, to, CellCount(to), fuel) >= LookAt(segs, p.seg, p.word + Source(ShapeOf(p), to, j)).cost
  {
    hide CellsCost, LookAt, IsPointer, CellCount, Source, Narrower, CopyCost;
    MatchPointer(segs, p, to, j, fuel);
    CellsCostMono(segs, p, to, j + 1, CellCount(to), fuel);
    CellsCostMono(segs, p, to, 0, j, fuel);
  }

  lemma StuckWider(segs: Segs, p: Ptr, to: Shape, j0: nat, j1: nat, fuel: nat, left: nat, before: nat)
    requires (p.Struct? || p.List?) && j1 <= CellCount(to) && Stuck(segs, p, to, j0, j1, fuel, left)
    requires left + CellsCost(segs, p, to, j0, fuel) == before
    ensures Stuck(segs, p, to, 0, CellCount(to), fuel, before)
  {
    hide CellsCost, IsPointer, CellCount, Reachable;
    CostOf(segs, p, fuel);
    var j :| j0 <= j < j1 && IsPointer(to, j) &&
      (!Reachable(segs, p, to, j, fuel) || CellsCost(segs, p, to, j + 1, fuel) - CellsCost(segs, p, to, j0, fuel) > left);
    assert CellsCost(segs, p, to, 0, fuel) == 0 by { NoCells(segs, p, to, fuel); }
    assert 0 <= j < CellCount(to) && IsPointer(to, j);
  }

  lemma NoCells(segs: Segs, p: Ptr, to: Shape, fuel: nat)
    requires p.Struct? || p.List?
    ensures CellsCost(segs, p, to, 0, fuel) == 0
  {
  }

  /** The fields of a struct, and the rows of a composite list, as ranges of cells. */
  lemma FieldCells(p: Ptr, to: Shape)
    requires p.Struct? && to.Fields? && Narrower(ShapeOf(p), to)
    ensures SameData(p, to, 0, to.dw, p)
    ensures SameSlots(p, to, to.dw, to.pw, p.word + p.dw)
  {
  }

  lemma RowCells(p: Ptr, to: Shape, i: nat)
    requires p.List? && p.esize == SZ_COMPOSITE && to.Rows? && Narrower(ShapeOf(p), to) && i < to.count
    ensures var j0 := Place(i, 0, to.dw + to.pw);
            && j0 >= 0 && SameData(p, to, j0, to.dw, Element(p, i))
            && SameSlots(p, to, j0 + to.dw, to.pw, Element(p, i).word + p.dw)
            && j0 + to.dw + to.pw == Place(i + 1, 0, to.dw + to.pw) <= CellCount(to)
  {
    hide Place, IsPointer, Source;
    var n, m := to.dw + to.pw, p.dw + p.pw;
    var j0 := Place(i, 0, n);
    PlaceStep(i, 0, 0, n);
    PlaceMono(0, i, n);
    PlaceMono(i + 1, to.count, n);
    forall j | j0 <= j < j0 + n
      ensures IsPointer(to, j) <==> j >= j0 + to.dw
      ensures p.word + Source(ShapeOf(p), to, j) ==
              Element(p, i).word + if j < j0 + to.dw then j - j0 else p.dw + (j - j0 - to.dw)
    {
      var k := j - j0;
      PlaceStep(i, 0, k, n);
      SourceRow(ShapeOf(p), to, i, k);
      PlaceStep(i, 0, if k < to.dw then k else p.dw + (k - to.dw), m);
    }
  }

  lemma ElementCells(p: Ptr)
    requires p.List? && p.esize == SZ_PTR
    ensures SameSlots(p, ShapeOf(p), 0, p.count, p.word)
  {
  }
}
