/** Canonicalizing canonical words: always the same words, and exactly when the budget
    allows it. */
module Rewrites {
  import opened Options
  import opened Arith
  import opened Bytes
  import opened WirePointer
  import opened Message
  import opened ObjectTree
  import opened NormalForm
  import opened Layout
  import opened LayoutReads
  import opened Budget
  import opened Canonical
  import opened CopyProofs
  import opened Canonicalizer
  import opened CanonicalTheorems
  import opened CanonicalIdempotence
  import opened CanonicalLimits

  // ---- what a rewrite of an encoding costs, from the tree alone --------------------------------

  /** Following the pointer in a cell: its slot, and the words of what it leads to. */
  function SlotCost(c: Cell): nat
  {
    match c
    case W(_) => 0
    case P(Absent) => 1
    case P(Node(shape, cells)) => 1 + |Head(shape)| + |cells|
  }

  /** Looking from the end of n pointer cells at `base` for one that is not null. */
  function ScanCost(cells: seq<Cell>, base: int, n: nat): nat
  {
    if n == 0 then 0
    else
      var last := CellAt(cells, base + n - 1);
      SlotCost(last) + if last == NULL then ScanCost(cells, base, n - 1) else 0
  }

  function RowsScanCost(cells: seq<Cell>, rows: nat, dw: nat, pw: nat): nat
  {
    if rows == 0 then 0
    else RowsScanCost(cells, rows - 1, dw, pw) + ScanCost(cells, Place(rows - 1, 0, dw + pw) + dw, pw)
  }

  function FindingCost(shape: Shape, cells: seq<Cell>): nat
  {
    match shape
    case Fields(dw, pw) => ScanCost(cells, dw, pw)
    case Elems(_, _) => 0
    case Rows(count, dw, pw) => RowsScanCost(cells, count, dw, pw)
  }

  function CellsRewriteCost(cells: seq<Cell>): nat
    decreases cells
  {
    if cells == [] then 0
    else CellsRewriteCost(DropLast(cells)) + CellRewriteCost(cells[|cells| - 1])
  }

  function CellRewriteCost(c: Cell): nat
    decreases c
  {
    match c
    case W(_) => 0
    case P(t) => SlotCost(c) + BodyRewriteCost(t)
  }

  /** Sizing and copying the body of t, and everything below it. */
  function BodyRewriteCost(t: Tree): nat
    decreases t
  {
    match t
    case Absent => 0
    case Node(shape, cells) => FindingCost(shape, cells) + CellsRewriteCost(cells)
  }

  /** What canonicalizing the encoding of t charges, from its root. */
  function RewriteCost(t: Tree): nat
  {
    SlotCost(P(t)) + BodyRewriteCost(t)
  }

  // ---- and that is what it charges ---------------------------------------------------------------

  /** An object of an encoding, as the looks below it find it. */
  predicate Placed(ws: seq<Word>, q: Ptr, f: nat, t: Tree, fuel: nat)
  {
    && Proper(t) && Normal(t) && OffsetsFit(t) && LaidOut(ws, f, t) && Denotes(q, f, t) && FitsDepth(t, fuel)
  }

  /** A pointer cell: what looking at its slot costs and finds. */
  lemma SlotLook(ws: seq<Word>, q: Ptr, f: nat, t: Tree, fuel: nat, j: nat)
    requires Placed(ws, q, f, t, fuel) && t.Node? && j < |t.cells| && t.cells[j].P?
    ensures var l := LookAt([ws], q.seg, q.word + j);
            && l.Found? && l.cost == SlotCost(t.cells[j])
            && (SlotNull([ws], q.seg, q.word + j) <==> t.cells[j] == NULL)
            && (l.ptr.Null? || Placed(ws, l.ptr, CellBase(t, f, j), t.cells[j].tree, fuel - 1))
  {
    hide LookAt, LaidOut, Proper, LinkFits, Below, Head, OffsetsFit;
    var c := t.cells[j].tree;
    CellLinked(ws, f, t, j);
    ProperCells(t, j);
    FitsAt(t, j);
    LookLinked(ws, q.word + j, CellBase(t, f, j), c);
    LinkedLaidOut(ws, q.word + j, CellBase(t, f, j), c);
    assert CellFits(t.shape, c, fuel - 1);
  }

  lemma FitsAt(t: Tree, j: nat)
    requires OffsetsFit(t) && t.Node? && j < |t.cells| && t.cells[j].P?
    ensures LinkFits(t.cells[j].tree, CellOffset(t.cells, j)) && OffsetsFit(t.cells[j].tree)
  {
    hide LinkFits, Below;
    assert CellOffsetFits(t, j);
  }

  lemma {:induction false} ScanCharges(ws: seq<Word>, q: Ptr, f: nat, t: Tree, fuel: nat, base: nat, n: nat)
    requires Placed(ws, q, f, t, fuel) && t.Node? && base + n <= |t.cells|
    requires forall j :: base <= j < base + n ==> t.cells[j].P?
    ensures TrimCost([ws], q.seg, q.word + base, n) == ScanCost(t.cells, base, n)
  {
    hide Placed, SlotNull, LookAt, SlotCost;
    if n > 0 {
      SlotLook(ws, q, f, t, fuel, base + n - 1);
      ScanCharges(ws, q, f, t, fuel, base, n - 1);
    }
  }

  lemma PlacedMeans(ws: seq<Word>, q: Ptr, f: nat, t: Tree, fuel: nat)
    requires Placed(ws, q, f, t, fuel) && t.Node?
    ensures (q.Struct? || q.List?) && q.seg == 0 && ShapeOf(q) == t.shape && |t.cells| == CellCount(t.shape) && fuel > 0
    ensures forall j :: 0 <= j < |t.cells| ==> (t.cells[j].P? <==> IsPointer(t.shape, j))
    ensures TrimShape(t.shape, t.cells) == t.shape
  {
    hide LaidOut, OffsetsFit, Proper, TrimShape, CellCount, IsPointer;
    ProperCount(t);
    forall j | 0 <= j < |t.cells|
      ensures t.cells[j].P? <==> IsPointer(t.shape, j)
    {
      ProperCells(t, j);
    }
  }

  lemma RowSlot(shape: Shape, i: nat, k: nat)
    requires shape.Rows? && shape.dw <= k < shape.dw + shape.pw
    ensures var j := Place(i, 0, shape.dw + shape.pw) + k; j >= 0 && IsPointer(shape, j)
  {
    hide Place;
    var m := shape.dw + shape.pw;
    PlaceStep(i, 0, k, m);
    PlaceMono(0, i, m);
    PlaceStep(0, 0, 0, m);
    DivMod(i, k, m);
  }

  /** The pointers of row i. */
  lemma RowCharges(ws: seq<Word>, q: Ptr, f: nat, t: Tree, fuel: nat, i: nat)
    requires Placed(ws, q, f, t, fuel) && t.Node? && t.shape.Rows? && i < t.shape.count && q.List?
    requires ShapeOf(q) == t.shape
    ensures TrimCost([ws], q.seg, RowAt(q, i) + q.dw, q.pw)
         == ScanCost(t.cells, Place(i, 0, t.shape.dw + t.shape.pw) + t.shape.dw, t.shape.pw)
  {
    hide Placed, TrimCost, ScanCost, Place, IsPointer, TrimShape;
    PlacedMeans(ws, q, f, t, fuel);
    var dw, pw := t.shape.dw, t.shape.pw;
    var start := Place(i, 0, dw + pw);
    RowBounds(i, t.shape.count, dw, pw);
    forall j | start + dw <= j < start + dw + pw
      ensures t.cells[j].P?
    {
      RowSlot(t.shape, i, j - start);
    }
    ScanCharges(ws, q, f, t, fuel, start + dw, pw);
  }

  lemma {:induction false} RowsCharge(ws: seq<Word>, q: Ptr, f: nat, t: Tree, fuel: nat, rows: nat)
    requires Placed(ws, q, f, t, fuel) && t.Node? && t.shape.Rows? && rows <= t.shape.count && q.List?
    requires ShapeOf(q) == t.shape
    ensures RowsTrimCost([ws], q, rows) == RowsScanCost(t.cells, rows, t.shape.dw, t.shape.pw)
  {
    hide Placed, TrimCost, ScanCost, Place, RowAt;
    if rows > 0 {
      RowsCharge(ws, q, f, t, fuel, rows - 1);
      RowCharges(ws, q, f, t, fuel, rows - 1);
    }
  }

  /** Sizing an object of an encoding. */
  lemma FindingCharges(ws: seq<Word>, q: Ptr, f: nat, t: Tree, fuel: nat)
    requires Placed(ws, q, f, t, fuel) && t.Node? && (q.Struct? || q.List?)
    ensures SizingCost([ws], q) == FindingCost(t.shape, t.cells)
  {
    hide Placed, TrimCost, ScanCost, RowsTrimCost, RowsScanCost;
    PlacedMeans(ws, q, f, t, fuel);
    match t.shape
    case Fields(dw, pw) => ScanCharges(ws, q, f, t, fuel, dw, pw);
    case Elems(_, _) =>
    case Rows(count, dw, pw) => RowsCharge(ws, q, f, t, fuel, count);
  }

  lemma PlacedReads(ws: seq<Word>, q: Ptr, f: nat, t: Tree, fuel: nat)
    requires Placed(ws, q, f, t, fuel) && t.Node?
    ensures fuel > 0 && ReadsAs([ws], q, fuel - 1, t)
  {
    hide LaidOut, OffsetsFit, Proper, ReadCell, CellCount;
    ProperCount(t);
    forall j | 0 <= j < |t.cells|
      ensures ReadCell([ws], q, j, fuel - 1) == Some(t.cells[j])
    {
      ReadLinkedCell(ws, q, f, t, j, fuel - 1);
    }
  }

  /** Copying an object of an encoding charges what the tree says. */
  lemma {:induction false} BodyCharges(ws: seq<Word>, q: Ptr, f: nat, t: Tree, fuel: nat)
    requires Placed(ws, q, f, t, fuel)
    ensures CopyCost([ws], q, fuel) == BodyRewriteCost(t)
    decreases fuel, 1, 0
  {
    hide Placed, FindingCost, SizingCost, CellsCost, CellsRewriteCost, CellCount, TargetShape, TrimShape, CopyCost;
    if t.Node? {
      PlacedMeans(ws, q, f, t, fuel);
      PlacedReads(ws, q, f, t, fuel);
      TargetIsTrimmed([ws], q, fuel - 1, t);
      FindingCharges(ws, q, f, t, fuel);
      CostOf([ws], q, fuel - 1);
      CellsCharge(ws, q, f, t, fuel, |t.cells|);
      assert t.cells[..|t.cells|] == t.cells;
    } else {
      AbsentIs(ws, q, f, t, fuel);
      NullCost([ws], fuel);
    }
  }

  lemma AbsentIs(ws: seq<Word>, q: Ptr, f: nat, t: Tree, fuel: nat)
    requires Placed(ws, q, f, t, fuel) && t.Absent?
    ensures q.Null?
  {
  }

  lemma {:induction false} CellsCharge(ws: seq<Word>, q: Ptr, f: nat, t: Tree, fuel: nat, m: nat)
    requires Placed(ws, q, f, t, fuel) && t.Node? && m <= |t.cells| && (q.Struct? || q.List?) && fuel > 0
    requires ShapeOf(q) == t.shape && |t.cells| == CellCount(t.shape)
    ensures CellsCost([ws], q, t.shape, m, fuel - 1) == CellsRewriteCost(t.cells[..m])
    decreases fuel, 0, m
  {
    hide Placed, CellCount, CellCost, CellRewriteCost, Source;
    if m > 0 {
      var j := m - 1;
      CellsCharge(ws, q, f, t, fuel, j);
      assert DropLast(t.cells[..m]) == t.cells[..j];
      SourceSelf(t.shape, j);
      CellCharges(ws, q, f, t, fuel, j);
    }
  }

  lemma {:induction false} CellCharges(ws: seq<Word>, q: Ptr, f: nat, t: Tree, fuel: nat, j: nat)
    requires Placed(ws, q, f, t, fuel) && t.Node? && j < |t.cells| && (q.Struct? || q.List?) && fuel > 0
    ensures CellCost([ws], q, j, fuel - 1) == CellRewriteCost(t.cells[j])
    decreases fuel, 0, 0
  {
    hide Placed, LookAt, CellCount, IsPointer, SlotCost, CopyCost, BodyRewriteCost, TrimShape;
    PlacedMeans(ws, q, f, t, fuel);
    if t.cells[j].P? {
      SlotLook(ws, q, f, t, fuel, j);
      var p := LookAt([ws], q.seg, q.word + j).ptr;
      if p.Null? {
        NullCost([ws], fuel - 1);
        AbsentCell(ws, q, f, t, fuel, j);
      } else {
        BodyCharges(ws, p, CellBase(t, f, j), t.cells[j].tree, fuel - 1);
      }
    }
  }

  /** A slot that leads to null is that of an absent tree. */
  lemma AbsentCell(ws: seq<Word>, q: Ptr, f: nat, t: Tree, fuel: nat, j: nat)
    requires Placed(ws, q, f, t, fuel) && t.Node? && j < |t.cells| && t.cells[j].P?
    requires LookAt([ws], q.seg, q.word + j).Found? && LookAt([ws], q.seg, q.word + j).ptr.Null?
    ensures t.cells[j].tree == Absent && BodyRewriteCost(t.cells[j].tree) == 0
  {
    hide Placed, LookAt;
    SlotLook(ws, q, f, t, fuel, j);
  }

  // ---- canonicalizing again ------------------------------------------------------------------------

  /** Canonical words whose offsets fit keep their value and their words; a second run
      succeeds exactly when the budget covers what the normal form costs. */
  lemma TwiceExactly(segs: Segs)
    requires CanonicalCode(segs) == OK && OffsetsFit(Trim(Value(segs).value))
    ensures var t := Trim(Value(segs).value);
            var out := Encode(t);
            && MessageSound([out]) && Value([out]) == Some(t) && Encode(Trim(Value([out]).value)) == out
            && (CanonicalCode([out]) == OK <==> RewriteCost(t) <= TRAVERSAL_WORDS)
  {
    hide Proper, FitsDepth, Read, LookAt, Trim, OffsetsFit, Size, Body, CopyCost, Sound, Normal, BodyRewriteCost, PointerTo;
    ValueProper(segs);
    TrimNormal(Value(segs).value);
    var t := Trim(Value(segs).value);
    MeaningPreserved(segs);
    RootCharges(t, Fuel(0));
  }

  /** The root of an encoding: what it leads to, and what the rewrite charges. */
  lemma RootCharges(t: Tree, fuel: nat)
    requires Proper(t) && Normal(t) && OffsetsFit(t) && FitsDepth(t, fuel)
    ensures var l := LookRoot([Encode(t)]);
            && l.Found? && l.cost + CopyCost([Encode(t)], l.ptr, fuel) == RewriteCost(t)
            && Sound([Encode(t)], l.ptr, fuel)
  {
    hide Proper, FitsDepth, LookAt, OffsetsFit, Size, Body, CopyCost, Sound, Normal, BodyRewriteCost, PointerTo,
         LinkFits, LaidOut, Linked, Denotes;
    var ws := Encode(t);
    RootLinked(t);
    LookLinked(ws, 0, 1, t);
    var q := LookAt([ws], 0, 0).ptr;
    assert Placed(ws, q, 1, t, fuel);
    BodyCharges(ws, q, 1, t, fuel);
    LaidOutSound(ws, q, 1, t, fuel);
  }

  /** One list of n zero words behind a double-far pad. */
  function FarList(n: nat): Segs
  {
    [[MakeFar(true, 1, 0), MakeFar(false, 0, 1), MakeList(0, SZ_EIGHT, n)], seq(n, _ => 0)]
  }

  lemma FarListLook(segs: Segs, n: nat)
    requires n < TWO_29 && |segs| == 2 && |segs[0]| == 3
    requires segs[0][0] == MakeFar(true, 1, 0) && segs[0][1] == MakeFar(false, 0, 1) && segs[0][2] == MakeList(0, SZ_EIGHT, n)
    ensures LookAt(segs, 0, 0) == Found(List(1, 0, SZ_EIGHT, n, 0, 0), 3)
  {
    hide Kind, Offset, ListEsize, ListCount, MakeList, MakeFar, FarTwo, FarSeg, FarOff, LookStruct, LookList;
    FarFields(true, 1, 0);
    FarFields(false, 0, 1);
    ListFields(0, SZ_EIGHT, n);
  }

  /** Canonicalizing such a list always succeeds; canonicalizing the words it gives
      succeeds exactly up to 8388607 elements, since there the list is charged for. */
  lemma FarListTwice(n: nat)
    requires n < TWO_29
    ensures var segs := FarList(n);
            && MessageSound(segs) && CanonicalCode(segs) == OK && Value(segs).Some?
            && var out := Encode(Trim(Value(segs).value));
               |out| == n + 1 && (CanonicalCode([out]) == OK <==> n + 1 <= TRAVERSAL_WORDS)
  {
    hide LookAt, Read, CopyCost, Trim, Sound, Size, Body, OffsetsFit, PointerTo;
    var segs := FarList(n);
    var p := List(1, 0, SZ_EIGHT, n, 0, 0);
    FarListLook(segs, n);
    WordsRead(segs, p, Fuel(0));
    var t := Trim(Value(segs).value);
    SmallFits(t);
    TwiceExactly(segs);
    WordsRewrite(t);
  }

  /** A list of words costs its words and the word of its pointer. */
  lemma WordsRewrite(t: Tree)
    requires t.Node? && t.shape.Elems? && forall j :: 0 <= j < |t.cells| ==> t.cells[j].W?
    ensures RewriteCost(t) == 1 + |t.cells|
  {
    WordsCostNone(t.cells);
  }

  lemma {:induction false} WordsCostNone(cells: seq<Cell>)
    requires forall j :: 0 <= j < |cells| ==> cells[j].W?
    ensures CellsRewriteCost(cells) == 0
  {
    if cells != [] {
      WordsCostNone(DropLast(cells));
    }
  }

  /** A message that canonicalizes, and whose canonical words do not. */
  lemma TwiceFails()
    ensures var segs := FarList(TRAVERSAL_WORDS);
            && MessageSound(segs) && CanonicalCode(segs) == OK && Value(segs).Some?
            && CanonicalCode([Encode(Trim(Value(segs).value))]) != OK
  {
    hide MessageSound, CanonicalCode, Value, Encode, Trim, FarList;
    FarListTwice(TRAVERSAL_WORDS);
  }
}
