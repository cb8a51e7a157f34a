/** The shape of a canonical message: the objects its pointers reach tile it in preorder,
    no pointer is far or a capability, and no section ends in a default. */
module CanonicalLayout {
  import opened Options
  import opened Arith
  import opened Bytes
  import opened WirePointer
  import opened Message
  import opened ObjectTree
  import opened NormalForm
  import opened Layout
  import opened LayoutReads
  import opened Canonical
  import opened Canonicalizer
  import opened CanonicalTheorems

  datatype Span = Span(start: int, len: nat)

  /** An object of `len` words at f, if it has any. */
  function Own(f: int, len: nat): seq<Span>
  {
    if len == 0 then [] else [Span(f, len)]
  }

  /** The bodies of t and of everything below it, in preorder, from word f on. */
  function Spans(t: Tree, f: nat): seq<Span>
    decreases t
  {
    match t
    case Absent => []
    case Node(shape, cells) =>
      Own(f, |Head(shape)| + |cells|) + CellSpans(cells, f + |Head(shape)| + |cells|)
  }

  function CellSpans(cells: seq<Cell>, f: nat): seq<Span>
    decreases cells
  {
    if cells == [] then []
    else CellSpans(DropLast(cells), f) + CellSpan(cells[|cells| - 1], f + Below(DropLast(cells)))
  }

  function CellSpan(c: Cell, f: nat): seq<Span>
    decreases c
  {
    match c
    case W(_) => []
    case P(t) => Spans(t, f)
  }

  /** The spans follow each other from lo to hi, with no gap and no overlap. */
  predicate Tiles(spans: seq<Span>, lo: int, hi: int)
  {
    if spans == [] then lo == hi
    else spans[0].start == lo && Tiles(spans[1..], lo + spans[0].len, hi)
  }

  lemma {:induction false} TilesConcat(a: seq<Span>, b: seq<Span>, lo: int, mid: int, hi: int)
    requires Tiles(a, lo, mid) && Tiles(b, mid, hi)
    ensures Tiles(a + b, lo, hi)
    decreases |a|
  {
    if a == [] {
      assert a + b == b;
    } else {
      TilesConcat(a[1..], b, lo + a[0].len, mid, hi);
      assert (a + b)[1..] == a[1..] + b;
    }
  }

  /** The objects of a tree tile the words it takes. */
  lemma {:induction false} SpansTile(t: Tree, f: nat)
    ensures Tiles(Spans(t, f), f, f + Size(t))
    decreases t
  {
    match t
    case Absent =>
    case Node(shape, cells) =>
      var len := |Head(shape)| + |cells|;
      CellSpansTile(cells, f + len);
      var first := Own(f, len);
      assert len > 0 ==> first[1..] == [];
      TilesConcat(first, CellSpans(cells, f + len), f, f + len, f + Size(t));
  }

  lemma {:induction false} CellSpansTile(cells: seq<Cell>, f: nat)
    ensures Tiles(CellSpans(cells, f), f, f + Below(cells))
    decreases cells
  {
    if cells != [] {
      var before, last := DropLast(cells), cells[|cells| - 1];
      CellSpansTile(before, f);
      CellSpanTiles(last, f + Below(before));
      TilesConcat(CellSpans(before, f), CellSpan(last, f + Below(before)), f, f + Below(before), f + Below(cells));
    }
  }

  lemma {:induction false} CellSpanTiles(c: Cell, f: nat)
    ensures Tiles(CellSpan(c, f), f, f + CellSize(c))
    decreases c
  {
    match c
    case W(_) =>
    case P(t) => SpansTile(t, f);
  }

  // ---- what the looks of a reader find --------------------------------------------------------

  /** The words of an object: of a composite list, its tag too. */
  function ObjectWords(p: Ptr): seq<Span>
    requires p.Struct? || p.List?
  {
    var head := |Head(ShapeOf(p))|;
    Own(p.word - head, head + CellCount(ShapeOf(p)))
  }

  /** The objects found by following the slot at s of segment 0, and every pointer of what
      it leads to, in preorder and to `fuel` levels. */
  function ReachedSpans(segs: Segs, s: int, fuel: nat): (spans: seq<Span>)
    decreases fuel, 1, 0
  {
    var l := LookAt(segs, 0, s);
    if fuel == 0 || l.Bad? || !(l.ptr.Struct? || l.ptr.List?) then []
    else ObjectWords(l.ptr) + ReachedBelow(segs, l.ptr, CellCount(ShapeOf(l.ptr)), fuel - 1)
  }

  /** Those found through the first m words of the body of p. */
  function ReachedBelow(segs: Segs, p: Ptr, m: nat, fuel: nat): (spans: seq<Span>)
    requires p.Struct? || p.List?
    decreases fuel, 2, m
  {
    if m == 0 then []
    else
      ReachedBelow(segs, p, m - 1, fuel)
      + if IsPointer(ShapeOf(p), m - 1) then ReachedSpans(segs, p.word + m - 1, fuel) else []
  }

  /** The slot at s, and every slot reached from it to `fuel` levels, is null or a struct
      or list pointer that leads to an object of segment 0. */
  predicate Plain(segs: Segs, s: int, fuel: nat)
    decreases fuel, 1
  {
    && InBounds(segs, 0, s) && (segs[0][s] == 0 || Kind(segs[0][s]) == KIND_STRUCT || Kind(segs[0][s]) == KIND_LIST)
    && var l := LookAt(segs, 0, s);
       && l.Found?
       && (fuel > 0 && (l.ptr.Struct? || l.ptr.List?) ==>
             l.ptr.seg == 0 && forall j :: 0 <= j < CellCount(ShapeOf(l.ptr)) && IsPointer(ShapeOf(l.ptr), j) ==>
               PlainCell(segs, l.ptr, j, fuel))
  }

  predicate PlainCell(segs: Segs, p: Ptr, j: nat, fuel: nat)
    requires (p.Struct? || p.List?) && fuel > 0
    decreases fuel, 0
  {
    Plain(segs, p.word + j, fuel - 1)
  }

  /** A pointer of an encoding is null, or of struct or list kind. */
  lemma NoFarPointer(t: Tree, off: int)
    requires Proper(t)
    ensures var w := PointerTo(t, off);
            && (t.Absent? <==> w == 0)
            && (t.Node? ==> Kind(w) == if t.shape.Fields? then KIND_STRUCT else KIND_LIST)
  {
    hide MakeStruct, MakeList, Kind;
    match t
    case Absent =>
    case Node(Fields(dw, pw), _) =>
      StructFields(if dw == 0 && pw == 0 then -1 else off, dw, pw);
    case Node(Elems(esize, count), cells) =>
      ListFields(if |cells| == 0 then 0 else off, esize, count);
    case Node(Rows(count, dw, pw), _) =>
      ListFields(off, SZ_COMPOSITE, RowWords(count, dw + pw));
  }

  /** A slot of an encoding, and the tree it is for. */
  predicate Holds(ws: seq<Word>, s: nat, f: nat, t: Tree, fuel: nat)
  {
    && Proper(t) && Linked(ws, s, f, t) && LinkFits(t, f - s - 1) && OffsetsFit(t)
    && (t.Node? ==> FitsDepth(t, fuel))
  }

  /** Cell j of the object a slot leads to, in turn. */
  lemma HoldsBelow(ws: seq<Word>, s: nat, f: nat, t: Tree, fuel: nat, j: nat)
    requires Holds(ws, s, f, t, fuel) && t.Node? && j < |t.cells|
    ensures |t.cells| == CellCount(t.shape) && (t.cells[j].P? <==> IsPointer(t.shape, j)) && fuel > 0
    ensures t.cells[j].P? ==> Holds(ws, f + |Head(t.shape)| + j, CellBase(t, f, j), t.cells[j].tree, fuel - 1)
  {
    hide LinkFits, Below, Head, CellCount, IsPointer, Size, Body, PointerTo;
    ProperCount(t);
    ProperCells(t, j);
    LinkedLaidOut(ws, s, f, t);
    CellLinked(ws, f, t, j);
    assert CellOffsetFits(t, j);
    if t.cells[j].P? {
      assert CellFits(t.shape, t.cells[j].tree, fuel - 1);
    }
  }

  lemma HoldsLook(ws: seq<Word>, s: nat, f: nat, t: Tree, fuel: nat)
    requires Holds(ws, s, f, t, fuel)
    ensures s < |ws| && (ws[s] == 0 || Kind(ws[s]) == KIND_STRUCT || Kind(ws[s]) == KIND_LIST)
    ensures var l := LookAt([ws], 0, s); l.Found? && Denotes(l.ptr, f, t)
  {
    hide LookAt, Proper, LinkFits, OffsetsFit, Size, Body, PointerTo, Kind, Denotes;
    LookLinked(ws, s, f, t);
    NoFarPointer(t, f - s - 1);
  }

  /** Every slot reached from a slot of an encoding is plain. */
  lemma {:induction false} HoldsPlain(ws: seq<Word>, s: nat, f: nat, t: Tree, fuel: nat)
    requires Holds(ws, s, f, t, fuel)
    ensures Plain([ws], s, fuel)
    decreases fuel
  {
    hide Holds, LookAt, CellCount, IsPointer, Kind, Head;
    HoldsLook(ws, s, f, t, fuel);
    var q := LookAt([ws], 0, s).ptr;
    if t.Node? && fuel > 0 {
      forall j | 0 <= j < CellCount(ShapeOf(q)) && IsPointer(ShapeOf(q), j)
        ensures PlainCell([ws], q, j, fuel)
      {
        ShapeCells(ws, s, f, t, fuel);
        HoldsBelow(ws, s, f, t, fuel, j);
        HoldsPlain(ws, f + |Head(t.shape)| + j, CellBase(t, f, j), t.cells[j].tree, fuel - 1);
      }
    }
  }

  lemma ShapeCells(ws: seq<Word>, s: nat, f: nat, t: Tree, fuel: nat)
    requires Holds(ws, s, f, t, fuel) && t.Node?
    ensures |t.cells| == CellCount(t.shape)
  {
    hide Linked, LinkFits, OffsetsFit, CellCount;
    ProperCount(t);
  }

  /** The objects a reader finds from a slot of an encoding are those of its tree. */
  lemma {:induction false} ReachedAre(ws: seq<Word>, s: nat, f: nat, t: Tree, fuel: nat)
    requires Holds(ws, s, f, t, fuel)
    ensures ReachedSpans([ws], s, fuel) == Spans(t, f)
    decreases fuel, 1, 0
  {
    hide Holds, LookAt, CellCount, IsPointer, CellSpans, ReachedBelow;
    HoldsLook(ws, s, f, t, fuel);
    if t.Node? {
      ShapeCells(ws, s, f, t, fuel);
      DeepEnough(ws, s, f, t, fuel);
      ReachedBelowAre(ws, s, f, t, fuel, LookAt([ws], 0, s).ptr, |t.cells|);
      assert t.cells[..|t.cells|] == t.cells;
    }
  }

  lemma DeepEnough(ws: seq<Word>, s: nat, f: nat, t: Tree, fuel: nat)
    requires Holds(ws, s, f, t, fuel) && t.Node?
    ensures fuel > 0
  {
    hide Linked, LinkFits, OffsetsFit, Proper;
  }

  lemma {:induction false} ReachedBelowAre(ws: seq<Word>, s: nat, f: nat, t: Tree, fuel: nat, q: Ptr, m: nat)
    requires Holds(ws, s, f, t, fuel) && t.Node? && m <= |t.cells| && Denotes(q, f, t) && fuel > 0
    ensures ReachedBelow([ws], q, m, fuel - 1) == CellSpans(t.cells[..m], f + |Head(t.shape)| + |t.cells|)
    decreases fuel, 0, m
  {
    hide Holds, LookAt, CellCount, IsPointer, Head, ReachedSpans, Spans, Below;
    if m > 0 {
      var j := m - 1;
      ReachedBelowAre(ws, s, f, t, fuel, q, j);
      HoldsBelow(ws, s, f, t, fuel, j);
      assert DropLast(t.cells[..m]) == t.cells[..j];
      if t.cells[j].P? {
        ReachedAre(ws, f + |Head(t.shape)| + j, CellBase(t, f, j), t.cells[j].tree, fuel - 1);
      }
    }
  }

  // ---- no section ends in a default ------------------------------------------------------------

  /** Cell k of some row, in rows of m, is not blank. */
  predicate SomeRowNeeds(cells: seq<Cell>, rows: nat, k: nat, m: nat, blank: Cell)
  {
    exists i :: 0 <= i < rows && RowNeeds(cells, i, k, m, blank)
  }

  predicate RowNeeds(cells: seq<Cell>, i: nat, k: nat, m: nat, blank: Cell)
  {
    CellAt(cells, Place(i, k, m)) != blank
  }

  /** A struct's data ends in a nonzero word and its pointers in one that is not null; some
      row of a composite list needs all the data words, and some row all the pointers. */
  predicate EndsMatter(shape: Shape, cells: seq<Cell>)
  {
    match shape
    case Fields(dw, pw) =>
      (dw > 0 ==> CellAt(cells, dw - 1) != ZERO) && (pw > 0 ==> CellAt(cells, dw + pw - 1) != NULL)
    case Elems(_, _) => true
    case Rows(count, dw, pw) =>
      var m := dw + pw;
      (dw > 0 ==> SomeRowNeeds(cells, count, dw - 1, m, ZERO)) && (pw > 0 ==> SomeRowNeeds(cells, count, m - 1, m, NULL))
  }

  /** So it is for t and for everything below it. */
  predicate Tight(t: Tree)
    decreases t
  {
    t.Node? ==> EndsMatter(t.shape, t.cells) && forall j :: 0 <= j < |t.cells| && t.cells[j].P? ==> Tight(t.cells[j].tree)
  }

  lemma StructEndsMatter(t: Tree)
    requires t.Node? && t.shape.Fields? && TrimShape(t.shape, t.cells) == t.shape
    ensures EndsMatter(t.shape, t.cells)
  {
  }

  lemma RowEndsMatter(t: Tree)
    requires t.Node? && t.shape.Rows? && TrimShape(t.shape, t.cells) == t.shape
    ensures EndsMatter(t.shape, t.cells)
  {
    hide UsedLen, Place, RowUsed;
    var Rows(count, dw, pw) := t.shape;
    if dw > 0 {
      var i :| 0 <= i < count && RowUsed(t.cells, i, dw + pw, 0, dw, ZERO) == dw;
      UsedRow(t.cells, i, dw + pw, 0, dw, ZERO);
      assert RowNeeds(t.cells, i, dw - 1, dw + pw, ZERO);
    }
    if pw > 0 {
      var k :| 0 <= k < count && RowUsed(t.cells, k, dw + pw, dw, pw, NULL) == pw;
      UsedRow(t.cells, k, dw + pw, dw, pw, NULL);
      assert RowNeeds(t.cells, k, dw + pw - 1, dw + pw, NULL);
    }
  }

  lemma {:induction false} NormalTight(t: Tree)
    requires Normal(t)
    ensures Tight(t)
    decreases t
  {
    if t.Node? {
      hide EndsMatter, TrimShape;
      match t.shape {
        case Fields(_, _) => StructEndsMatter(t);
        case Elems(_, _) => assert EndsMatter(t.shape, t.cells) by { PlainEnds(t); }
        case Rows(_, _, _) => RowEndsMatter(t);
      }
      forall j | 0 <= j < |t.cells| && t.cells[j].P?
        ensures Tight(t.cells[j].tree)
      {
        NormalTight(t.cells[j].tree);
      }
    }
  }

  lemma PlainEnds(t: Tree)
    requires t.Node? && t.shape.Elems?
    ensures EndsMatter(t.shape, t.cells)
  {
  }

  // ---- the canonical message ------------------------------------------------------------------

  /** The canonical words of a message are one segment. Every slot reached from word 0 is
      null or a struct or list pointer; the objects found by following them, in preorder,
      tile the words after the root pointer with no gap and no overlap; and the value they
      hold is tight at every depth. */
  lemma CanonicalForm(segs: Segs)
    requires CanonicalCode(segs) == OK && OffsetsFit(Trim(Value(segs).value))
    ensures var t := Trim(Value(segs).value);
            var out := Encode(t);
            && Plain([out], 0, Fuel(0))
            && ReachedSpans([out], 0, Fuel(0)) == Spans(t, 1)
            && Tiles([Span(0, 1)] + ReachedSpans([out], 0, Fuel(0)), 0, |out|)
            && Value([out]) == Some(t) && Tight(t)
  {
    hide Read, LookAt, Trim, Size, Spans, ReachedSpans, Plain, OffsetsFit, FitsDepth, Proper, Linked, LinkFits,
         Normal, PointerTo, Body, Tight;
    ValueProper(segs);
    var t := Trim(Value(segs).value);
    var out := Encode(t);
    MeaningPreserved(segs);
    TrimNormal(Value(segs).value);
    NormalTight(t);
    RootLinked(t);
    assert Holds(out, 0, 1, t, Fuel(0));
    HoldsPlain(out, 0, 1, t, Fuel(0));
    ReachedAre(out, 0, 1, t, Fuel(0));
    SpansTile(t, 1);
    assert [Span(0, 1)][1..] == [];
    TilesConcat([Span(0, 1)], Spans(t, 1), 0, 1, |out|);
  }
}
