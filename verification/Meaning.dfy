/** What a reader can tell of a value, in which data and pointers past the end of a section
    read as zero and null; and that canonical words stand for exactly that. */
module Meaning {
  import opened Arith
  import opened Bytes
  import opened Message
  import opened ObjectTree
  import opened NormalForm
  import opened Layout
  import opened LayoutReads
  import opened Canonicalizer
  import opened CanonicalTheorems
  import opened CanonicalLayout

  /** A struct is one row; a composite list has `count`. */
  function RowCount(shape: Shape): nat
  {
    match shape
    case Fields(_, _) => 1
    case Elems(_, _) => 0
    case Rows(count, _, _) => count
  }

  /** Word k of row i. */
  function Index(shape: Shape, i: nat, k: nat): int
  {
    match shape
    case Fields(_, _) => k
    case Elems(_, _) => -1
    case Rows(_, dw, pw) => Place(i, k, dw + pw)
  }

  /** Data word k of row i, as it reads. */
  function DataCell(t: Tree, i: nat, k: nat): Cell
    requires t.Node? && !t.shape.Elems?
  {
    if k < t.shape.dw then CellAt(t.cells, Index(t.shape, i, k)) else ZERO
  }

  /** Pointer k of row i, as it reads. */
  function PointerCell(t: Tree, i: nat, k: nat): Cell
    requires t.Node? && !t.shape.Elems?
  {
    if k < t.shape.pw then CellAt(t.cells, Index(t.shape, i, t.shape.dw + k)) else NULL
  }

  // ---- values no reader can tell apart -----------------------------------------------------

  ghost predicate SameCell(c: Cell, d: Cell)
    decreases c, 3
  {
    match c
    case W(_) => d == c
    case P(t) => d.P? && Same(t, d.tree)
  }

  ghost predicate SamePointer(t: Tree, u: Tree, i: nat, k: nat)
    requires t.Node? && u.Node? && !t.shape.Elems? && !u.shape.Elems?
    decreases t, 0
  {
    var j := Index(t.shape, i, t.shape.dw + k);
    if k < t.shape.pw && 0 <= j < |t.cells| then SameCell(t.cells[j], PointerCell(u, i, k)) else PointerCell(u, i, k) == NULL
  }

  ghost predicate SameRow(t: Tree, u: Tree, i: nat)
    requires t.Node? && u.Node? && !t.shape.Elems? && !u.shape.Elems?
    decreases t, 1
  {
    && (forall k: nat :: DataCell(t, i, k) == DataCell(u, i, k))
    && (forall k: nat :: SamePointer(t, u, i, k))
  }

  /** The values have the same words wherever they are read, and pointers to the same values. */
  ghost predicate Same(t: Tree, u: Tree)
    decreases t, 2
  {
    if t.Absent? || u.Absent? then t == u
    else if t.shape.Elems? then
      u.shape == t.shape && |u.cells| == |t.cells| && forall j :: 0 <= j < |t.cells| ==> SameCell(t.cells[j], u.cells[j])
    else
      && t.shape.Fields? == u.shape.Fields? && !u.shape.Elems? && RowCount(t.shape) == RowCount(u.shape)
      && forall i :: 0 <= i < RowCount(t.shape) ==> SameRow(t, u, i)
  }

  // ---- trimming leaves all reads alone --------------------------------------------------------

  /** The cells of a section are where Index says. */
  lemma CellsThere(t: Tree, i: nat, k: nat)
    requires Proper(t) && t.Node? && !t.shape.Elems? && i < RowCount(t.shape) && k < t.shape.dw + t.shape.pw
    ensures var j := Index(t.shape, i, k);
            && 0 <= j < |t.cells| && (IsPointer(t.shape, j) <==> k >= t.shape.dw) && (t.cells[j].P? <==> k >= t.shape.dw)
            && (t.cells[j].P? ==> Proper(t.cells[j].tree))
  {
    hide Place;
    if t.shape.Rows? {
      PlaceFits(i, k, t.shape.count, t.shape.dw + t.shape.pw);
      DivMod(i, k, t.shape.dw + t.shape.pw);
    }
    var j := Index(t.shape, i, k);
    assert ProperCell(t.shape, t.cells[j], j);
  }

  /** Trimming drops only what reads the same without it. */
  lemma TrimReads(t: Tree, i: nat, k: nat)
    requires Proper(t) && t.Node? && !t.shape.Elems? && i < RowCount(t.shape)
    ensures Trim(t).Node? && !Trim(t).shape.Elems? && RowCount(Trim(t).shape) == RowCount(t.shape)
    ensures DataCell(Trim(t), i, k) == DataCell(t, i, k)
    ensures PointerCell(Trim(t), i, k) == TrimCell(PointerCell(t, i, k))
  {
    hide Trim, TrimCell, Place, CellCount, Proper, DataCell, PointerCell, TrimShape;
    TrimmedSize(t);
    TrimNarrows(t.shape, t.cells);
    TrimReadsData(t, i, k);
    TrimReadsPointer(t, i, k);
  }

  lemma TrimReadsData(t: Tree, i: nat, k: nat)
    requires Proper(t) && t.Node? && !t.shape.Elems? && i < RowCount(t.shape)
    requires Trim(t).Node? && !Trim(t).shape.Elems?
    ensures DataCell(Trim(t), i, k) == DataCell(t, i, k)
  {
    hide Trim, TrimCell, Index, CellCount, IsPointer, Proper, TrimShape;
    TrimmedSize(t);
    TrimNarrows(t.shape, t.cells);
    NullTrims();
    if k < Trim(t).shape.dw {
      KeptCell(t, Trim(t), i, k);
      CellsThere(t, i, k);
    } else if k < t.shape.dw {
      DroppedData(t, i, k);
    }
  }

  lemma TrimReadsPointer(t: Tree, i: nat, k: nat)
    requires Proper(t) && t.Node? && !t.shape.Elems? && i < RowCount(t.shape)
    requires Trim(t).Node? && !Trim(t).shape.Elems?
    ensures PointerCell(Trim(t), i, k) == TrimCell(PointerCell(t, i, k))
  {
    hide Trim, TrimCell, Index, CellCount, IsPointer, Proper, TrimShape;
    TrimmedSize(t);
    TrimNarrows(t.shape, t.cells);
    NullTrims();
    if k < Trim(t).shape.pw {
      KeptCell(t, Trim(t), i, Trim(t).shape.dw + k);
    } else if k < t.shape.pw {
      DroppedPointer(t, i, k);
    }
  }

  lemma NullTrims()
    ensures TrimCell(NULL) == NULL && forall w :: TrimCell(W(w)) == W(w)
  {
  }

  /** Where word k of a row of the normal form was before. */
  function Before(t: Tree, u: Tree, k: nat): nat
    requires t.Node? && u.Node? && !t.shape.Elems? && !u.shape.Elems?
  {
    if k < u.shape.dw then k else t.shape.dw + (k - u.shape.dw)
  }

  predicate KeptAt(t: Tree, u: Tree, i: nat, k: nat)
    requires t.Node? && u.Node? && !t.shape.Elems? && !u.shape.Elems?
  {
    var at := Index(t.shape, i, Before(t, u, k));
    0 <= at < |t.cells| && CellAt(u.cells, Index(u.shape, i, k)) == TrimCell(t.cells[at])
  }

  /** A cell the normal form keeps. */
  lemma KeptCell(t: Tree, u: Tree, i: nat, k: nat)
    requires Proper(t) && t.Node? && !t.shape.Elems? && i < RowCount(t.shape) && u == Trim(t)
    requires u.Node? && !u.shape.Elems? && k < u.shape.dw + u.shape.pw
    ensures KeptAt(t, u, i, k)
  {
    hide Trim, TrimCell, Place, IsPointer, ProperCell, TrimShape;
    TrimmedSize(t);
    TrimNarrows(t.shape, t.cells);
    if t.shape.Rows? {
      SourceRow(t.shape, u.shape, i, k);
    }
    TrimmedCell(t, Index(u.shape, i, k));
  }

  lemma DroppedData(t: Tree, i: nat, k: nat)
    requires Proper(t) && t.Node? && !t.shape.Elems? && i < RowCount(t.shape)
    requires TrimShape(t.shape, t.cells).dw <= k < t.shape.dw
    ensures CellAt(t.cells, Index(t.shape, i, k)) == ZERO
  {
    hide Place, Proper;
    if t.shape.Rows? {
      var m := t.shape.dw + t.shape.pw;
      assert RowUsed(t.cells, i, m, 0, t.shape.dw, ZERO) <= k;
      PlaceStep(i, 0, k, m);
    }
  }

  lemma DroppedPointer(t: Tree, i: nat, k: nat)
    requires Proper(t) && t.Node? && !t.shape.Elems? && i < RowCount(t.shape)
    requires TrimShape(t.shape, t.cells).pw <= k < t.shape.pw
    ensures CellAt(t.cells, Index(t.shape, i, t.shape.dw + k)) == NULL
  {
    hide Place, Proper;
    if t.shape.Rows? {
      var m := t.shape.dw + t.shape.pw;
      assert RowUsed(t.cells, i, m, t.shape.dw, t.shape.pw, NULL) <= k;
      PlaceStep(i, t.shape.dw, k, m);
    }
  }

  // ---- equal normal forms are the same value ------------------------------------------------------

  lemma {:induction false} TrimmedSame(t: Tree, u: Tree)
    requires Proper(t) && Proper(u) && Trim(t) == Trim(u)
    ensures Same(t, u)
    decreases t, 3
  {
    hide Trim, CellCount, IsPointer, ProperCell, Same, SameRow, TrimShape;
    BothAbsent(t);
    BothAbsent(u);
    if t.Node? {
      TrimmedSize(t);
      TrimmedSize(u);
      TrimNarrows(t.shape, t.cells);
      TrimNarrows(u.shape, u.cells);
      if t.shape.Elems? {
        ElemsTrim(t);
        ElemsTrim(u);
        forall j | 0 <= j < |t.cells|
          ensures SameCell(t.cells[j], u.cells[j])
        {
          CellsTrimmedSame(t, j, u.cells[j], u, j);
        }
        SameElems(t, u);
      } else {
        forall i | 0 <= i < RowCount(t.shape)
          ensures SameRow(t, u, i)
        {
          RowTrimmedSame(t, u, i);
        }
        SameRows(t, u);
      }
    } else {
      SameAbsent(t, u);
    }
  }

  lemma SameAbsent(t: Tree, u: Tree)
    requires t.Absent? && u.Absent?
    ensures Same(t, u)
  {
  }

  lemma SameElems(t: Tree, u: Tree)
    requires t.Node? && u.Node? && t.shape.Elems? && u.shape == t.shape && |u.cells| == |t.cells|
    requires forall j :: 0 <= j < |t.cells| ==> SameCell(t.cells[j], u.cells[j])
    ensures Same(t, u)
  {
    hide SameCell;
  }

  lemma SameRows(t: Tree, u: Tree)
    requires t.Node? && u.Node? && !t.shape.Elems? && !u.shape.Elems?
    requires t.shape.Fields? == u.shape.Fields? && RowCount(t.shape) == RowCount(u.shape)
    requires forall i :: 0 <= i < RowCount(t.shape) ==> SameRow(t, u, i)
    ensures Same(t, u)
  {
    hide SameRow;
  }

  lemma BothAbsent(t: Tree)
    ensures Trim(t).Absent? <==> t.Absent?
  {
  }

  /** The cells of a list are trimmed one by one. */
  lemma ElemsTrim(t: Tree)
    requires Proper(t) && t.Node? && t.shape.Elems?
    ensures Trim(t).shape == t.shape && |Trim(t).cells| == |t.cells| == CellCount(t.shape)
    ensures forall j :: 0 <= j < |t.cells| ==> Trim(t).cells[j] == TrimCell(t.cells[j]) && ProperCell(t.shape, t.cells[j], j)
  {
    hide Trim, TrimCell, CellCount, ProperCell;
    ProperIs(t);
    TrimmedSize(t);
    forall j | 0 <= j < |t.cells|
      ensures Trim(t).cells[j] == TrimCell(t.cells[j]) && ProperCell(t.shape, t.cells[j], j)
    {
      TrimmedCell(t, j);
    }
  }

  lemma ProperIs(t: Tree)
    requires Proper(t) && t.Node?
    ensures |t.cells| == CellCount(t.shape) && forall j :: 0 <= j < |t.cells| ==> ProperCell(t.shape, t.cells[j], j)
  {
  }

  lemma {:induction false} CellsTrimmedSame(t: Tree, j: nat, d: Cell, u: Tree, k: nat)
    requires Proper(t) && t.Node? && j < |t.cells| && Proper(u) && u.Node?
    requires d == NULL || (k < |u.cells| && d == u.cells[k])
    requires TrimCell(t.cells[j]) == TrimCell(d)
    ensures SameCell(t.cells[j], d)
    decreases t, 0
  {
    hide Trim, CellCount, IsPointer;
    ProperIs(t);
    ProperIs(u);
    var c := t.cells[j];
    assert ProperCell(t.shape, c, j);
    if c.P? {
      assert d.P? && Proper(d.tree) by { ProperOf(u, d, k); }
      TrimmedSame(c.tree, d.tree);
    }
  }

  lemma ProperOf(u: Tree, d: Cell, k: nat)
    requires Proper(u) && u.Node? && (d == NULL || (k < |u.cells| && d == u.cells[k]))
    ensures d.P? ==> Proper(d.tree)
  {
    ProperIs(u);
    if d != NULL {
      assert ProperCell(u.shape, u.cells[k], k);
    }
  }

  lemma {:induction false} RowTrimmedSame(t: Tree, u: Tree, i: nat)
    requires Proper(t) && Proper(u) && Trim(t) == Trim(u) && t.Node? && u.Node? && !t.shape.Elems? && !u.shape.Elems?
    requires i < RowCount(t.shape) && RowCount(t.shape) == RowCount(u.shape)
    ensures SameRow(t, u, i)
    decreases t, 2
  {
    hide Trim, TrimCell, CellCount, IsPointer, Proper, SameCell;
    forall k: nat
      ensures DataCell(t, i, k) == DataCell(u, i, k) && SamePointer(t, u, i, k)
    {
      TrimReads(t, i, k);
      TrimReads(u, i, k);
      PointerTrimmedSame(t, u, i, k);
    }
  }

  lemma {:induction false} PointerTrimmedSame(t: Tree, u: Tree, i: nat, k: nat)
    requires Proper(t) && Proper(u) && t.Node? && u.Node? && !t.shape.Elems? && !u.shape.Elems?
    requires i < RowCount(t.shape) && RowCount(t.shape) == RowCount(u.shape)
    requires TrimCell(PointerCell(t, i, k)) == TrimCell(PointerCell(u, i, k))
    ensures SamePointer(t, u, i, k)
    decreases t, 1
  {
    hide Trim, CellCount, IsPointer, Proper, SameCell;
    var at := PointerAt(u, i, k);
    if k < t.shape.pw {
      CellsThere(t, i, t.shape.dw + k);
      CellsTrimmedSame(t, Index(t.shape, i, t.shape.dw + k), PointerCell(u, i, k), u, at);
    } else {
      OnlyNull(PointerCell(u, i, k));
    }
  }

  lemma PointerAt(u: Tree, i: nat, k: nat) returns (at: nat)
    requires Proper(u) && u.Node? && !u.shape.Elems? && i < RowCount(u.shape)
    ensures PointerCell(u, i, k) == NULL || (at < |u.cells| && PointerCell(u, i, k) == u.cells[at])
    ensures PointerCell(u, i, k).P?
  {
    hide Proper, CellCount, IsPointer;
    at := 0;
    if k < u.shape.pw {
      CellsThere(u, i, u.shape.dw + k);
      at := Index(u.shape, i, u.shape.dw + k);
    }
  }

  lemma OnlyNull(c: Cell)
    requires TrimCell(c) == TrimCell(NULL)
    ensures c == NULL
  {
  }

  // ---- the same value has one normal form ------------------------------------------------------------

  lemma {:induction false} SameTrimmed(t: Tree, u: Tree)
    requires Proper(t) && Proper(u) && Same(t, u)
    ensures Trim(t) == Trim(u)
    decreases t, 3
  {
    hide Trim, CellCount, IsPointer, ProperCell, TrimShape;
    if t.Node? {
      if t.shape.Elems? {
        ElemsTrim(t);
        ElemsTrim(u);
        TrimmedSize(t);
        TrimmedSize(u);
        forall j | 0 <= j < |t.cells|
          ensures TrimCell(t.cells[j]) == TrimCell(u.cells[j])
        {
          CellsSameTrimmed(t, j, u.cells[j], u, j);
        }
        assert Trim(t).cells == Trim(u).cells;
      } else {
        RowsSameTrimmed(t, u);
      }
    }
  }

  lemma {:induction false} CellsSameTrimmed(t: Tree, j: nat, d: Cell, u: Tree, k: nat)
    requires Proper(t) && t.Node? && j < |t.cells| && Proper(u) && u.Node?
    requires d == NULL || (k < |u.cells| && d == u.cells[k])
    requires SameCell(t.cells[j], d)
    ensures TrimCell(t.cells[j]) == TrimCell(d)
    decreases t, 0
  {
    hide Trim, CellCount, IsPointer;
    ProperIs(t);
    var c := t.cells[j];
    assert ProperCell(t.shape, c, j);
    if c.P? {
      ProperOf(u, d, k);
      SameTrimmed(c.tree, d.tree);
    }
  }

  /** Pointer k of row i of both normal forms. */
  lemma {:induction false} PointersSameTrimmed(t: Tree, u: Tree, i: nat, k: nat)
    requires Proper(t) && Proper(u) && t.Node? && u.Node? && !t.shape.Elems? && !u.shape.Elems?
    requires i < RowCount(t.shape) && RowCount(t.shape) == RowCount(u.shape) && SamePointer(t, u, i, k)
    ensures TrimCell(PointerCell(t, i, k)) == TrimCell(PointerCell(u, i, k))
    decreases t, 1
  {
    hide Trim, TrimCell, CellCount, IsPointer, Proper, SameCell;
    var at := PointerAt(u, i, k);
    if k < t.shape.pw {
      CellsThere(t, i, t.shape.dw + k);
      CellsSameTrimmed(t, Index(t.shape, i, t.shape.dw + k), PointerCell(u, i, k), u, at);
    }
  }

  /** Both normal forms read the same. */
  predicate ReadAlike(t: Tree, u: Tree, i: nat, k: nat)
    requires t.Node? && u.Node? && !t.shape.Elems? && !u.shape.Elems?
  {
    DataCell(t, i, k) == DataCell(u, i, k) && PointerCell(t, i, k) == PointerCell(u, i, k)
  }

  lemma {:induction false} RowsSameTrimmed(t: Tree, u: Tree)
    requires Proper(t) && Proper(u) && Same(t, u) && t.Node? && u.Node? && !t.shape.Elems?
    ensures Trim(t) == Trim(u)
    decreases t, 2
  {
    hide Trim, TrimCell, CellCount, IsPointer, Proper, TrimShape, SamePointer, PointerCell, DataCell;
    TrimmedSize(t);
    TrimmedSize(u);
    TrimNarrows(t.shape, t.cells);
    TrimNarrows(u.shape, u.cells);
    forall i, k | 0 <= i < RowCount(t.shape) && k >= 0
      ensures ReadAlike(Trim(t), Trim(u), i, k)
    {
      TrimReads(t, i, k);
      TrimReads(u, i, k);
      assert SameRow(t, u, i);
      assert SamePointer(t, u, i, k);
      PointersSameTrimmed(t, u, i, k);
    }
    TrimNormal(t);
    TrimNormal(u);
    TrimProper(t);
    TrimProper(u);
    NormalAlike(Trim(t), Trim(u));
  }

  /** Normal values that read the same are equal. */
  lemma NormalAlike(t: Tree, u: Tree)
    requires Proper(t) && Proper(u) && Normal(t) && Normal(u) && t.Node? && u.Node? && !t.shape.Elems? && !u.shape.Elems?
    requires t.shape.Fields? == u.shape.Fields? && RowCount(t.shape) == RowCount(u.shape)
    requires forall i, k :: 0 <= i < RowCount(t.shape) && k >= 0 ==> ReadAlike(t, u, i, k)
    ensures t == u
  {
    hide CellCount, IsPointer, Proper, Normal, TrimShape, ReadAlike;
    NoWider(t, u);
    forall i, k | 0 <= i < RowCount(u.shape) && k >= 0
      ensures ReadAlike(u, t, i, k)
    {
      AlikeTurned(t, u, i, k);
    }
    NoWider(u, t);
    SizesEqual(t, u);
    forall j | 0 <= j < |t.cells|
      ensures t.cells[j] == u.cells[j]
    {
      CellAlike(t, u, j);
    }
    assert t.cells == u.cells;
  }

  lemma AlikeTurned(t: Tree, u: Tree, i: nat, k: nat)
    requires t.Node? && u.Node? && !t.shape.Elems? && !u.shape.Elems? && ReadAlike(t, u, i, k)
    ensures ReadAlike(u, t, i, k)
  {
  }

  lemma SizesEqual(t: Tree, u: Tree)
    requires Proper(t) && Proper(u) && t.Node? && u.Node? && t.shape == u.shape
    ensures |t.cells| == |u.cells|
  {
    hide CellCount;
  }

  /** A normal value is no wider than one that reads the same. */
  lemma NoWider(t: Tree, u: Tree)
    requires Proper(t) && Normal(t) && t.Node? && u.Node? && !t.shape.Elems? && !u.shape.Elems?
    requires forall i, k :: 0 <= i < RowCount(t.shape) && k >= 0 ==> ReadAlike(t, u, i, k)
    ensures t.shape.dw <= u.shape.dw && t.shape.pw <= u.shape.pw
  {
    hide CellCount, IsPointer, Proper, Normal, TrimShape, Place;
    var dw, pw := t.shape.dw, t.shape.pw;
    if dw > 0 {
      var i := DataNeeded(t);
      assert ReadAlike(t, u, i, dw - 1);
    }
    if pw > 0 {
      var i := PointerNeeded(t);
      assert ReadAlike(t, u, i, pw - 1);
    }
  }

  lemma NormalEnds(t: Tree)
    requires Normal(t) && t.Node?
    ensures EndsMatter(t.shape, t.cells)
  {
    hide EndsMatter, TrimShape;
    match t.shape
    case Fields(_, _) => StructEndsMatter(t);
    case Elems(_, _) => PlainEnds(t);
    case Rows(_, _, _) => RowEndsMatter(t);
  }

  lemma DataNeeded(t: Tree) returns (i: nat)
    requires Normal(t) && t.Node? && !t.shape.Elems? && t.shape.dw > 0
    ensures i < RowCount(t.shape) && DataCell(t, i, t.shape.dw - 1) != ZERO
  {
    hide Normal, Place;
    NormalEnds(t);
    i := 0;
    if t.shape.Rows? {
      i :| 0 <= i < t.shape.count && RowNeeds(t.cells, i, t.shape.dw - 1, t.shape.dw + t.shape.pw, ZERO);
    }
  }

  lemma PointerNeeded(t: Tree) returns (i: nat)
    requires Normal(t) && t.Node? && !t.shape.Elems? && t.shape.pw > 0
    ensures i < RowCount(t.shape) && PointerCell(t, i, t.shape.pw - 1) != NULL
  {
    hide Normal, Place;
    NormalEnds(t);
    i := 0;
    if t.shape.Rows? {
      i :| 0 <= i < t.shape.count && RowNeeds(t.cells, i, t.shape.dw + t.shape.pw - 1, t.shape.dw + t.shape.pw, NULL);
    }
  }

  lemma CellAlike(t: Tree, u: Tree, j: nat)
    requires Proper(t) && Proper(u) && t.Node? && u.Node? && !t.shape.Elems? && t.shape == u.shape && |t.cells| == |u.cells|
    requires j < |t.cells| && forall i, k :: 0 <= i < RowCount(t.shape) && k >= 0 ==> ReadAlike(t, u, i, k)
    ensures t.cells[j] == u.cells[j]
  {
    hide Place;
    ProperIs(t);
    var dw, pw := t.shape.dw, t.shape.pw;
    var i, k := 0, j;
    if t.shape.Rows? {
      i, k := RowOf(j, t.shape.count, dw + pw);
    }
    assert Index(t.shape, i, k) == j;
    if k < dw {
      assert ReadAlike(t, u, i, k);
    } else {
      assert ReadAlike(t, u, i, k - dw);
    }
  }

  // ---- canonical words ---------------------------------------------------------------------------------

  /** Two values have the same normal form if and only if no reader can tell them apart. */
  lemma SameIffTrimmed(t: Tree, u: Tree)
    requires Proper(t) && Proper(u)
    ensures Same(t, u) <==> Trim(t) == Trim(u)
  {
    hide Same, Trim, Proper;
    if Same(t, u) {
      SameTrimmed(t, u);
    }
    if Trim(t) == Trim(u) {
      TrimmedSame(t, u);
    }
  }

  /** Two messages that canonicalize, to words whose offsets fit, have the same canonical
      words if and only if no reader can tell their values apart. */
  lemma SameWordsIff(segs: Segs, segs': Segs)
    requires CanonicalCode(segs) == OK && CanonicalCode(segs') == OK
    ensures var v, v' := Value(segs).value, Value(segs').value;
            && (Same(v, v') ==> Encode(Trim(v)) == Encode(Trim(v')))
            && (OffsetsFit(Trim(v)) && OffsetsFit(Trim(v')) && Encode(Trim(v)) == Encode(Trim(v')) ==> Same(v, v'))
  {
    hide Same, Trim, Proper, Read, Encode, OffsetsFit, FitsDepth, LookRoot;
    ValueProper(segs);
    ValueProper(segs');
    SameIffTrimmed(Value(segs).value, Value(segs').value);
    CanonicalIffSameValue(segs, segs');
  }

  /** Canonical words whose offsets fit read the same as the message they were made from. */
  lemma OutputReadsSame(segs: Segs)
    requires CanonicalCode(segs) == OK && OffsetsFit(Trim(Value(segs).value))
    ensures var out := Encode(Trim(Value(segs).value));
            Value([out]).Some? && Same(Value(segs).value, Value([out]).value)
  {
    hide Same, Trim, Proper, Read, Encode, OffsetsFit, FitsDepth, LookRoot;
    ValueProper(segs);
    var v := Value(segs).value;
    MeaningPreserved(segs);
    TrimTwice(v);
    TrimProper(v);
    SameIffTrimmed(v, Trim(v));
  }
}
