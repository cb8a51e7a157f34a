/** Trimming a value tree: it keeps the tree well formed, and doing it twice is doing it once. */
module NormalForm {
  import opened Message
  import opened ObjectTree
  import opened Arith

  /** The sections of `to` are no wider than those of `from`, row for row. */
  predicate Narrower(from: Shape, to: Shape)
  {
    match from
    case Fields(dw, pw) => to.Fields? && to.dw <= dw && to.pw <= pw
    case Elems(_, _) => to == from
    case Rows(count, dw, pw) => to.Rows? && to.count == count && to.dw <= dw && to.pw <= pw
  }

  lemma TrimNarrows(shape: Shape, cells: seq<Cell>)
    ensures Narrower(shape, TrimShape(shape, cells))
  {
  }

  /** Every word of the narrower body comes from a word of the wider one, of the same kind. */
  lemma SourceFits(from: Shape, to: Shape, j: nat)
    requires Narrower(from, to) && j < CellCount(to)
    ensures 0 <= Source(from, to, j) < CellCount(from)
    ensures IsPointer(from, Source(from, to, j)) <==> IsPointer(to, j)
  {
    if to.Rows? {
      hide Place;
      var i, k := RowOf(j, to.count, to.dw + to.pw);
      var at := if k < to.dw then k else from.dw + (k - to.dw);
      DivMod(i, at, from.dw + from.pw);
      PlaceFits(i, at, from.count, from.dw + from.pw);
    }
  }

  lemma SourceSelf(s: Shape, j: nat)
    requires j < CellCount(s)
    ensures Source(s, s, j) == j
  {
    if s.Rows? {
      hide Place;
      var i, k := RowOf(j, s.count, s.dw + s.pw);
    }
  }

  /** Word k of row i of a composite list. */
  lemma SourceRow(from: Shape, to: Shape, i: nat, k: nat)
    requires from.Rows? && to.Rows? && Narrower(from, to) && i < to.count && k < to.dw + to.pw
    ensures var j := Place(i, k, to.dw + to.pw);
            && 0 <= j < CellCount(to) && (IsPointer(to, j) <==> k >= to.dw)
            && Source(from, to, j) == Place(i, if k < to.dw then k else from.dw + (k - to.dw), from.dw + from.pw)
  {
    hide Place;
    DivMod(i, k, to.dw + to.pw);
    PlaceFits(i, k, to.count, to.dw + to.pw);
  }

  /** Cell j of a trimmed body is the trimmed cell it comes from. */
  lemma TrimmedCell(t: Tree, j: nat)
    requires t.Node? && |t.cells| == CellCount(t.shape)
    requires j < CellCount(TrimShape(t.shape, t.cells))
    ensures var to := TrimShape(t.shape, t.cells);
            && Trim(t).shape == to && |Trim(t).cells| == CellCount(to)
            && 0 <= Source(t.shape, to, j) < |t.cells|
            && (IsPointer(t.shape, Source(t.shape, to, j)) <==> IsPointer(to, j))
            && Trim(t).cells[j] == TrimCell(t.cells[Source(t.shape, to, j)])
  {
    hide CellCount, Source, IsPointer, TrimShape;
    TrimNarrows(t.shape, t.cells);
    SourceFits(t.shape, TrimShape(t.shape, t.cells), j);
  }

  lemma TrimmedSize(t: Tree)
    requires t.Node?
    ensures Trim(t).Node? && Trim(t).shape == TrimShape(t.shape, t.cells)
    ensures |Trim(t).cells| == CellCount(Trim(t).shape)
  {
  }

  lemma {:induction false} TrimProper(t: Tree)
    requires Proper(t)
    ensures Proper(Trim(t))
    decreases t
  {
    if t.Node? {
      hide Source, IsPointer, TrimShape, Low, BytesUsed, Trim, CellCount;
      TrimmedSize(t);
      TrimNarrows(t.shape, t.cells);
      var u := Trim(t);
      forall j | 0 <= j < |u.cells|
        ensures ProperCell(u.shape, u.cells[j], j)
      {
        TrimmedCell(t, j);
        var at := Source(t.shape, u.shape, j);
        assert ProperCell(t.shape, t.cells[at], at);
        match t.cells[at]
        case W(w) => SameBytes(t.shape, u.shape, j);
        case P(c) => TrimProper(c);
      }
      assert ShapeFits(u.shape);
    }
  }

  /** Only plain lists end inside a word, and they are not trimmed. */
  lemma SameBytes(from: Shape, to: Shape, j: nat)
    requires Narrower(from, to) && j < CellCount(to)
    requires 0 <= Source(from, to, j) < CellCount(from)
    ensures BytesUsed(from, Source(from, to, j)) == BytesUsed(to, j)
  {
    hide ListBits, ListWords;
  }

  lemma {:induction false} TrimFits(t: Tree, fuel: nat)
    requires Proper(t) && FitsDepth(t, fuel)
    ensures FitsDepth(Trim(t), fuel)
    decreases fuel
  {
    if t.Node? {
      hide Source, IsPointer, TrimShape, Low, BytesUsed, Trim, CellCount, ProperCell;
      TrimmedSize(t);
      TrimNarrows(t.shape, t.cells);
      var u, d := Trim(t), fuel - 1;
      forall j | 0 <= j < |u.cells| && u.cells[j].P?
        ensures CellFits(u.shape, u.cells[j].tree, d)
      {
        TrimmedCell(t, j);
        var at := Source(t.shape, u.shape, j);
        assert ProperCell(t.shape, t.cells[at], at);
        var c := t.cells[at].tree;
        assert CellFits(t.shape, c, d);
        AbsentTrim(c);
        ProperChild(t.shape, t.cells[at], at);
        if d > 0 && FitsDepth(c, d) {
          TrimFits(c, d);
        }
      }
    }
  }

  lemma ProperChild(shape: Shape, c: Cell, j: nat)
    requires j < CellCount(shape) && c.P? && ProperCell(shape, c, j)
    ensures Proper(c.tree)
  {
  }

  lemma AbsentTrim(t: Tree)
    ensures Trim(t).Absent? <==> t.Absent?
  {
  }

  /** Trimming leaves nothing to trim. */
  lemma TrimmedShape(t: Tree)
    requires Proper(t) && t.Node?
    ensures TrimShape(Trim(t).shape, Trim(t).cells) == Trim(t).shape
  {
    match t.shape
    case Fields(_, _) => TrimmedFields(t);
    case Elems(_, _) =>
    case Rows(_, _, _) => TrimmedRows(t);
  }

  lemma BlankTrim(c: Cell)
    ensures TrimCell(c) == ZERO <==> c == ZERO
    ensures TrimCell(c) == NULL <==> c == NULL
  {
  }

  lemma TrimmedFields(t: Tree)
    requires Proper(t) && t.Node? && t.shape.Fields?
    ensures TrimShape(Trim(t).shape, Trim(t).cells) == Trim(t).shape
  {
    hide Trim, TrimCell, ProperCell;
    var u := Trim(t);
    TrimmedSize(t);
    if u.shape.dw > 0 {
      TrimmedCell(t, u.shape.dw - 1);
      BlankTrim(t.cells[u.shape.dw - 1]);
    }
    if u.shape.pw > 0 {
      TrimmedCell(t, u.shape.dw + u.shape.pw - 1);
      BlankTrim(t.cells[t.shape.dw + u.shape.pw - 1]);
    }
  }

  lemma TrimmedRows(t: Tree)
    requires Proper(t) && t.Node? && t.shape.Rows?
    ensures TrimShape(Trim(t).shape, Trim(t).cells) == Trim(t).shape
  {
    hide Trim, ProperCell, MaxUsed;
    TrimmedSize(t);
    TrimmedRowWords(t);
    TrimmedRowPointers(t);
  }

  lemma TrimmedRowWords(t: Tree)
    requires Proper(t) && t.Node? && t.shape.Rows?
    ensures var u := Trim(t);
            && u.shape.Rows?
            && MaxUsed(u.cells, u.shape.count, u.shape.dw + u.shape.pw, 0, u.shape.dw, ZERO) == u.shape.dw
  {
    hide Trim, TrimCell, ProperCell, UsedLen, Place, RowUsed;
    var u := Trim(t);
    TrimmedSize(t);
    var Rows(count, nd, np) := u.shape;
    if nd > 0 {
      var m := t.shape.dw + t.shape.pw;
      var i :| 0 <= i < count && RowUsed(t.cells, i, m, 0, t.shape.dw, ZERO) == nd;
      UsedRow(t.cells, i, m, 0, t.shape.dw, ZERO);
      TrimmedRowCell(t, i, nd - 1, Place(i, nd - 1, m));
      FullRow(u.cells, i, nd + np, 0, nd, ZERO);
    }
  }

  lemma TrimmedRowPointers(t: Tree)
    requires Proper(t) && t.Node? && t.shape.Rows?
    ensures var u := Trim(t);
            && u.shape.Rows?
            && MaxUsed(u.cells, u.shape.count, u.shape.dw + u.shape.pw, u.shape.dw, u.shape.pw, NULL) == u.shape.pw
  {
    hide Trim, TrimCell, ProperCell, UsedLen, Place, RowUsed;
    var u := Trim(t);
    TrimmedSize(t);
    var Rows(count, nd, np) := u.shape;
    if np > 0 {
      var m := t.shape.dw + t.shape.pw;
      var i :| 0 <= i < count && RowUsed(t.cells, i, m, t.shape.dw, t.shape.pw, NULL) == np;
      UsedRow(t.cells, i, m, t.shape.dw, t.shape.pw, NULL);
      TrimmedRowCell(t, i, nd + np - 1, Place(i, t.shape.dw + np - 1, m));
      FullRow(u.cells, i, nd + np, nd, np, NULL);
    }
  }

  lemma FullRow(cells: seq<Cell>, i: nat, stride: nat, base: nat, n: nat, blank: Cell)
    requires n > 0 && CellAt(cells, Place(i, base + n - 1, stride)) != blank
    ensures RowUsed(cells, i, stride, base, n, blank) == n
  {
    hide Place;
    PlaceStep(i, base, n - 1, stride);
  }

  lemma UsedRow(cells: seq<Cell>, i: nat, stride: nat, base: nat, n: nat, blank: Cell)
    requires RowUsed(cells, i, stride, base, n, blank) > 0
    ensures CellAt(cells, Place(i, base + RowUsed(cells, i, stride, base, n, blank) - 1, stride)) != blank
  {
    hide Place;
    PlaceStep(i, base, RowUsed(cells, i, stride, base, n, blank) - 1, stride);
  }

  /** Blank cells of a row stay blank, and others stay not. */
  lemma TrimmedRowCell(t: Tree, i: nat, k: nat, at: int)
    requires Proper(t) && t.Node? && t.shape.Rows?
    requires var u := TrimShape(t.shape, t.cells);
             && i < u.count && k < u.dw + u.pw
             && at == Place(i, if k < u.dw then k else t.shape.dw + (k - u.dw), t.shape.dw + t.shape.pw)
    ensures var j := Place(i, k, Trim(t).shape.dw + Trim(t).shape.pw);
            && (CellAt(Trim(t).cells, j) == ZERO <==> CellAt(t.cells, at) == ZERO)
            && (CellAt(Trim(t).cells, j) == NULL <==> CellAt(t.cells, at) == NULL)
  {
    hide Trim, TrimCell, ProperCell, TrimShape, Place, Source, IsPointer;
    var to := TrimShape(t.shape, t.cells);
    TrimNarrows(t.shape, t.cells);
    TrimmedSize(t);
    SourceRow(t.shape, to, i, k);
    var j := Place(i, k, to.dw + to.pw);
    TrimmedCell(t, j);
    BlankTrim(t.cells[at]);
  }

  lemma {:induction false} TrimTwice(t: Tree)
    requires Proper(t)
    ensures Trim(Trim(t)) == Trim(t)
    decreases t
  {
    if t.Node? {
      hide Source, IsPointer, TrimShape, Low, BytesUsed, Trim, CellCount, ProperCell;
      var u := Trim(t);
      TrimmedSize(t);
      TrimmedSize(u);
      TrimmedShape(t);
      var v := Trim(u);
      forall j | 0 <= j < |u.cells|
        ensures v.cells[j] == u.cells[j]
      {
        TrimmedCell(t, j);
        TrimmedCell(u, j);
        SourceSelf(u.shape, j);
        var at := Source(t.shape, u.shape, j);
        assert ProperCell(t.shape, t.cells[at], at);
        match t.cells[at]
        case W(_) =>
        case P(c) =>
          ProperChild(t.shape, t.cells[at], at);
          TrimTwice(c);
      }
      assert v.cells == u.cells;
    }
  }

  /** Nothing is left to trim, at any depth. */
  predicate Normal(t: Tree)
    decreases t
  {
    t.Node? ==>
      && TrimShape(t.shape, t.cells) == t.shape
      && forall j :: 0 <= j < |t.cells| && t.cells[j].P? ==> Normal(t.cells[j].tree)
  }

  /** A trimmed tree is normal all the way down. */
  lemma {:induction false} TrimNormal(t: Tree)
    requires Proper(t)
    ensures Normal(Trim(t))
    decreases t
  {
    if t.Node? {
      hide Source, IsPointer, TrimShape, Trim, CellCount, Low, BytesUsed;
      TrimmedSize(t);
      TrimmedShape(t);
      var u := Trim(t);
      forall j | 0 <= j < |u.cells| && u.cells[j].P?
        ensures Normal(u.cells[j].tree)
      {
        TrimmedCell(t, j);
        var at := Source(t.shape, u.shape, j);
        assert ProperCell(t.shape, t.cells[at], at);
        ProperChild(t.shape, t.cells[at], at);
        TrimNormal(t.cells[at].tree);
      }
    }
  }
}
