/** The canonical encoding of a value tree, as a function of the tree alone: the
    root pointer, then every object in preorder, each body followed by the
    bodies of what it points to. */
module Layout {
  import opened Arith
  import opened WirePointer
  import opened ObjectTree

  function DropLast<T>(s: seq<T>): seq<T>
    requires |s| > 0
  {
    s[..|s| - 1]
  }

  /** A composite list has a tag word in front of its rows. */
  function Head(shape: Shape): seq<Word>
  {
    if shape.Rows? then [MakeStruct(shape.count, shape.dw, shape.pw)] else []
  }

  /** The pointer to t, whose body starts `off` words past the pointer's end. */
  function PointerTo(t: Tree, off: int): Word
  {
    match t
    case Absent => 0
    case Node(Fields(dw, pw), _) => if dw == 0 && pw == 0 then MakeStruct(-1, 0, 0) else MakeStruct(off, dw, pw)
    case Node(Elems(esize, count), cells) => MakeList(if |cells| == 0 then 0 else off, esize, count)
    case Node(Rows(count, dw, pw), _) => MakeList(off, SZ_COMPOSITE, RowWords(count, dw + pw))
  }

  /** Words of the bodies the cells point to. */
  function Below(cells: seq<Cell>): nat
    decreases cells
  {
    if cells == [] then 0
    else Below(DropLast(cells)) + CellSize(cells[|cells| - 1])
  }

  function CellSize(c: Cell): nat
    decreases c
  {
    match c
    case W(_) => 0
    case P(t) => Size(t)
  }

  /** Words of the body of t and of everything below it. */
  function Size(t: Tree): nat
    decreases t
  {
    match t
    case Absent => 0
    case Node(shape, cells) => |Head(shape)| + |cells| + Below(cells)
  }

  /** The first cells of a body of n words, whose pointees follow it in order. */
  function Front(n: nat, cells: seq<Cell>): (ws: seq<Word>)
    ensures |ws| == |cells|
  {
    if cells == [] then []
    else
      var before := DropLast(cells);
      Front(n, before) + [CellWord(cells[|before|], n + Below(before) - |before| - 1)]
  }

  /** A cell as a word, its pointee `off` words past its end. */
  function CellWord(c: Cell, off: int): Word
  {
    match c
    case W(w) => w
    case P(t) => PointerTo(t, off)
  }

  function Bodies(cells: seq<Cell>): (ws: seq<Word>)
    ensures |ws| == Below(cells)
    decreases cells
  {
    if cells == [] then []
    else Bodies(DropLast(cells)) + CellBody(cells[|cells| - 1])
  }

  function CellBody(c: Cell): (ws: seq<Word>)
    ensures |ws| == CellSize(c)
    decreases c
  {
    match c
    case W(_) => []
    case P(t) => Body(t)
  }

  function Body(t: Tree): (ws: seq<Word>)
    ensures |ws| == Size(t)
    decreases t
  {
    match t
    case Absent => []
    case Node(shape, cells) => Head(shape) + Front(|cells|, cells) + Bodies(cells)
  }

  /** The canonical message of a tree: one segment, the root pointer first. */
  function Encode(t: Tree): (ws: seq<Word>)
    ensures |ws| == 1 + Size(t)
  {
    [PointerTo(t, 0)] + Body(t)
  }

  lemma BodyOf(t: Tree)
    requires t.Node?
    ensures Body(t) == Head(t.shape) + Front(|t.cells|, t.cells) + Bodies(t.cells)
    ensures Size(t) == |Head(t.shape)| + |t.cells| + Below(t.cells)
    ensures forall c: Cell :: c.P? ==> CellSize(c) == Size(c.tree) && CellBody(c) == Body(c.tree)
  {
  }

  // ---- where things are ----------------------------------------------------------

  lemma {:induction false} FrontAt(n: nat, cells: seq<Cell>, j: nat)
    requires j < |cells|
    ensures Front(n, cells)[j] == CellWord(cells[j], n + Below(cells[..j]) - j - 1)
  {
    if j == |cells| - 1 {
      assert cells[..j] == DropLast(cells);
    } else {
      FrontAt(n, DropLast(cells), j);
      assert DropLast(cells)[..j] == cells[..j];
    }
  }

  lemma {:induction false} BelowPrefix(cells: seq<Cell>, j: nat)
    requires j <= |cells|
    ensures Below(cells[..j]) <= Below(cells)
  {
    if j < |cells| {
      BelowPrefix(DropLast(cells), j);
      assert DropLast(cells)[..j] == cells[..j];
    } else {
      assert cells[..j] == cells;
    }
  }

  /** The body of what cell j points to is in one piece, after those of the cells before it. */
  lemma {:induction false} BodyAt(cells: seq<Cell>, j: nat)
    requires j < |cells|
    ensures var at := Below(cells[..j]);
            && at + CellSize(cells[j]) <= Below(cells)
            && Bodies(cells)[at..at + CellSize(cells[j])] == CellBody(cells[j])
  {
    hide CellSize, CellBody;
    var before, at := DropLast(cells), Below(cells[..j]);
    if j == |cells| - 1 {
      assert cells[..j] == before;
    } else {
      BodyAt(before, j);
      assert before[..j] == cells[..j];
      assert Bodies(cells)[at..at + CellSize(cells[j])] == Bodies(before)[at..at + CellSize(cells[j])];
    }
  }
}
