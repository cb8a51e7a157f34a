/** What a message means: the tree of values its pointers unfold to, the normal
    form of such a tree, and the traversal budget a canonical rewrite spends on it. */
module ObjectTree {
  import opened Options
  import opened Arith
  import opened WirePointer
  import opened Message

  /** The body of an object: a struct, a list of plain elements or pointers, or a
      composite list as `count` rows. */
  datatype Shape =
    | Fields(dw: nat, pw: nat)
    | Elems(esize: nat, count: nat)
    | Rows(count: nat, dw: nat, pw: nat)

  /** A word of a body: data, or a pointer and what it leads to. */
  datatype Cell = W(word: Word) | P(tree: Tree)

  datatype Tree = Absent | Node(shape: Shape, cells: seq<Cell>)

  /** How many words a body of this shape has. */
  function CellCount(shape: Shape): nat
  {
    match shape
    case Fields(dw, pw) => dw + pw
    case Elems(esize, count) => if esize == SZ_PTR then count else ListWords(esize, count)
    case Rows(count, dw, pw) => RowWords(count, dw + pw)
  }

  /** Is word j of a body a pointer? */
  predicate IsPointer(shape: Shape, j: nat)
  {
    match shape
    case Fields(dw, _) => j >= dw
    case Elems(esize, _) => esize == SZ_PTR
    case Rows(_, dw, pw) => dw + pw > 0 && j % (dw + pw) >= dw
  }

  // ---- reading ---------------------------------------------------------------

  function ShapeOf(p: Ptr): Shape
    requires p.Struct? || p.List?
  {
    match p
    case Struct(_, _, dw, pw) => Fields(dw, pw)
    case List(_, _, esize, count, dw, pw) =>
      if esize == SZ_COMPOSITE then Rows(count, dw, pw) else Elems(esize, count)
  }

  function At(segs: Segs, seg: nat, word: int): Word
  {
    if InBounds(segs, seg, word) then segs[seg][word] else 0
  }

  /** The low n bytes of a word. */
  function Low(w: Word, n: nat): Word
    requires 1 <= n <= 8
  {
    if n == 1 then w % 0x100
    else if n == 2 then w % 0x1_0000
    else if n == 3 then w % 0x100_0000
    else if n == 4 then w % 0x1_0000_0000
    else if n == 5 then w % 0x100_0000_0000
    else if n == 6 then w % 0x1_0000_0000_0000
    else if n == 7 then w % 0x100_0000_0000_0000
    else w
  }

  /** How many bytes of word j belong to the body: a plain list may end inside a word. */
  function BytesUsed(shape: Shape, j: nat): (n: nat)
    requires j < CellCount(shape)
    ensures 1 <= n <= 8
  {
    if shape.Elems? && shape.esize != SZ_PTR && j == CellCount(shape) - 1
    then (ListBits(shape.esize, shape.count) + 7) / 8 - 8 * j
    else 8
  }

  /** Data word j of the body of p. */
  function DataAt(segs: Segs, p: Ptr, j: nat): Word
    requires p.Struct? || p.List?
    requires j < CellCount(ShapeOf(p))
  {
    Low(At(segs, p.seg, p.word + j), BytesUsed(ShapeOf(p), j))
  }

  /** Word j of the body of p, followed to at most `fuel` further levels. A null
      element of a pointer list counts as a level; a null field does not. */
  function ReadCell(segs: Segs, p: Ptr, j: nat, fuel: nat): Option<Cell>
    requires p.Struct? || p.List?
    requires j < CellCount(ShapeOf(p))
    decreases fuel, 1
  {
    if !IsPointer(ShapeOf(p), j) then Some(W(DataAt(segs, p, j)))
    else
      match LookAt(segs, p.seg, p.word + j)
      case Bad(_, _) => None
      case Found(q, _) =>
        if q.Null? && !ShapeOf(p).Elems? then Some(P(Absent))
        else if Read(segs, q, fuel).None? then None
        else Some(P(Read(segs, q, fuel).value))
  }

  /** The first k words of the body of p. */
  function ReadCells(segs: Segs, p: Ptr, k: nat, fuel: nat): (r: Option<seq<Cell>>)
    requires p.Struct? || p.List?
    requires k <= CellCount(ShapeOf(p))
    ensures r.Some? ==> |r.value| == k
    decreases fuel, 2, k
  {
    if k == 0 then Some([])
    else
      match ReadCells(segs, p, k - 1, fuel)
      case None => None
      case Some(cells) =>
        match ReadCell(segs, p, k - 1, fuel)
        case None => None
        case Some(c) => Some(cells + [c])
  }

  /** The value of the object p, when it has at most `fuel` levels and names no capability. */
  function Read(segs: Segs, p: Ptr, fuel: nat): Option<Tree>
    decreases fuel, 0
  {
    if fuel == 0 || p.Cap? then None
    else if p.Null? then Some(Absent)
    else
      match ReadCells(segs, p, CellCount(ShapeOf(p)), fuel - 1)
      case None => None
      case Some(cells) => Some(Node(ShapeOf(p), cells))
  }

  predicate Readable(segs: Segs, p: Ptr, j: nat, fuel: nat)
    requires p.Struct? || p.List?
    requires j < CellCount(ShapeOf(p))
  {
    ReadCell(segs, p, j, fuel).Some?
  }

  lemma {:induction false} CellsGiven(segs: Segs, p: Ptr, fuel: nat, k: nat)
    requires p.Struct? || p.List?
    requires k <= CellCount(ShapeOf(p))
    ensures var r := ReadCells(segs, p, k, fuel);
            && (r.Some? <==> forall j :: 0 <= j < k ==> Readable(segs, p, j, fuel))
            && (r.Some? ==> forall j :: 0 <= j < k ==> ReadCell(segs, p, j, fuel) == Some(r.value[j]))
  {
    hide ReadCell;
    if k > 0 {
      CellsGiven(segs, p, fuel, k - 1);
      assert Readable(segs, p, k - 1, fuel) <==> ReadCell(segs, p, k - 1, fuel).Some?;
    }
  }

  /** An object is read exactly when every word of its body is. */
  lemma CellsOfRead(segs: Segs, p: Ptr, fuel: nat)
    requires p.Struct? || p.List?
    ensures Read(segs, p, fuel + 1).Some? <==>
              forall j :: 0 <= j < CellCount(ShapeOf(p)) ==> Readable(segs, p, j, fuel)
    ensures Read(segs, p, fuel + 1).Some? ==>
              var t := Read(segs, p, fuel + 1).value;
              && t.Node? && t.shape == ShapeOf(p) && |t.cells| == CellCount(t.shape)
              && forall j :: 0 <= j < |t.cells| ==> ReadCell(segs, p, j, fuel) == Some(t.cells[j])
  {
    hide ReadCell;
    CellsGiven(segs, p, fuel, CellCount(ShapeOf(p)));
  }

  // ---- normal form --------------------------------------------------------------

  /** The cells a default value leaves: a zero data word, an absent pointer. */
  const ZERO := W(0)
  const NULL := P(Absent)

  function CellAt(cells: seq<Cell>, j: int): Cell
  {
    if 0 <= j < |cells| then cells[j] else ZERO
  }

  /** The cells at base.. up to the last of n that is not blank. */
  function UsedLen(cells: seq<Cell>, base: int, n: nat, blank: Cell): (used: nat)
    ensures used <= n
    ensures used > 0 ==> CellAt(cells, base + used - 1) != blank
    ensures forall j :: base + used <= j < base + n ==> CellAt(cells, j) == blank
  {
    if n == 0 then 0
    else if CellAt(cells, base + n - 1) != blank then n
    else UsedLen(cells, base, n - 1, blank)
  }

  function Max(a: nat, b: nat): nat
  {
    if a > b then a else b
  }

  /** UsedLen of the n cells at `base` in row i. */
  function RowUsed(cells: seq<Cell>, i: nat, stride: nat, base: nat, n: nat, blank: Cell): (used: nat)
    ensures used <= n
  {
    UsedLen(cells, Place(i, base, stride), n, blank)
  }

  /** The largest of them over the first `rows` rows. */
  function MaxUsed(cells: seq<Cell>, rows: nat, stride: nat, base: nat, n: nat, blank: Cell): (used: nat)
    ensures used <= n
    ensures forall i :: 0 <= i < rows ==> RowUsed(cells, i, stride, base, n, blank) <= used
    ensures used > 0 ==> exists i :: 0 <= i < rows && RowUsed(cells, i, stride, base, n, blank) == used
  {
    if rows == 0 then 0
    else Max(MaxUsed(cells, rows - 1, stride, base, n, blank), RowUsed(cells, rows - 1, stride, base, n, blank))
  }

  /** The dimensions left once trailing defaults are dropped: of a struct, of its own
      sections; of a composite list, of the largest row. */
  function TrimShape(shape: Shape, cells: seq<Cell>): Shape
  {
    match shape
    case Fields(dw, pw) => Fields(UsedLen(cells, 0, dw, ZERO), UsedLen(cells, dw, pw, NULL))
    case Elems(_, _) => shape
    case Rows(count, dw, pw) =>
      Rows(count, MaxUsed(cells, count, dw + pw, 0, dw, ZERO), MaxUsed(cells, count, dw + pw, dw, pw, NULL))
  }

  /** Where word j of a trimmed body sits in the body it was trimmed from. */
  function Source(from: Shape, to: Shape, j: nat): int
  {
    match to
    case Fields(nd, _) => if j < nd || !from.Fields? then j else from.dw + (j - nd)
    case Elems(_, _) => j
    case Rows(_, nd, np) =>
      if nd + np == 0 || !from.Rows? then j
      else
        var i, k := j / (nd + np), j % (nd + np);
        Place(i, if k < nd then k else from.dw + (k - nd), from.dw + from.pw)
  }

  function TrimCell(c: Cell): Cell
    decreases c
  {
    match c
    case W(_) => c
    case P(t) => P(Trim(t))
  }

  /** The normal form: every struct without its trailing defaults, every composite
      list with rows of the largest trimmed size. */
  function Trim(t: Tree): Tree
    decreases t
  {
    match t
    case Absent => Absent
    case Node(shape, cells) =>
      var to := TrimShape(shape, cells);
      Node(to, seq(CellCount(to), j requires 0 <= j < CellCount(to) =>
        var at := Source(shape, to, j);
        if 0 <= at < |cells| then TrimCell(cells[at]) else ZERO))
  }

  // ---- what reading can produce -----------------------------------------------------

  /** The dimensions the fields of a pointer word can hold. */
  predicate ShapeFits(shape: Shape)
  {
    match shape
    case Fields(dw, pw) => dw < TWO_16 && pw < TWO_16
    case Elems(esize, count) => esize < SZ_COMPOSITE && count < TWO_29
    case Rows(count, dw, pw) => CountFits(count) && dw < TWO_16 && pw < TWO_16
  }

  predicate ProperCell(shape: Shape, c: Cell, j: nat)
    requires j < CellCount(shape)
    decreases c
  {
    match c
    case W(w) => !IsPointer(shape, j) && Low(w, BytesUsed(shape, j)) == w
    case P(t) => IsPointer(shape, j) && Proper(t)
  }

  /** Cells agree with the shape they fill. */
  predicate Proper(t: Tree)
    decreases t
  {
    match t
    case Absent => true
    case Node(shape, cells) =>
      && ShapeFits(shape) && |cells| == CellCount(shape)
      && forall j :: 0 <= j < |cells| ==> ProperCell(shape, cells[j], j)
  }

  /** The tree has at most `fuel` levels, as Read counts them. */
  predicate FitsDepth(t: Tree, fuel: nat)
    decreases fuel, 0
  {
    && fuel > 0
    && (t.Node? ==> forall j :: 0 <= j < |t.cells| && t.cells[j].P? ==>
          CellFits(t.shape, t.cells[j].tree, fuel - 1))
  }

  predicate CellFits(shape: Shape, child: Tree, fuel: nat)
    decreases fuel, 1
  {
    (child.Absent? && !shape.Elems?) || (fuel > 0 && FitsDepth(child, fuel))
  }
}
