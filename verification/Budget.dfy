/** What a canonical rewrite looks at before it writes: the trimmed size of each
    body, and the traversal budget that finding it and copying it spend. */
module Budget {
  import opened Options
  import opened Arith
  import opened WirePointer
  import opened Message
  import opened ObjectTree
  import opened NormalForm

  /** The pointer slot leads to null. */
  predicate SlotNull(segs: Segs, seg: nat, at: int)
  {
    var l := LookAt(segs, seg, at);
    l.Found? && l.ptr.Null?
  }

  /** trimmed_dwords: n words at `at`, without the trailing zeros. */
  function WordsUsed(segs: Segs, seg: nat, at: int, n: nat): (used: nat)
    ensures used <= n
  {
    if n == 0 || At(segs, seg, at + n - 1) != 0 then n else WordsUsed(segs, seg, at, n - 1)
  }

  /** trimmed_pwords: n pointers at `at`, without the trailing nulls. */
  function SlotsUsed(segs: Segs, seg: nat, at: int, n: nat): (used: nat)
    ensures used <= n
  {
    if n == 0 || !SlotNull(segs, seg, at + n - 1) then n else SlotsUsed(segs, seg, at, n - 1)
  }

  /** What finding that out costs. */
  function TrimCost(segs: Segs, seg: nat, at: int, n: nat): nat
  {
    if n == 0 then 0
    else
      LookAt(segs, seg, at + n - 1).cost +
      if SlotNull(segs, seg, at + n - 1) then TrimCost(segs, seg, at, n - 1) else 0
  }

  /** The start of row i of a composite list. */
  function RowAt(p: Ptr, i: nat): int
    requires p.List?
  {
    p.word + Place(i, 0, p.dw + p.pw)
  }

  function MaxWords(segs: Segs, p: Ptr, rows: nat): (used: nat)
    requires p.List?
    ensures used <= p.dw
  {
    if rows == 0 then 0
    else Max(MaxWords(segs, p, rows - 1), WordsUsed(segs, p.seg, RowAt(p, rows - 1), p.dw))
  }

  function MaxSlots(segs: Segs, p: Ptr, rows: nat): (used: nat)
    requires p.List?
    ensures used <= p.pw
  {
    if rows == 0 then 0
    else Max(MaxSlots(segs, p, rows - 1), SlotsUsed(segs, p.seg, RowAt(p, rows - 1) + p.dw, p.pw))
  }

  function RowsTrimCost(segs: Segs, p: Ptr, rows: nat): nat
    requires p.List?
  {
    if rows == 0 then 0
    else RowsTrimCost(segs, p, rows - 1) + TrimCost(segs, p.seg, RowAt(p, rows - 1) + p.dw, p.pw)
  }

  /** The shape the copy of p gets. */
  function TargetShape(segs: Segs, p: Ptr): (to: Shape)
    requires p.Struct? || p.List?
    ensures Narrower(ShapeOf(p), to)
  {
    match p
    case Struct(seg, word, dw, pw) =>
      Fields(WordsUsed(segs, seg, word, dw), SlotsUsed(segs, seg, word + dw, pw))
    case List(_, _, esize, count, _, _) =>
      if esize == SZ_COMPOSITE then Rows(count, MaxWords(segs, p, count), MaxSlots(segs, p, count))
      else ShapeOf(p)
  }

  function SizingCost(segs: Segs, p: Ptr): nat
    requires p.Struct? || p.List?
  {
    match p
    case Struct(seg, word, dw, pw) => TrimCost(segs, seg, word + dw, pw)
    case List(_, _, esize, count, _, _) => if esize == SZ_COMPOSITE then RowsTrimCost(segs, p, count) else 0
  }

  /** The budget spent on word `at` of the body of p. */
  function CellCost(segs: Segs, p: Ptr, at: int, fuel: nat): nat
    requires p.Struct? || p.List?
    decreases fuel, 1
  {
    if at < 0 || !IsPointer(ShapeOf(p), at) then 0
    else
      match LookAt(segs, p.seg, p.word + at)
      case Bad(_, cost) => cost
      case Found(q, cost) => cost + CopyCost(segs, q, fuel)
  }

  /** The budget spent on the first m words of a body copied to shape `to`. */
  function CellsCost(segs: Segs, p: Ptr, to: Shape, m: nat, fuel: nat): nat
    requires p.Struct? || p.List?
    decreases fuel, 2, m
  {
    if m == 0 then 0
    else CellsCost(segs, p, to, m - 1, fuel) + CellCost(segs, p, Source(ShapeOf(p), to, m - 1), fuel)
  }

  /** The budget spent on copying p. */
  function CopyCost(segs: Segs, p: Ptr, fuel: nat): nat
    decreases fuel, 0
  {
    if fuel == 0 || p.Null? || p.Cap? then 0
    else
      var to := TargetShape(segs, p);
      SizingCost(segs, p) + CellsCost(segs, p, to, CellCount(to), fuel - 1)
  }

  lemma {:induction false} CellsCostMono(segs: Segs, p: Ptr, to: Shape, m: nat, n: nat, fuel: nat)
    requires (p.Struct? || p.List?) && m <= n
    ensures CellsCost(segs, p, to, m, fuel) <= CellsCost(segs, p, to, n, fuel)
    decreases n - m
  {
    hide CellCost;
    if m < n {
      CellsCostMono(segs, p, to, m, n - 1, fuel);
    }
  }

  // ---- the sizes found are those of the normal form ------------------------------------

  /** The value of p, read to fuel + 1 levels, when there is one. */
  predicate ReadsAs(segs: Segs, p: Ptr, fuel: nat, t: Tree)
  {
    && (p.Struct? || p.List?) && t.Node? && t.shape == ShapeOf(p) && |t.cells| == CellCount(t.shape)
    && forall j :: 0 <= j < |t.cells| ==> ReadCell(segs, p, j, fuel) == Some(t.cells[j])
  }

  lemma DataCell(segs: Segs, p: Ptr, fuel: nat, t: Tree, j: nat)
    requires ReadsAs(segs, p, fuel, t) && j < |t.cells| && !t.shape.Elems? && !IsPointer(t.shape, j)
    ensures CellAt(t.cells, j) == W(At(segs, p.seg, p.word + j))
  {
    hide LookAt, Read;
    assert ReadCell(segs, p, j, fuel) == Some(t.cells[j]);
  }

  lemma SlotCell(segs: Segs, p: Ptr, fuel: nat, t: Tree, j: nat)
    requires ReadsAs(segs, p, fuel, t) && j < |t.cells| && !t.shape.Elems? && IsPointer(t.shape, j)
    ensures CellAt(t.cells, j) == NULL <==> SlotNull(segs, p.seg, p.word + j)
  {
    hide LookAt, DataAt;
    assert ReadCell(segs, p, j, fuel) == Some(t.cells[j]);
    var q := LookAt(segs, p.seg, p.word + j).ptr;
    if !q.Null? && t.cells[j] == NULL {
      ReadAbsent(segs, q, fuel);
    }
  }

  lemma ReadAbsent(segs: Segs, q: Ptr, fuel: nat)
    requires Read(segs, q, fuel) == Some(Absent)
    ensures q.Null?
  {
  }

  lemma {:induction false} WordsUsedIs(segs: Segs, p: Ptr, fuel: nat, t: Tree, base: nat, n: nat)
    requires ReadsAs(segs, p, fuel, t) && base + n <= |t.cells| && !t.shape.Elems?
    requires forall j :: base <= j < base + n ==> !IsPointer(t.shape, j)
    ensures WordsUsed(segs, p.seg, p.word + base, n) == UsedLen(t.cells, base, n, ZERO)
  {
    hide ReadsAs, At, IsPointer;
    if n > 0 {
      DataCell(segs, p, fuel, t, base + n - 1);
      WordsUsedIs(segs, p, fuel, t, base, n - 1);
    }
  }

  lemma {:induction false} SlotsUsedIs(segs: Segs, p: Ptr, fuel: nat, t: Tree, base: nat, n: nat)
    requires ReadsAs(segs, p, fuel, t) && base + n <= |t.cells| && !t.shape.Elems?
    requires forall j :: base <= j < base + n ==> IsPointer(t.shape, j)
    ensures SlotsUsed(segs, p.seg, p.word + base, n) == UsedLen(t.cells, base, n, NULL)
  {
    hide ReadsAs, SlotNull, IsPointer;
    if n > 0 {
      SlotCell(segs, p, fuel, t, base + n - 1);
      SlotsUsedIs(segs, p, fuel, t, base, n - 1);
    }
  }

  lemma RowWordsUsedIs(segs: Segs, p: Ptr, fuel: nat, t: Tree, i: nat)
    requires ReadsAs(segs, p, fuel, t) && t.shape.Rows? && i < t.shape.count
    ensures WordsUsed(segs, p.seg, RowAt(p, i), p.dw) == RowUsed(t.cells, i, p.dw + p.pw, 0, p.dw, ZERO)
  {
    hide ReadsAs, WordsUsed, UsedLen, Place;
    AsRead(segs, p, fuel, t);
    var m := p.dw + p.pw;
    RowBounds(i, t.shape.count, p.dw, p.pw);
    forall j | Place(i, 0, m) <= j < Place(i, 0, m) + p.dw
      ensures !IsPointer(t.shape, j)
    {
      PlaceStep(i, 0, j - Place(i, 0, m), m);
      DivMod(i, j - Place(i, 0, m), m);
    }
    WordsUsedIs(segs, p, fuel, t, Place(i, 0, m), p.dw);
  }

  lemma AsRead(segs: Segs, p: Ptr, fuel: nat, t: Tree)
    requires ReadsAs(segs, p, fuel, t)
    ensures (p.Struct? || p.List?) && t.Node? && t.shape == ShapeOf(p) && |t.cells| == CellCount(t.shape)
  {
  }

  lemma RowBounds(i: nat, count: nat, dw: nat, pw: nat)
    requires i < count
    ensures 0 <= Place(i, 0, dw + pw) && Place(i, 0, dw + pw) + dw + pw <= RowWords(count, dw + pw)
    ensures Place(i, dw, dw + pw) == Place(i, 0, dw + pw) + dw
  {
    PlaceStep(i, 0, dw, dw + pw);
    PlaceMono(i + 1, count, dw + pw);
    PlaceMono(0, i, dw + pw);
  }

  lemma RowSlotsUsedIs(segs: Segs, p: Ptr, fuel: nat, t: Tree, i: nat)
    requires ReadsAs(segs, p, fuel, t) && t.shape.Rows? && i < t.shape.count
    ensures SlotsUsed(segs, p.seg, RowAt(p, i) + p.dw, p.pw) == RowUsed(t.cells, i, p.dw + p.pw, p.dw, p.pw, NULL)
  {
    hide ReadsAs, SlotsUsed, UsedLen, Place;
    AsRead(segs, p, fuel, t);
    var m := p.dw + p.pw;
    RowBounds(i, t.shape.count, p.dw, p.pw);
    forall j | Place(i, p.dw, m) <= j < Place(i, p.dw, m) + p.pw
      ensures IsPointer(t.shape, j)
    {
      PlaceStep(i, 0, j - Place(i, 0, m), m);
      DivMod(i, j - Place(i, 0, m), m);
    }
    SlotsUsedIs(segs, p, fuel, t, Place(i, p.dw, m), p.pw);
  }

  lemma {:induction false} MaxWordsIs(segs: Segs, p: Ptr, fuel: nat, t: Tree, rows: nat)
    requires ReadsAs(segs, p, fuel, t) && t.shape.Rows? && rows <= t.shape.count
    ensures MaxWords(segs, p, rows) == MaxUsed(t.cells, rows, p.dw + p.pw, 0, p.dw, ZERO)
  {
    hide ReadsAs, WordsUsed, RowUsed, RowAt;
    if rows > 0 {
      MaxWordsIs(segs, p, fuel, t, rows - 1);
      RowWordsUsedIs(segs, p, fuel, t, rows - 1);
    }
  }

  lemma {:induction false} MaxSlotsIs(segs: Segs, p: Ptr, fuel: nat, t: Tree, rows: nat)
    requires ReadsAs(segs, p, fuel, t) && t.shape.Rows? && rows <= t.shape.count
    ensures MaxSlots(segs, p, rows) == MaxUsed(t.cells, rows, p.dw + p.pw, p.dw, p.pw, NULL)
  {
    hide ReadsAs, SlotsUsed, RowUsed, RowAt;
    if rows > 0 {
      MaxSlotsIs(segs, p, fuel, t, rows - 1);
      RowSlotsUsedIs(segs, p, fuel, t, rows - 1);
    }
  }

  /** When p has a value, the copy gets the shape of its normal form. */
  lemma TargetIsTrimmed(segs: Segs, p: Ptr, fuel: nat, t: Tree)
    requires ReadsAs(segs, p, fuel, t)
    ensures TargetShape(segs, p) == TrimShape(t.shape, t.cells)
  {
    hide ReadsAs, WordsUsed, SlotsUsed, UsedLen, MaxWords, MaxSlots, MaxUsed;
    AsRead(segs, p, fuel, t);
    match t.shape
    case Fields(dw, pw) =>
      WordsUsedIs(segs, p, fuel, t, 0, dw);
      SlotsUsedIs(segs, p, fuel, t, dw, pw);
    case Elems(_, _) =>
    case Rows(count, _, _) =>
      MaxWordsIs(segs, p, fuel, t, count);
      MaxSlotsIs(segs, p, fuel, t, count);
  }
}
