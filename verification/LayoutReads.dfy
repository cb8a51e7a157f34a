/** The canonical encoding reads back as the tree it encodes. */
module LayoutReads {
  import opened Options
  import opened Arith
  import opened WirePointer
  import opened Message
  import opened ObjectTree
  import opened Layout

  /** The bodies of t are at f in the words of a segment. */
  predicate LaidOut(ws: seq<Word>, f: nat, t: Tree)
  {
    f + Size(t) <= |ws| && ws[f..f + Size(t)] == Body(t)
  }

  /** The pointer at s is to the bodies of t at f. */
  predicate Linked(ws: seq<Word>, s: nat, f: nat, t: Tree)
  {
    s < f && LaidOut(ws, f, t) && ws[s] == PointerTo(t, f - s - 1)
  }

  /** The object q has the shape of t, and the cells of t for its body. */
  predicate Denotes(q: Ptr, f: nat, t: Tree)
  {
    match t
    case Absent => q.Null?
    case Node(shape, cells) =>
      && (q.Struct? || q.List?) && q.seg == 0 && ShapeOf(q) == shape
      && (|Head(shape)| + |cells| > 0 ==> q.word == f + |Head(shape)|)
  }

  /** The offset written for t, `off` words past the pointer's end, fits its field. */
  predicate LinkFits(t: Tree, off: int)
  {
    t.Node? && |Head(t.shape)| + |t.cells| > 0 ==> off < TWO_29
  }

  /** The offset of the pointee of cell j, past the end of the cell. */
  function CellOffset(cells: seq<Cell>, j: nat): int
    requires j < |cells|
  {
    |cells| + Below(cells[..j]) - j - 1
  }

  /** So do the offsets of all pointers below t. */
  predicate OffsetsFit(t: Tree)
    decreases t, 1
  {
    t.Node? ==> forall j :: 0 <= j < |t.cells| ==> CellOffsetFits(t, j)
  }

  predicate CellOffsetFits(t: Tree, j: nat)
    requires t.Node? && j < |t.cells|
    decreases t, 0
  {
    t.cells[j].P? ==> LinkFits(t.cells[j].tree, CellOffset(t.cells, j)) && OffsetsFit(t.cells[j].tree)
  }

  /** All offsets fit in an encoding of up to 2^29 words. */
  lemma {:induction false} SmallFits(t: Tree)
    requires Size(t) <= TWO_29
    ensures OffsetsFit(t)
    decreases t
  {
    hide Below, Body, Head;
    if t.Node? {
      BodyOf(t);
      forall j | 0 <= j < |t.cells|
        ensures CellOffsetFits(t, j)
      {
        BodyAt(t.cells, j);
        BelowPrefix(t.cells, j);
        if t.cells[j].P? {
          SmallFits(t.cells[j].tree);
          if t.cells[j].tree.Node? {
            BodyOf(t.cells[j].tree);
          }
        }
      }
    }
  }

  lemma LookNear(segs: Segs, seg: nat, word: int)
    requires InBounds(segs, seg, word) && segs[seg][word] != 0
    ensures var w := segs[seg][word];
            && (Kind(w) == KIND_STRUCT ==> LookAt(segs, seg, word) == Plus(1, LookStruct(segs, seg, word, w)))
            && (Kind(w) == KIND_LIST ==> LookAt(segs, seg, word) == Plus(1, LookList(segs, seg, word, w)))
  {
    hide Kind, LookStruct, LookList, LookDoubleFar;
  }

  lemma LookFields(ws: seq<Word>, s: nat, f: nat, t: Tree)
    requires Proper(t) && Linked(ws, s, f, t) && LinkFits(t, f - s - 1) && t.Node? && t.shape.Fields?
    ensures var l := LookAt([ws], 0, s);
            l.Found? && Denotes(l.ptr, f, t) && l.cost == 1 + |t.cells|
  {
    hide Kind, Offset, StructDwords, StructPwords, MakeStruct, LookAt, Proper, Size, Below;
    var Fields(dw, pw) := t.shape;
    ProperCount(t);
    BodyOf(t);
    var off := if dw == 0 && pw == 0 then -1 else f - s - 1;
    StructFields(off, dw, pw);
    assert off % TWO_30 == 0 && dw == 0 && pw == 0 ==> false;
    LookNear([ws], 0, s);
  }

  lemma LookElems(ws: seq<Word>, s: nat, f: nat, t: Tree)
    requires Proper(t) && Linked(ws, s, f, t) && LinkFits(t, f - s - 1) && t.Node? && t.shape.Elems?
    ensures var l := LookAt([ws], 0, s);
            l.Found? && Denotes(l.ptr, f, t) && l.cost == 1 + |t.cells|
  {
    hide Kind, Offset, ListEsize, ListCount, MakeList, LookAt, Proper, Size, Below;
    ProperCount(t);
    BodyOf(t);
    var Elems(esize, count) := t.shape;
    ListFields(if |t.cells| == 0 then 0 else f - s - 1, esize, count);
    LookNear([ws], 0, s);
  }

  lemma FittingRows(t: Tree, off: int)
    requires t.Node? && t.shape.Rows? && LinkFits(t, off)
    ensures off < TWO_29
  {
  }

  lemma LookRows(ws: seq<Word>, s: nat, f: nat, t: Tree)
    requires Proper(t) && Linked(ws, s, f, t) && LinkFits(t, f - s - 1) && t.Node? && t.shape.Rows?
    ensures var l := LookAt([ws], 0, s);
            l.Found? && Denotes(l.ptr, f, t) && l.cost == 2 + |t.cells|
  {
    hide Kind, Offset, ListEsize, ListCount, MakeList, MakeStruct, StructDwords, StructPwords, TagCount, LookAt,
         Proper, Size, Below, RowWords,
         LinkFits;
    FittingRows(t, f - s - 1);
    ProperCount(t);
    BodyOf(t);
    var Rows(count, dw, pw) := t.shape;
    ListFields(f - s - 1, SZ_COMPOSITE, RowWords(count, dw + pw));
    StructFields(count, dw, pw);
    TagFields(count, dw, pw);
    assert ws[f] == ws[f..f + Size(t)][0] == Head(t.shape)[0] == MakeStruct(count, dw, pw);
    LookNear([ws], 0, s);
  }

  /** The pointer to a laid out tree leads to it, for one word and the words of its body. */
  lemma LookLinked(ws: seq<Word>, s: nat, f: nat, t: Tree)
    requires Proper(t) && Linked(ws, s, f, t) && LinkFits(t, f - s - 1)
    ensures var l := LookAt([ws], 0, s);
            && l.Found? && Denotes(l.ptr, f, t)
            && l.cost == 1 + if t.Absent? then 0 else |Head(t.shape)| + |t.cells|
  {
    hide LookAt;
    match t
    case Absent => assert LookAt([ws], 0, s) == Found(Null, 1) by { LookZero(ws, s); }
    case Node(Fields(_, _), _) => LookFields(ws, s, f, t);
    case Node(Elems(_, _), _) => LookElems(ws, s, f, t);
    case Node(Rows(_, _, _), _) => LookRows(ws, s, f, t);
  }

  lemma LookZero(ws: seq<Word>, s: nat)
    requires s < |ws| && ws[s] == 0
    ensures LookAt([ws], 0, s) == Found(Null, 1)
  {
  }

  /** Every cell of a laid out body is where the body says, and every pointee is laid out in turn. */
  lemma CellLinked(ws: seq<Word>, f: nat, t: Tree, j: nat)
    requires LaidOut(ws, f, t) && t.Node? && j < |t.cells|
    ensures var s := f + |Head(t.shape)| + j;
            && s < |ws|
            && (t.cells[j].W? ==> ws[s] == t.cells[j].word)
            && (t.cells[j].P? ==> Linked(ws, s, CellBase(t, f, j), t.cells[j].tree))
  {
    hide Size, Body, Front, Bodies, Below, PointerTo, Head;
    var Node(shape, cells) := t;
    var h, n := |Head(shape)|, |cells|;
    var below := Below(cells[..j]);
    BodyOf(t);
    FrontAt(n, cells, j);
    BodyAt(cells, j);
    BelowPrefix(cells, j);
    var front, bodies := Front(n, cells), Bodies(cells);
    assert Body(t)[h + j] == front[j];
    assert ws[f + h + j] == ws[f..f + Size(t)][h + j];
    if cells[j].P? {
      var c := cells[j].tree;
      var at := h + n + below;
      assert Body(t)[at..at + Size(c)] == bodies[below..below + Size(c)];
      assert ws[f + at..f + at + Size(c)] == ws[f..f + Size(t)][at..at + Size(c)];
    }
  }

  /** The offset of a pointer in a segment of up to 2^29 words fits. */
  lemma LinkedFits(ws: seq<Word>, s: nat, f: nat, t: Tree)
    requires Linked(ws, s, f, t) && |ws| <= TWO_29
    ensures LinkFits(t, f - s - 1)
  {
    hide Below, Body, Head;
    if t.Node? {
      BodyOf(t);
    }
  }

  lemma LinkedLaidOut(ws: seq<Word>, s: nat, f: nat, t: Tree)
    requires Linked(ws, s, f, t)
    ensures LaidOut(ws, f, t)
  {
  }

  lemma LaidOutFits(ws: seq<Word>, f: nat, t: Tree)
    requires LaidOut(ws, f, t) && |ws| <= TWO_29
    ensures OffsetsFit(t)
  {
    hide OffsetsFit, Body;
    SmallFits(t);
  }

  /** Where the body of what cell j points to starts, when the body of t is at f. */
  function CellBase(t: Tree, f: nat, j: nat): nat
    requires t.Node? && j < |t.cells|
  {
    f + |Head(t.shape)| + |t.cells| + Below(t.cells[..j])
  }

  lemma ProperCount(t: Tree)
    requires t.Node? && Proper(t)
    ensures |t.cells| == CellCount(t.shape) && ShapeFits(t.shape)
  {
  }

  lemma ProperCells(t: Tree, j: nat)
    requires Proper(t) && t.Node? && j < |t.cells|
    ensures t.cells[j].P? <==> IsPointer(t.shape, j)
    ensures t.cells[j].P? ==> Proper(t.cells[j].tree)
  {
    assert ProperCell(t.shape, t.cells[j], j);
  }

  /** The root slot of an encoding. */
  lemma RootLinked(t: Tree)
    ensures Linked(Encode(t), 0, 1, t) && LaidOut(Encode(t), 1, t) && LinkFits(t, 0)
  {
    hide Size, Body, PointerTo;
    assert Encode(t)[1..1 + Size(t)] == Body(t);
  }

  /** Reading a laid out object gives the tree. */
  lemma {:induction false} ReadLinked(ws: seq<Word>, q: Ptr, f: nat, t: Tree, fuel: nat)
    requires Proper(t) && LaidOut(ws, f, t) && OffsetsFit(t)
    requires Denotes(q, f, t) && FitsDepth(t, fuel)
    ensures Read([ws], q, fuel) == Some(t)
    decreases fuel, 0
  {
    hide LaidOut, Proper;
    if t.Node? {
      hide ReadCell, Read;
      assert |t.cells| == CellCount(ShapeOf(q)) by { ProperCount(t); }
      var d, segs := fuel - 1, [ws];
      forall j | 0 <= j < |t.cells|
        ensures Readable(segs, q, j, d) && ReadCell(segs, q, j, d) == Some(t.cells[j])
      {
        ReadLinkedCell(ws, q, f, t, j, d);
      }
      CellsOfRead(segs, q, d);
      assert Read(segs, q, fuel).value.cells == t.cells;
    }
  }

  lemma {:induction false} ReadLinkedCell(ws: seq<Word>, q: Ptr, f: nat, t: Tree, j: nat, fuel: nat)
    requires Proper(t) && LaidOut(ws, f, t) && OffsetsFit(t)
    requires t.Node? && Denotes(q, f, t) && FitsDepth(t, fuel + 1) && j < |t.cells|
    ensures ReadCell([ws], q, j, fuel) == Some(t.cells[j])
    decreases fuel, 1
  {
    hide LaidOut, LookAt, Low, BytesUsed, Read, Head, LinkFits, Below;
    assert CellOffsetFits(t, j);
    var s := f + |Head(t.shape)| + j;
    CellLinked(ws, f, t, j);
    assert ProperCell(t.shape, t.cells[j], j);
    if t.cells[j].P? {
      var c := t.cells[j].tree;
      LookLinked(ws, s, CellBase(t, f, j), c);
      assert CellFits(t.shape, c, fuel);
      if !(c.Absent? && !t.shape.Elems?) {
        ReadLinked(ws, LookAt([ws], 0, s).ptr, CellBase(t, f, j), c, fuel);
      }
    }
  }

  /** Reading the canonical encoding of a tree from its root gives the tree back. */
  lemma EncodeReadsBack(t: Tree, fuel: nat)
    requires Proper(t) && FitsDepth(t, fuel) && OffsetsFit(t)
    ensures var l := LookRoot([Encode(t)]);
            l.Found? && Read([Encode(t)], l.ptr, fuel) == Some(t)
  {
    var ws := Encode(t);
    assert ws[1..1 + Size(t)] == Body(t);
    hide Body, Size, PointerTo, Read, LookAt, Proper, FitsDepth;
    assert Linked(ws, 0, 1, t);
    LookLinked(ws, 0, 1, t);
    ReadLinked(ws, LookAt([ws], 0, 0).ptr, 1, t, fuel);
  }

  /** Different values have different encodings. */
  lemma EncodeInjective(t: Tree, u: Tree, fuel: nat)
    requires Proper(t) && FitsDepth(t, fuel) && OffsetsFit(t)
    requires Proper(u) && FitsDepth(u, fuel) && OffsetsFit(u) && Encode(t) == Encode(u)
    ensures t == u
  {
    hide *;
    EncodeReadsBack(t, fuel);
    EncodeReadsBack(u, fuel);
  }
}
