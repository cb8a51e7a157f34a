/** When the canonical words of a message lose its meaning: when an offset in them does
    not fit its 30 bits. */
module CanonicalLimits {
  import opened Options
  import opened Arith
  import opened Bytes
  import opened WirePointer
  import opened Message
  import opened ObjectTree
  import opened NormalForm
  import opened Layout
  import opened LayoutReads
  import opened Budget
  import opened Canonical
  import opened Canonicalizer
  import opened CanonicalTheorems

  /** An offset from 2^29 on reads as a negative one. */
  lemma WrapsStruct(off: nat, dw: nat, pw: nat)
    requires TWO_29 <= off < TWO_30 && dw < TWO_16 && pw < TWO_16
    ensures Offset(MakeStruct(off, dw, pw)) == off - TWO_30
  {
    assert off % TWO_30 == (off - TWO_30) % TWO_30;
    StructFields(off - TWO_30, dw, pw);
  }

  lemma WrapsList(off: nat, esize: nat, count: nat)
    requires TWO_29 <= off < TWO_30 && esize < 8
    ensures Offset(MakeList(off, esize, count)) == off - TWO_30
  {
    assert off % TWO_30 == (off - TWO_30) % TWO_30;
    ListFields(off - TWO_30, esize, count);
  }

  /** A pointer whose offset does not fit leads before its segment. */
  lemma LookOverflows(ws: seq<Word>, s: nat, f: nat, t: Tree)
    requires Proper(t) && Linked(ws, s, f, t) && |ws| <= TWO_30 && !LinkFits(t, f - s - 1)
    ensures LookAt([ws], 0, s).Bad?
  {
    hide Kind, Offset, StructDwords, StructPwords, ListEsize, ListCount, MakeStruct, MakeList, LookAt, Proper, Below,
         RowWords, TagCount;
    ProperCount(t);
    BodyOf(t);
    var off := f - s - 1;
    match t.shape
    case Fields(dw, pw) =>
      StructFields(off, dw, pw);
      WrapsStruct(off, dw, pw);
      LookNear([ws], 0, s);
    case Elems(esize, count) =>
      ListFields(off, esize, count);
      WrapsList(off, esize, count);
      LookNear([ws], 0, s);
    case Rows(count, dw, pw) =>
      ListFields(off, SZ_COMPOSITE, RowWords(count, dw + pw));
      WrapsList(off, SZ_COMPOSITE, RowWords(count, dw + pw));
      LookNear([ws], 0, s);
  }

  /** A laid out object with such a pointer anywhere below it cannot be read. */
  lemma {:induction false} ReadOverflows(ws: seq<Word>, q: Ptr, f: nat, t: Tree, fuel: nat)
    requires Proper(t) && LaidOut(ws, f, t) && |ws| <= TWO_30 && Denotes(q, f, t) && !OffsetsFit(t)
    ensures Read([ws], q, fuel).None?
    decreases fuel
  {
    hide LaidOut, Proper, LookAt, LinkFits, Below, Head, CellCount;
    if fuel > 0 {
      var j: nat :| j < |t.cells| && !CellOffsetFits(t, j);
      var c, d, s := t.cells[j].tree, fuel - 1, f + |Head(t.shape)| + j;
      assert |t.cells| == CellCount(ShapeOf(q)) by { ProperCount(t); }
      CellLinked(ws, f, t, j);
      assert ProperCell(t.shape, t.cells[j], j) by { ProperAt(t, j); }
      assert Proper(c);
      if LinkFits(c, CellOffset(t.cells, j)) {
        LookLinked(ws, s, CellBase(t, f, j), c);
        LinkedLaidOut(ws, s, CellBase(t, f, j), c);
        ReadOverflows(ws, LookAt([ws], 0, s).ptr, CellBase(t, f, j), c, d);
      } else {
        LookOverflows(ws, s, CellBase(t, f, j), c);
      }
      assert q.word + j == s;
      assert !Readable([ws], q, j, d);
      CellsOfRead([ws], q, d);
    }
  }

  lemma ProperAt(t: Tree, j: nat)
    requires Proper(t) && t.Node? && j < |t.cells|
    ensures j < CellCount(t.shape) && ProperCell(t.shape, t.cells[j], j)
  {
  }

  /** Up to 2^30 words: the canonical words mean what the message means exactly when every
      offset in them fits its 30 bits; otherwise they cannot be read at all. */
  lemma MeaningExactly(segs: Segs)
    requires CanonicalCode(segs) == OK && |Encode(Trim(Value(segs).value))| <= TWO_30
    ensures var out, t := Encode(Trim(Value(segs).value)), Trim(Value(segs).value);
            && (Value([out]) == Some(t) <==> OffsetsFit(t))
            && (!OffsetsFit(t) ==> Value([out]).None?)
  {
    hide Proper, FitsDepth, Read, LookAt, Trim, OffsetsFit, Size, Body;
    ValueProper(segs);
    var t := Trim(Value(segs).value);
    if OffsetsFit(t) {
      MeaningPreserved(segs);
    } else {
      var ws := Encode(t);
      RootLinked(t);
      NodeOfUnfit(t);
      LookLinked(ws, 0, 1, t);
      ReadOverflows(ws, LookAt([ws], 0, 0).ptr, 1, t, Fuel(0));
    }
  }

  lemma NodeOfUnfit(t: Tree)
    requires !OffsetsFit(t)
    ensures t.Node?
  {
  }

  // ---- a message that loses its meaning --------------------------------------------------------

  const LONG := TWO_29 - 1

  /** A list of three pointers: through a double-far pad to LONG words in another segment,
      to one word, and null. */
  function LongMessage(): Segs
  {
    [[MakeList(0, SZ_PTR, 3), MakeFar(true, 4, 0), MakeList(3, SZ_EIGHT, 1), 0,
      MakeFar(false, 0, 1), MakeList(0, SZ_EIGHT, LONG), 5],
     seq(LONG, _ => 0)]
  }

  const ROOT := List(0, 1, SZ_PTR, 3, 0, 0)
  const FIRST := List(1, 0, SZ_EIGHT, LONG, 0, 0)
  const SECOND := List(0, 6, SZ_EIGHT, 1, 0, 0)

  /** What the pointers of the long message lead to, which lies inside it. */
  predicate Long(segs: Segs)
  {
    && LookAt(segs, 0, 0) == Found(ROOT, 4) && LookAt(segs, 0, 1) == Found(FIRST, 3)
    && LookAt(segs, 0, 2) == Found(SECOND, 2) && LookAt(segs, 0, 3) == Found(Null, 1)
    && DataInside(segs, FIRST) && DataInside(segs, SECOND) && |segs| == 2
  }

  /** The words of the long message. */
  predicate Words(segs: Segs)
  {
    && |segs| == 2 && |segs[0]| == 7 && |segs[1]| == LONG
    && segs[0][0] == MakeList(0, SZ_PTR, 3) && segs[0][1] == MakeFar(true, 4, 0) && segs[0][2] == MakeList(3, SZ_EIGHT, 1)
    && segs[0][3] == 0 && segs[0][4] == MakeFar(false, 0, 1) && segs[0][5] == MakeList(0, SZ_EIGHT, LONG)
  }

  lemma RootLook(segs: Segs)
    requires Words(segs)
    ensures LookAt(segs, 0, 0) == Found(ROOT, 4)
  {
    hide Kind, Offset, ListEsize, ListCount, MakeList, MakeFar, LookAt;
    ListFields(0, SZ_PTR, 3);
    LookNear(segs, 0, 0);
  }

  lemma FirstLook(segs: Segs)
    requires Words(segs)
    ensures LookAt(segs, 0, 1) == Found(FIRST, 3)
  {
    hide Kind, Offset, ListEsize, ListCount, MakeList, MakeFar, FarTwo, FarSeg, FarOff, LookStruct, LookList;
    FarFields(true, 4, 0);
    FarFields(false, 0, 1);
    ListFields(0, SZ_EIGHT, LONG);
  }

  lemma SecondLook(segs: Segs)
    requires Words(segs)
    ensures LookAt(segs, 0, 2) == Found(SECOND, 2) && LookAt(segs, 0, 3) == Found(Null, 1)
  {
    hide Kind, Offset, ListEsize, ListCount, MakeList, MakeFar, FarTwo, FarSeg, FarOff, LookStruct, LookDoubleFar;
    ListFields(3, SZ_EIGHT, 1);
  }

  lemma IsLong()
    ensures Long(LongMessage())
  {
    hide LookAt, MakeList, MakeFar;
    var segs := LongMessage();
    assert Words(segs);
    RootLook(segs);
    FirstLook(segs);
    SecondLook(segs);
  }

  /** A list of words: its value, its cost, its place. */
  lemma WordsRead(segs: Segs, p: Ptr, fuel: nat)
    requires p.List? && p.esize == SZ_EIGHT && fuel > 0 && DataInside(segs, p)
    ensures Sound(segs, p, fuel) && CopyCost(segs, p, fuel) == 0
    ensures Read(segs, p, fuel).Some?
    ensures var t := Read(segs, p, fuel).value; t.Node? && t.shape == Elems(SZ_EIGHT, p.count) && |t.cells| == p.count
    ensures var u := Trim(Read(segs, p, fuel).value);
            && u.Node? && u.shape == Elems(SZ_EIGHT, p.count) && |u.cells| == p.count && Size(u) == p.count
            && forall j :: 0 <= j < |u.cells| ==> u.cells[j].W?
  {
    hide LookAt, Low, BytesUsed, Trim, Size;
    var d := fuel - 1;
    forall j | 0 <= j < p.count
      ensures Readable(segs, p, j, d)
    {
    }
    CellsOfRead(segs, p, d);
    var t := Read(segs, p, fuel).value;
    TrimmedSize(t);
    var u := Trim(t);
    forall j | 0 <= j < |u.cells|
      ensures u.cells[j].W?
    {
      TrimmedCell(t, j);
      assert ReadCell(segs, p, j, d) == Some(t.cells[j]);
    }
    NoneBelow(u.cells);
    BodyOf(u);
    WordsCost(segs, p, p.count, d);
  }

  lemma {:induction false} NoneBelow(cells: seq<Cell>)
    requires forall j :: 0 <= j < |cells| ==> cells[j].W?
    ensures Below(cells) == 0
  {
    if cells != [] {
      NoneBelow(DropLast(cells));
    }
  }

  lemma {:induction false} WordsCost(segs: Segs, p: Ptr, m: nat, fuel: nat)
    requires p.List? && p.esize == SZ_EIGHT && m <= p.count
    ensures CellsCost(segs, p, ShapeOf(p), m, fuel) == 0
  {
    hide LookAt;
    if m > 0 {
      WordsCost(segs, p, m - 1, fuel);
    }
  }

  /** The value of the long message, and what canonicalizing it costs. */
  lemma LongValue(segs: Segs)
    requires Long(segs)
    ensures MessageSound(segs) && CanonicalCode(segs) == OK && Value(segs).Some?
    ensures var u := Trim(Value(segs).value);
            && u.Node? && u.shape == Elems(SZ_PTR, 3) && |u.cells| == 3 && u.cells[0].P? && u.cells[1].P?
            && Size(u.cells[0].tree) == LONG && u.cells[1].tree.Node? && |u.cells[1].tree.cells| == 1
            && Size(u.cells[1].tree) == 1 && u.cells[2] == P(Absent)
  {
    hide LookAt, Read, CopyCost, Trim, Size, Low, BytesUsed, DataInside;
    var d := Fuel(0) - 1;
    WordsRead(segs, FIRST, d);
    WordsRead(segs, SECOND, d);
    assert Read(segs, Null, d) == Some(Absent) && CopyCost(segs, Null, d) == 0 by { NullCopies(segs, d); }
    LongCells(segs, d);
    LongCost(segs, d);
    CellsOfRead(segs, ROOT, d);
    var t := Read(segs, ROOT, Fuel(0)).value;
    TrimmedSize(t);
    assert ReadCell(segs, ROOT, 0, d) == Some(t.cells[0]) && ReadCell(segs, ROOT, 1, d) == Some(t.cells[1]);
    assert ReadCell(segs, ROOT, 2, d) == Some(t.cells[2]);
    TrimmedCell(t, 0);
    TrimmedCell(t, 1);
    TrimmedCell(t, 2);
    assert Trim(Absent) == Absent by { AbsentTrims(); }
  }

  lemma AbsentTrims()
    ensures Trim(Absent) == Absent
  {
  }

  lemma NullCopies(segs: Segs, fuel: nat)
    requires fuel > 0
    ensures Read(segs, Null, fuel) == Some(Absent) && CopyCost(segs, Null, fuel) == 0 && Sound(segs, Null, fuel)
  {
  }

  lemma LongCells(segs: Segs, fuel: nat)
    requires Long(segs) && fuel > 0
    ensures Readable(segs, ROOT, 0, fuel) && ReadCell(segs, ROOT, 0, fuel) == Some(P(Read(segs, FIRST, fuel).value))
    ensures Readable(segs, ROOT, 1, fuel) && ReadCell(segs, ROOT, 1, fuel) == Some(P(Read(segs, SECOND, fuel).value))
    ensures Readable(segs, ROOT, 2, fuel) && ReadCell(segs, ROOT, 2, fuel) == Some(P(Absent))
    ensures Sound(segs, ROOT, fuel + 1)
  {
    hide LookAt, Read, DataInside, Sound;
    WordsRead(segs, FIRST, fuel);
    WordsRead(segs, SECOND, fuel);
    NullCopies(segs, fuel);
    RootSound(segs, fuel);
  }

  lemma RootSound(segs: Segs, fuel: nat)
    requires Long(segs) && fuel > 0 && Sound(segs, FIRST, fuel) && Sound(segs, SECOND, fuel) && Sound(segs, Null, fuel)
    ensures Sound(segs, ROOT, fuel + 1)
  {
    hide LookAt, Read;
    assert SlotSound(segs, 0, 1, fuel + 1) && SlotSound(segs, 0, 2, fuel + 1) && SlotSound(segs, 0, 3, fuel + 1);
  }

  lemma LongCost(segs: Segs, fuel: nat)
    requires Long(segs) && fuel > 0
    ensures CopyCost(segs, ROOT, fuel + 1) == 6
  {
    hide LookAt;
    WordsRead(segs, FIRST, fuel);
    WordsRead(segs, SECOND, fuel);
    NullCopies(segs, fuel);
    var to := ShapeOf(ROOT);
    assert CellsCost(segs, ROOT, to, 1, fuel) == 3;
    assert CellsCost(segs, ROOT, to, 2, fuel) == 5;
    assert CellsCost(segs, ROOT, to, 3, fuel) == 6;
  }

  /** This message canonicalizes, and its canonical words cannot be read. */
  lemma MeaningLost()
    ensures var segs := LongMessage();
            && MessageSound(segs) && CanonicalCode(segs) == OK && Value(segs).Some?
            && Value([Encode(Trim(Value(segs).value))]).None?
  {
    hide LongMessage, Long, CanonicalCode, MessageSound, Trim, Read, Size, LookAt, Below;
    var segs := LongMessage();
    IsLong();
    LongValue(segs);
    var u := Trim(Value(segs).value);
    ThreeBelow(u.cells);
    BodyOf(u);
    assert !CellOffsetFits(u, 1);
    MeaningExactly(segs);
  }

  lemma ThreeBelow(cells: seq<Cell>)
    requires |cells| == 3
    ensures Below(cells[..1]) == CellSize(cells[0])
    ensures Below(cells) == CellSize(cells[0]) + CellSize(cells[1]) + CellSize(cells[2])
  {
    hide CellSize;
    assert cells[..1] == [cells[0]] && DropLast(cells[..1]) == [];
    assert DropLast(DropLast(cells)) == cells[..1];
  }
}
