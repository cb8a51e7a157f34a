/** The recursive copy of capnp_canonical.c. */
module Canonicalizer {
  import opened Options
  import opened Arith
  import opened Bytes
  import opened WirePointer
  import opened Message
  import opened ObjectTree
  import opened NormalForm
  import opened Layout
  import opened Budget
  import opened Progress
  import opened Canonical
  import opened CopyProofs

  const FIRST_WORDS := 1024

  /** The builder's only segment: `data` up to its capacity, of which `words` are in use. */
  class Output {
    var data: seq<Word>
    var words: nat

    ghost predicate Valid()
      reads this
    {
      && words <= |data|
      && forall i :: words <= i < |data| ==> data[i] == 0
    }

    ghost function Words(): (ws: seq<Word>)
      reads this
      requires Valid()
      ensures |ws| == words
    {
      data[..words]
    }

    constructor (cap: nat)
      ensures Valid() && Words() == []
    {
      data := ZeroWords(cap);
      words := 0;
    }

    /** alloc_local: n zeroed words at the end, growing the segment in place. */
    method AllocLocal(n: nat) returns (at: nat)
      requires Valid()
      modifies this
      ensures Valid() && at == old(words)
      ensures Words() == old(Words()) + ZeroWords(n)
    {
      if n == 0 {
        assert data[..words] == data[..words] + ZeroWords(0);
        return words;
      }
      if words + n > |data| {
        var ncap := if |data| > 0 then |data| * 2 else 16;
        while ncap < words + n
          invariant ncap > |data|
          decreases words + n - ncap
        {
          ncap := ncap * 2;
        }
        data := data + ZeroWords(ncap - |data|);
      }
      at := words;
      words := words + n;
    }

    method Store(at: nat, w: Word)
      requires Valid() && at < words
      modifies this
      ensures Valid() && words == old(words)
      ensures Words() == old(Words())[at := w]
    {
      data := data[at := w];
    }

    // ---- copying ------------------------------------------------------------------------

    /** The body of the copy of p, of shape `to`, has these cells in place: it starts
        after the words `pre`, and bodies of its pointees follow it. */
    ghost predicate Building(segs: Segs, p: Ptr, to: Shape, pre: seq<Word>, cells: seq<Cell>, fuel: nat)
      reads this
    {
      && Valid() && Matches(segs, p, to, cells, fuel)
      && (p.Struct? || p.List?) && Narrower(ShapeOf(p), to) && |cells| <= CellCount(to)
      && Words() == pre + Partial(CellCount(to), cells)
    }

    /** write_struct_body_data: the words from cell j0 on are the first nd data words of el. */
    method WriteBodyData(m: Message, body: nat, nd: nat, el: Ptr,
                         ghost p: Ptr, ghost to: Shape, ghost pre: seq<Word>, ghost cells: seq<Cell>, ghost fuel: nat)
      returns (ghost done: seq<Cell>)
      requires Building(m.segs, p, to, pre, cells, fuel) && body == |pre| + |cells|
      requires el.Struct? && DataInside(m.segs, el) && SameData(p, to, |cells|, nd, el)
      modifies this
      ensures Valid() && Building(m.segs, p, to, pre, done, fuel) && |done| == |cells| + nd
      ensures CellsCost(m.segs, p, to, |done|, fuel) == CellsCost(m.segs, p, to, |cells|, fuel)
    {
      hide Matches, Partial, CellsCost, DataInside, Narrower, DataAt, CellCount;
      done := cells;
      for i := 0 to nd
        invariant Building(m.segs, p, to, pre, done, fuel) && |done| == |cells| + i
        invariant CellsCost(m.segs, p, to, |done|, fuel) == CellsCost(m.segs, p, to, |cells|, fuel)
      {
        var w := GetU64(m, el, i);
        DataDone(m.segs, p, to, pre, done, |cells|, nd, el, w, fuel);
        Store(body + i, w);
        done := done + [W(w)];
      }
    }

    /** One pointer found: the object it leads to, copied behind the rest. */
    method PlaceChild(m: Message, slot: nat, child: Ptr, depth: nat,
                      ghost p: Ptr, ghost to: Shape, ghost pre: seq<Word>, ghost cells: seq<Cell>)
      returns (rc: Code, ghost done: seq<Cell>)
      requires depth <= 64 && Building(m.segs, p, to, pre, cells, Fuel(depth + 1)) && slot == |pre| + |cells|
      requires |cells| < CellCount(to) && IsPointer(to, |cells|)
      requires Sound(m.segs, child, Fuel(depth + 1)) && PtrFits(child)
      requires var l := LookAt(m.segs, p.seg, p.word + Source(ShapeOf(p), to, |cells|)); l.Found? && l.ptr == child
      modifies this, m
      ensures Valid() && m.left <= old(m.left)
      ensures rc == OK <==> Copyable(m.segs, child, Fuel(depth + 1), old(m.left))
      ensures rc == OK ==>
                && m.left == old(m.left) - CopyCost(m.segs, child, Fuel(depth + 1))
                && Building(m.segs, p, to, pre, done, Fuel(depth + 1)) && |done| == |cells| + 1
      decreases 65 - depth, 0
    {
      hide Matches, Partial, Narrower, CellCount, Sound, LookAt, CopyCost, Read, IsPointer, Source, Placed, PtrFits;
      done := cells;
      rc := CopyPtrToWord(m, slot, child, depth + 1);
      if rc == OK {
        SlotDone(m.segs, p, to, pre, cells, child, Fuel(depth + 1));
        done := cells + [P(Trim(Read(m.segs, child, Fuel(depth + 1)).value))];
      }
    }

    /** The pointers from cell j0 on are the first np pointers of el. */
    method CopyFields(m: Message, first: nat, np: nat, el: Ptr, depth: nat,
                      ghost p: Ptr, ghost to: Shape, ghost pre: seq<Word>, ghost cells: seq<Cell>)
      returns (rc: Code, ghost done: seq<Cell>)
      requires Valid() && depth <= 64 && Building(m.segs, p, to, pre, cells, Fuel(depth + 1)) && first == |pre| + |cells|
      requires p.Struct? || p.List?
      requires el.Struct? && np <= el.pw && el.seg == p.seg && SameSlots(p, to, |cells|, np, el.word + el.dw)
      requires Sound(m.segs, p, Fuel(depth))
      modifies this, m
      ensures Valid() && m.left <= old(m.left)
      ensures Copied(m.segs, p, to, |cells|, |cells| + np, Fuel(depth + 1), old(m.left), rc, m.left)
      ensures rc == OK ==> Building(m.segs, p, to, pre, done, Fuel(depth + 1)) && |done| == |cells| + np
      decreases 65 - depth, 1
    {
      hide Matches, Partial, CellsCost, Narrower, CellCount, Sound, LookAt, SameSlots, Reachable, CopyCost, Read, Building,
           IsPointer, Source, PtrFits;
      done := cells;
      for k := 0 to np
        invariant Valid() && Building(m.segs, p, to, pre, done, Fuel(depth + 1)) && |done| == |cells| + k
        invariant m.left <= old(m.left)
        invariant CellsCost(m.segs, p, to, |done|, Fuel(depth + 1)) - CellsCost(m.segs, p, to, |cells|, Fuel(depth + 1))
                    == old(m.left) - m.left
      {
        SlotAt(m.segs, p, to, |cells|, np, el.word + el.dw, |done|, depth);
        if k >= el.pw {
          assert false;
        }
        var child;
        rc, child := m.Getp(el, k);
        if rc != OK {
          SlotStuck(m.segs, p, to, |cells|, |done|, |cells| + np, Fuel(depth + 1), old(m.left));
          return ErrKind, done;
        }
        ghost var j := |done|;
        rc, done := PlaceChild(m, first + k, child, depth, p, to, pre, done);
        if rc != OK {
          SlotStuck(m.segs, p, to, |cells|, j, |cells| + np, Fuel(depth + 1), old(m.left));
          return ErrAlloc, done;
        }
      }
      return OK, done;
    }

    /** capnp_copy_ptr_to_word */
    method CopyPtrToWord(m: Message, slot: nat, src: Ptr, depth: nat) returns (rc: Code)
      requires Valid() && slot < words && depth <= 65
      requires Sound(m.segs, src, Fuel(depth)) && PtrFits(src)
      modifies this, m
      ensures Valid() && m.left <= old(m.left)
      ensures rc == OK <==> Copyable(m.segs, src, Fuel(depth), old(m.left))
      ensures rc == OK ==> m.left == old(m.left) - CopyCost(m.segs, src, Fuel(depth))
      ensures rc == OK ==> Words() == Placed(old(Words()), slot, Trim(Read(m.segs, src, Fuel(depth)).value))
      decreases 65 - depth, 5
    {
      hide Sound, PtrFits, Place, ReadCells, TargetShape, SizingCost, CellsCost;
      if depth > 64 {
        return ErrDepth;
      }
      if src.Null? {
        Store(slot, 0);
        return OK;
      }
      if src.Cap? {
        return ErrKind;
      }
      if src.List? {
        rc := WriteListToSlot(m, slot, src, depth);
      } else {
        rc := CopyStruct(m, slot, src, depth);
      }
    }

    method CopyStruct(m: Message, slot: nat, src: Ptr, depth: nat) returns (rc: Code)
      requires Valid() && slot < words && depth <= 64
      requires src.Struct? && Sound(m.segs, src, Fuel(depth)) && PtrFits(src)
      modifies this, m
      ensures Valid() && m.left <= old(m.left)
      ensures rc == OK <==> Copyable(m.segs, src, Fuel(depth), old(m.left))
      ensures rc == OK ==> m.left == old(m.left) - CopyCost(m.segs, src, Fuel(depth))
      ensures rc == OK ==> Words() == Placed(old(Words()), slot, Trim(Read(m.segs, src, Fuel(depth)).value))
      decreases 65 - depth, 4
    {
      hide Sound, PtrFits, Matches, Partial, CellsCost, Placed, PointerTo, CellCount, TrimCost, WordsUsed, SlotsUsed,
           IsPointer, Source, LookAt, Read, CopyCost, Trim, SameData, SameSlots, DataInside;
      SoundHere(m.segs, src, Fuel(depth));
      var nd := TrimmedDwords(m, src);
      var np := TrimmedPwords(m, src);
      ghost var to, ws, mid, fuel := Fields(nd, np), Words(), m.left, Fuel(depth + 1);
      BuildStart(m.segs, src, to, fuel);
      NoCells(m.segs, src, to, fuel);
      FieldCount(to);
      if nd == 0 && np == 0 {
        Store(slot, MakeStruct(-1, 0, 0));
        EmptyStruct(ws, slot);
        StructOutcome(m.segs, src, to, [], fuel, old(m.left), mid, OK, m.left);
        return OK;
      }
      var body := AllocLocal(nd + np);
      var off := body - slot - 1;
      Store(slot, MakeStruct(off, nd, np));
      ghost var pre := ws[slot := MakeStruct(off, nd, np)];
      assert Words() == pre + ZeroWords(nd + np);
      FieldCells(src, to);
      ghost var done;
      done := WriteBodyData(m, body, nd, src, src, to, pre, [], fuel);
      rc, done := CopyFields(m, body + nd, np, src, depth, src, to, pre, done);
      if rc == OK {
        StructDone(ws, slot, to, done);
      }
      StructOutcome(m.segs, src, to, done, fuel, old(m.left), mid, rc, m.left);
    }

    method WriteListToSlot(m: Message, slot: nat, list: Ptr, depth: nat) returns (rc: Code)
      requires Valid() && slot < words && depth <= 64
      requires list.List? && Sound(m.segs, list, Fuel(depth)) && PtrFits(list)
      modifies this, m
      ensures Valid() && m.left <= old(m.left)
      ensures rc == OK <==> Copyable(m.segs, list, Fuel(depth), old(m.left))
      ensures rc == OK ==> m.left == old(m.left) - CopyCost(m.segs, list, Fuel(depth))
      ensures rc == OK ==> Words() == Placed(old(Words()), slot, Trim(Read(m.segs, list, Fuel(depth)).value))
      decreases 65 - depth, 4
    {
      hide Sound, Read, CopyCost, Placed, Trim;
      if list.esize == SZ_COMPOSITE {
        rc := WriteComposite(m, slot, list, depth);
      } else if list.esize == SZ_PTR {
        rc := WritePointers(m, slot, list, depth);
      } else {
        rc := WritePlain(m, slot, list, depth);
      }
    }

    /** A composite list: its tag, then the rows at their largest trimmed size. */
    method WriteComposite(m: Message, slot: nat, list: Ptr, depth: nat) returns (rc: Code)
      requires Valid() && slot < words && depth <= 64
      requires list.List? && Sound(m.segs, list, Fuel(depth)) && PtrFits(list)
      requires list.esize == SZ_COMPOSITE
      modifies this, m
      ensures Valid() && m.left <= old(m.left)
      ensures rc == OK <==> Copyable(m.segs, list, Fuel(depth), old(m.left))
      ensures rc == OK ==> m.left == old(m.left) - CopyCost(m.segs, list, Fuel(depth))
      ensures rc == OK ==> Words() == Placed(old(Words()), slot, Trim(Read(m.segs, list, Fuel(depth)).value))
      decreases 65 - depth, 3
    {
      hide Sound, PtrFits, Matches, Partial, CellsCost, Placed, PointerTo, CellCount, RowsTrimCost, MaxWords, MaxSlots,
           LookAt, Read, CopyCost, Trim, DataInside, Stuck, RanOut, RowWords, MakeList, MakeStruct, Place;
      SoundHere(m.segs, list, Fuel(depth));
      var nd, np := CompositeTrim(m, list);
      ghost var to, ws, mid, fuel := Rows(list.count, nd, np), Words(), m.left, Fuel(depth + 1);
      RowCount(to);
      NoCells(m.segs, list, to, fuel);
      var first := PlaceTag(slot, list.count, nd, np);
      BuildStart(m.segs, list, to, fuel);
      ghost var pre := ws[slot := MakeList(|ws| - slot - 1, SZ_COMPOSITE, CellCount(to))] + [MakeStruct(list.count, nd, np)];
      ghost var done;
      rc, done := CopyRows(m, first, list, nd, np, depth, to, pre);
      if rc == OK {
        CompositeDone(ws, slot, to, done);
      }
      CompositeOutcome(m.segs, list, to, done, fuel, old(m.left), mid, rc, m.left);
    }

    /** The tag and zeroed rows of a composite list, and the pointer to them. */
    method PlaceTag(slot: nat, count: nat, nd: nat, np: nat) returns (first: nat)
      requires Valid() && slot < words
      modifies this
      ensures Valid() && first == old(words) + 1
      ensures var ws, content := old(Words()), RowWords(count, nd + np);
              Words() == ws[slot := MakeList(|ws| - slot - 1, SZ_COMPOSITE, content)] + [MakeStruct(count, nd, np)]
                           + ZeroWords(content)
    {
      hide MakeStruct, MakeList, RowWords;
      var content := RowWords(count, nd + np);
      ghost var ws := Words();
      var tagAt := AllocLocal(1 + content);
      Store(tagAt, MakeStruct(count, nd, np));
      var off := tagAt - slot - 1;
      Store(slot, MakeList(off, SZ_COMPOSITE, content));
      assert ZeroWords(1 + content)[0 := MakeStruct(count, nd, np)] == [MakeStruct(count, nd, np)] + ZeroWords(content);
      first := tagAt + 1;
    }

    /** The element loop of a composite list. */
    method CopyRows(m: Message, first: nat, list: Ptr, nd: nat, np: nat, depth: nat,
                    ghost to: Shape, ghost pre: seq<Word>)
      returns (rc: Code, ghost done: seq<Cell>)
      requires Valid() && depth <= 64 && list.List? && list.esize == SZ_COMPOSITE
      requires to == Rows(list.count, nd, np) && nd <= list.dw && np <= list.pw
      requires Building(m.segs, list, to, pre, [], Fuel(depth + 1)) && first == |pre|
      requires Sound(m.segs, list, Fuel(depth))
      modifies this, m
      ensures Valid() && m.left <= old(m.left)
      ensures Copied(m.segs, list, to, 0, CellCount(to), Fuel(depth + 1), old(m.left), rc, m.left)
      ensures rc == OK ==> Building(m.segs, list, to, pre, done, Fuel(depth + 1)) && |done| == CellCount(to)
      decreases 65 - depth, 2
    {
      hide Sound, Matches, Partial, CellsCost, CellCount, LookAt, SameData, SameSlots, DataInside, Place, Stuck, Building;
      ghost var fuel := Fuel(depth + 1);
      NoCells(m.segs, list, to, fuel);
      SoundHere(m.segs, list, Fuel(depth));
      done := [];
      RowStart(to);
      for i := 0 to list.count
        invariant Valid() && Building(m.segs, list, to, pre, done, fuel)
        invariant |done| == Place(i, 0, nd + np)
        invariant m.left <= old(m.left)
        invariant CellsCost(m.segs, list, to, |done|, fuel) == old(m.left) - m.left
      {
        var el;
        rc, el := m.ListGetp(list, i);
        if rc != OK {
          assert false;
        }
        RowCells(list, to, i);
        RowInside(m.segs, list, i);
        ghost var j0, left := |done|, m.left;
        done := WriteBodyData(m, first + RowWords(i, nd + np), nd, el, list, to, pre, done, fuel);
        rc, done := CopyFields(m, first + RowWords(i, nd + np) + nd, np, el, depth, list, to, pre, done);
        if rc != OK {
          StuckWider(m.segs, list, to, j0 + nd, j0 + nd + np, fuel, left, old(m.left));
          return rc, done;
        }
      }
      RowCount(to);
      return OK, done;
    }

    /** A pointer list. */
    method WritePointers(m: Message, slot: nat, list: Ptr, depth: nat) returns (rc: Code)
      requires Valid() && slot < words && depth <= 64
      requires list.List? && Sound(m.segs, list, Fuel(depth)) && PtrFits(list)
      requires list.esize == SZ_PTR
      modifies this, m
      ensures Valid() && m.left <= old(m.left)
      ensures rc == OK <==> Copyable(m.segs, list, Fuel(depth), old(m.left))
      ensures rc == OK ==> m.left == old(m.left) - CopyCost(m.segs, list, Fuel(depth))
      ensures rc == OK ==> Words() == Placed(old(Words()), slot, Trim(Read(m.segs, list, Fuel(depth)).value))
      decreases 65 - depth, 3
    {
      hide Sound, PtrFits, Matches, Partial, CellsCost, Placed, PointerTo, LookAt, Read, CopyCost, Trim, Stuck;
      var n := list.count;
      ghost var to, ws, fuel := ShapeOf(list), Words(), Fuel(depth + 1);
      var start := slot + 1;
      if n > 0 {
        start := AllocLocal(n);
      }
      var off := start - slot - 1;
      Store(slot, MakeList(off, SZ_PTR, n));
      ghost var pre := ws[slot := MakeList(off, SZ_PTR, n)];
      assert Words() == pre + ZeroWords(n);
      BuildStart(m.segs, list, to, fuel);
      ghost var done;
      rc, done := CopyElements(m, start, list, depth, pre);
      if rc == OK {
        ElemsDone(ws, slot, to, done);
      }
      NoCells(m.segs, list, to, fuel);
      ElemsOutcome(m.segs, list, done, fuel, old(m.left), rc, m.left);
    }

    /** The element loop of a pointer list. */
    method CopyElements(m: Message, start: nat, list: Ptr, depth: nat, ghost pre: seq<Word>)
      returns (rc: Code, ghost done: seq<Cell>)
      requires Valid() && depth <= 64 && list.List? && list.esize == SZ_PTR
      requires Building(m.segs, list, ShapeOf(list), pre, [], Fuel(depth + 1)) && (list.count > 0 ==> start == |pre|)
      requires Sound(m.segs, list, Fuel(depth))
      modifies this, m
      ensures Valid() && m.left <= old(m.left)
      ensures Copied(m.segs, list, ShapeOf(list), 0, list.count, Fuel(depth + 1), old(m.left), rc, m.left)
      ensures rc == OK ==> Building(m.segs, list, ShapeOf(list), pre, done, Fuel(depth + 1)) && |done| == list.count
      decreases 65 - depth, 1
    {
      hide Matches, Partial, CellsCost, Narrower, Sound, LookAt, SameSlots, Reachable, CopyCost, Read, Building,
           IsPointer, Source, PtrFits;
      ghost var to, fuel := ShapeOf(list), Fuel(depth + 1);
      ElementCells(list);
      NoCells(m.segs, list, to, fuel);
      done := [];
      for i := 0 to list.count
        invariant Valid() && Building(m.segs, list, to, pre, done, fuel) && |done| == i
        invariant m.left <= old(m.left)
        invariant CellsCost(m.segs, list, to, i, fuel) == old(m.left) - m.left
      {
        SlotAt(m.segs, list, to, 0, list.count, list.word, i, depth);
        var el;
        rc, el := m.ListGetp(list, i);
        if rc != OK {
          SlotStuck(m.segs, list, to, 0, i, list.count, fuel, old(m.left));
          return ErrKind, done;
        }
        rc, done := PlaceChild(m, start + i, el, depth, list, to, pre, done);
        if rc != OK {
          SlotStuck(m.segs, list, to, 0, i, list.count, fuel, old(m.left));
          return ErrAlloc, done;
        }
      }
      return OK, done;
    }

    /** A list of plain elements: its bytes. */
    method WritePlain(m: Message, slot: nat, list: Ptr, depth: nat) returns (rc: Code)
      requires Valid() && slot < words && depth <= 64
      requires list.List? && Sound(m.segs, list, Fuel(depth)) && PtrFits(list)
      requires list.esize < SZ_PTR
      modifies this, m
      ensures Valid() && m.left <= old(m.left)
      ensures rc == OK <==> Copyable(m.segs, list, Fuel(depth), old(m.left))
      ensures rc == OK ==> m.left == old(m.left) - CopyCost(m.segs, list, Fuel(depth))
      ensures rc == OK ==> Words() == Placed(old(Words()), slot, Trim(Read(m.segs, list, Fuel(depth)).value))
      decreases 65 - depth, 3
    {
      hide Sound, PtrFits, Matches, Partial, CellsCost, Placed, PointerTo, Read, CopyCost, Trim, ListBits;
      var n := list.count;
      ghost var to, ws, fuel := ShapeOf(list), Words(), Fuel(depth + 1);
      SoundHere(m.segs, list, Fuel(depth));
      var nbytes := (ListBits(list.esize, n) + 7) / 8;
      var nwords := (nbytes + 7) / 8;
      assert nwords == CellCount(to);
      var start := slot + 1;
      if nwords > 0 {
        start := AllocLocal(nwords);
      }
      var off := start - slot - 1;
      Store(slot, MakeList(off, list.esize, n));
      ghost var pre := ws[slot := MakeList(off, list.esize, n)];
      assert Words() == pre + ZeroWords(nwords);
      BuildStart(m.segs, list, to, fuel);
      ghost var done := CopyBytes(m, start, nbytes, list, pre, fuel);
      ElemsDone(ws, slot, to, done);
      ElemsOutcome(m.segs, list, done, fuel, old(m.left), OK, m.left);
      return OK;
    }

    /** memcpy of the list's bytes, word by word; the last word may be a part of one. */
    method CopyBytes(m: Message, start: nat, nbytes: nat, list: Ptr, ghost pre: seq<Word>, ghost fuel: nat)
      returns (ghost done: seq<Cell>)
      requires list.List? && list.esize < SZ_PTR && DataInside(m.segs, list)
      requires nbytes == (ListBits(list.esize, list.count) + 7) / 8
      requires Building(m.segs, list, ShapeOf(list), pre, [], fuel) && (nbytes > 0 ==> start == |pre|)
      modifies this
      ensures Building(m.segs, list, ShapeOf(list), pre, done, fuel) && |done| == CellCount(ShapeOf(list))
      ensures CellsCost(m.segs, list, ShapeOf(list), |done|, fuel) == 0
    {
      hide Matches, Partial, CellsCost, ListBits, Low;
      ghost var to := ShapeOf(list);
      NoCells(m.segs, list, to, fuel);
      done := [];
      var i := 0;
      while 8 * i < nbytes
        invariant Building(m.segs, list, to, pre, done, fuel) && |done| == i <= CellCount(to)
        invariant CellsCost(m.segs, list, to, i, fuel) == 0
        decreases nbytes - 8 * i
      {
        assert !IsPointer(to, i);
        var w := Low(m.segs[list.seg][list.word + i], if nbytes - 8 * i < 8 then nbytes - 8 * i else 8);
        PlainDone(m.segs, list, pre, done, w, fuel);
        Store(start + i, w);
        done := done + [W(w)];
        i := i + 1;
      }
    }
  }

  lemma DataWord(segs: Segs, p: Ptr, to: Shape, j0: nat, nd: nat, el: Ptr, j: nat)
    requires SameData(p, to, j0, nd, el) && Narrower(ShapeOf(p), to) && j0 <= j < j0 + nd
    ensures !IsPointer(to, j) && 0 <= Source(ShapeOf(p), to, j) < CellCount(ShapeOf(p))
    ensures DataAt(segs, p, Source(ShapeOf(p), to, j)) == At(segs, el.seg, el.word + (j - j0))
  {
    SourceFits(ShapeOf(p), to, j);
  }

  /** Storing the next data word. */
  lemma DataDone(segs: Segs, p: Ptr, to: Shape, pre: seq<Word>, done: seq<Cell>, j0: nat, nd: nat, el: Ptr, w: Word, fuel: nat)
    requires Matches(segs, p, to, done, fuel) && (p.Struct? || p.List?) && Narrower(ShapeOf(p), to)
    requires SameData(p, to, j0, nd, el) && j0 <= |done| < j0 + nd && j0 + nd <= CellCount(to)
    requires w == At(segs, el.seg, el.word + (|done| - j0))
    ensures (pre + Partial(CellCount(to), done))[|pre| + |done| := w] == pre + Partial(CellCount(to), done + [W(w)])
    ensures Matches(segs, p, to, done + [W(w)], fuel)
    ensures CellsCost(segs, p, to, |done| + 1, fuel) == CellsCost(segs, p, to, |done|, fuel)
  {
    hide Matches, Partial, CellsCost, Narrower, DataAt, CellCount, CellMatches, At, IsPointer, Source, SameData;
    DataWord(segs, p, to, j0, nd, el, |done|);
    StoreData(pre, CellCount(to), done, w);
    MatchData(segs, p, to, |done|, fuel);
    MatchMore(segs, p, to, done, W(w), fuel);
  }

  /** Copying the words from j0 to j1 succeeded, at their cost; or a pointer among them could not be copied. */
  ghost predicate Copied(segs: Segs, p: Ptr, to: Shape, j0: nat, j1: nat, fuel: nat, before: nat, rc: Code, after: nat)
    requires p.Struct? || p.List?
  {
    if rc == OK then CellsCost(segs, p, to, j1, fuel) - CellsCost(segs, p, to, j0, fuel) == before - after
    else Stuck(segs, p, to, j0, j1, fuel, before)
  }

  lemma SlotAt(segs: Segs, p: Ptr, to: Shape, j0: nat, n: nat, first: int, j: nat, depth: nat)
    requires SameSlots(p, to, j0, n, first) && j0 <= j < j0 + n && depth <= 64
    requires Sound(segs, p, Fuel(depth))
    ensures j < CellCount(to) && IsPointer(to, j) && p.word + Source(ShapeOf(p), to, j) == first + (j - j0)
    ensures var l := LookAt(segs, p.seg, first + (j - j0));
            && (l.Found? ==> Sound(segs, l.ptr, Fuel(depth + 1)) && PtrFits(l.ptr))
            && (Reachable(segs, p, to, j, Fuel(depth + 1)) <==> l.Found? && Read(segs, l.ptr, Fuel(depth + 1)).Some?)
            && CellsCost(segs, p, to, j + 1, Fuel(depth + 1))
                 == CellsCost(segs, p, to, j, Fuel(depth + 1)) + l.cost
                  + (if l.Found? then CopyCost(segs, l.ptr, Fuel(depth + 1)) else 0)
  {
    hide CellCount, Source, IsPointer, LookAt, CellsCost, CopyCost, Read, DataInside, Narrower, PtrFits;
    MatchPointer(segs, p, to, j, Fuel(depth + 1));
    LookFits(segs, p.seg, first + (j - j0));
    var at := Source(ShapeOf(p), to, j);
    assert SlotSound(segs, p.seg, p.word + at, Fuel(depth));
  }

  lemma SlotStuck(segs: Segs, p: Ptr, to: Shape, j0: nat, j: nat, j1: nat, fuel: nat, left: nat)
    requires (p.Struct? || p.List?) && j0 <= j < j1 && IsPointer(to, j)
    requires !Reachable(segs, p, to, j, fuel) || CellsCost(segs, p, to, j + 1, fuel) - CellsCost(segs, p, to, j0, fuel) > left
    ensures Stuck(segs, p, to, j0, j1, fuel, left)
  {
    hide IsPointer, Reachable, CellsCost;
  }

  /** Storing the next pointer. */
  lemma SlotDone(segs: Segs, p: Ptr, to: Shape, pre: seq<Word>, done: seq<Cell>, q: Ptr, fuel: nat)
    requires Matches(segs, p, to, done, fuel) && (p.Struct? || p.List?) && Narrower(ShapeOf(p), to)
    requires |done| < CellCount(to) && IsPointer(to, |done|)
    requires var l := LookAt(segs, p.seg, p.word + Source(ShapeOf(p), to, |done|)); l.Found? && l.ptr == q
    requires Read(segs, q, fuel).Some?
    ensures var t := Trim(Read(segs, q, fuel).value);
            && Placed(pre + Partial(CellCount(to), done), |pre| + |done|, t) == pre + Partial(CellCount(to), done + [P(t)])
            && Matches(segs, p, to, done + [P(t)], fuel)
  {
    hide Matches, Partial, CellsCost, Narrower, CellCount, CellMatches, IsPointer, Source, Trim, Read, LookAt, Placed;
    MatchPointer(segs, p, to, |done|, fuel);
    var t := Trim(Read(segs, q, fuel).value);
    assert Reachable(segs, p, to, |done|, fuel);
    StorePointer(pre, CellCount(to), done, t);
    MatchMore(segs, p, to, done, P(t), fuel);
  }

  lemma SoundHere(segs: Segs, p: Ptr, fuel: nat)
    requires Sound(segs, p, fuel)
    ensures DataInside(segs, p)
  {
  }

  lemma EmptyStruct(ws: seq<Word>, slot: nat)
    requires slot < |ws|
    ensures ws[slot := MakeStruct(-1, 0, 0)] == Placed(ws, slot, Node(Fields(0, 0), []))
  {
  }

  lemma FieldCount(to: Shape)
    requires to.Fields?
    ensures CellCount(to) == to.dw + to.pw
  {
  }

  lemma StructDone(ws: seq<Word>, slot: nat, to: Shape, cells: seq<Cell>)
    requires slot < |ws| && to.Fields? && (to.dw > 0 || to.pw > 0) && |cells| == CellCount(to)
    ensures ws[slot := MakeStruct(|ws| - slot - 1, to.dw, to.pw)] + Partial(CellCount(to), cells)
         == Placed(ws, slot, Node(to, cells))
  {
    hide Partial, Placed, CellCount, MakeStruct;
    var w := MakeStruct(|ws| - slot - 1, to.dw, to.pw);
    BuildDone(ws, slot, to, cells);
    assert ws[slot := w] + [] == ws[slot := w];
  }

  /** How copying a struct ends, from how its sizing and its fields did. */
  lemma StructOutcome(segs: Segs, p: Ptr, to: Shape, cells: seq<Cell>, fuel: nat, before: nat, mid: nat, rc: Code, after: nat)
    requires p.Struct? && to.Fields? && to.dw == WordsUsed(segs, p.seg, p.word, p.dw) && to.pw <= p.pw
    requires after <= mid <= before
    requires var at := p.word + p.dw;
             if TrimCost(segs, p.seg, at, p.pw) <= before
             then to.pw == SlotsUsed(segs, p.seg, at, p.pw) && mid == before - TrimCost(segs, p.seg, at, p.pw)
             else to.pw > 0 && LookAt(segs, p.seg, at + to.pw - 1).cost > mid
    requires if rc == OK
             then Matches(segs, p, to, cells, fuel) && |cells| == CellCount(to)
                  && CellsCost(segs, p, to, CellCount(to), fuel) == mid - after
             else Stuck(segs, p, to, 0, CellCount(to), fuel, mid)
    ensures rc == OK <==> Copyable(segs, p, fuel + 1, before)
    ensures rc == OK ==>
              && after == before - CopyCost(segs, p, fuel + 1)
              && Trim(Read(segs, p, fuel + 1).value) == Node(to, cells)
  {
    hide WordsUsed, SlotsUsed, TrimCost, Matches, CellsCost, Read, CopyCost, Stuck, Trim, LookAt, Source, IsPointer;
    CostOf(segs, p, fuel);
    if TrimCost(segs, p.seg, p.word + p.dw, p.pw) <= before {
      assert to == TargetShape(segs, p);
      if rc == OK {
        Finished(segs, p, to, cells, fuel);
      } else {
        Refused(segs, p, fuel, before);
      }
    } else {
      var j := to.dw + to.pw - 1;
      assert IsPointer(to, j) && p.word + Source(ShapeOf(p), to, j) == p.word + p.dw + to.pw - 1 by { LastField(p, to); }
      CostAtLeast(segs, p, to, j, fuel);
    }
  }

  lemma LastField(p: Ptr, to: Shape)
    requires p.Struct? && to.Fields? && to.pw > 0
    ensures var j := to.dw + to.pw - 1;
            IsPointer(to, j) && Source(ShapeOf(p), to, j) == p.dw + to.pw - 1
  {
  }

  lemma RowCount(to: Shape)
    requires to.Rows?
    ensures CellCount(to) == RowWords(to.count, to.dw + to.pw) == Place(to.count, 0, to.dw + to.pw)
  {
  }

  lemma RowStart(to: Shape)
    requires to.Rows?
    ensures Place(0, 0, to.dw + to.pw) == 0
  {
  }

  lemma CompositeDone(ws: seq<Word>, slot: nat, to: Shape, cells: seq<Cell>)
    requires slot < |ws| && to.Rows? && |cells| == CellCount(to)
    ensures ws[slot := MakeList(|ws| - slot - 1, SZ_COMPOSITE, CellCount(to))] + [MakeStruct(to.count, to.dw, to.pw)]
              + Partial(CellCount(to), cells)
         == Placed(ws, slot, Node(to, cells))
  {
    hide Partial, Placed, MakeList, MakeStruct, RowWords;
    BuildDone(ws, slot, to, cells);
  }

  lemma ElemsDone(ws: seq<Word>, slot: nat, to: Shape, cells: seq<Cell>)
    requires slot < |ws| && to.Elems? && |cells| == CellCount(to)
    ensures ws[slot := MakeList(if |cells| == 0 then 0 else |ws| - slot - 1, to.esize, to.count)] + Partial(CellCount(to), cells)
         == Placed(ws, slot, Node(to, cells))
  {
    hide Partial, Placed, MakeList, CellCount;
    var w := MakeList(if |cells| == 0 then 0 else |ws| - slot - 1, to.esize, to.count);
    BuildDone(ws, slot, to, cells);
    assert ws[slot := w] + [] == ws[slot := w];
  }

  lemma CompositeOutcome(segs: Segs, p: Ptr, to: Shape, cells: seq<Cell>, fuel: nat, before: nat, mid: nat, rc: Code, after: nat)
    requires p.List? && p.esize == SZ_COMPOSITE && to.Rows? && to.count == p.count
    requires to.dw == MaxWords(segs, p, p.count) && to.pw <= p.pw && after <= mid <= before
    requires if RowsTrimCost(segs, p, p.count) <= before
             then to.pw == MaxSlots(segs, p, p.count) && mid == before - RowsTrimCost(segs, p, p.count)
             else RanOut(segs, p, p.count, to.pw, mid)
    requires if rc == OK
             then Matches(segs, p, to, cells, fuel) && |cells| == CellCount(to)
                  && CellsCost(segs, p, to, CellCount(to), fuel) == mid - after
             else Stuck(segs, p, to, 0, CellCount(to), fuel, mid)
    ensures rc == OK <==> Copyable(segs, p, fuel + 1, before)
    ensures rc == OK ==>
              && after == before - CopyCost(segs, p, fuel + 1)
              && Trim(Read(segs, p, fuel + 1).value) == Node(to, cells)
  {
    hide MaxWords, MaxSlots, RowsTrimCost, Matches, CellsCost, Read, CopyCost, Stuck, Trim, LookAt, Source,
         IsPointer, CellCount, Place;
    CostOf(segs, p, fuel);
    if RowsTrimCost(segs, p, p.count) <= before {
      assert to == TargetShape(segs, p);
      if rc == OK {
        Finished(segs, p, to, cells, fuel);
      } else {
        Refused(segs, p, fuel, before);
      }
    } else {
      var i: nat, k: nat :| i < p.count && k < to.pw && SlotCostsMore(segs, p, i, k, mid);
      SourceRow(ShapeOf(p), to, i, to.dw + k);
      PlaceStep(i, 0, p.dw + k, p.dw + p.pw);
      CostAtLeast(segs, p, to, Place(i, to.dw + k, to.dw + to.pw), fuel);
    }
  }

  lemma ElemsOutcome(segs: Segs, p: Ptr, cells: seq<Cell>, fuel: nat, before: nat, rc: Code, after: nat)
    requires p.List? && p.esize != SZ_COMPOSITE && after <= before
    requires var to := ShapeOf(p);
             if rc == OK
             then Matches(segs, p, to, cells, fuel) && |cells| == CellCount(to)
                  && CellsCost(segs, p, to, CellCount(to), fuel) == before - after
             else Stuck(segs, p, to, 0, CellCount(to), fuel, before)
    ensures rc == OK <==> Copyable(segs, p, fuel + 1, before)
    ensures rc == OK ==>
              && after == before - CopyCost(segs, p, fuel + 1)
              && Trim(Read(segs, p, fuel + 1).value) == Node(ShapeOf(p), cells)
  {
    hide Matches, CellsCost, Read, CopyCost, Stuck, Trim, CellCount;
    CostOf(segs, p, fuel);
    if rc == OK {
      Finished(segs, p, ShapeOf(p), cells, fuel);
    } else {
      Refused(segs, p, fuel, before);
    }
  }

  /** Storing the next word of plain elements. */
  lemma PlainDone(segs: Segs, p: Ptr, pre: seq<Word>, done: seq<Cell>, w: Word, fuel: nat)
    requires p.List? && p.esize < SZ_PTR && |done| < CellCount(ShapeOf(p))
    requires Matches(segs, p, ShapeOf(p), done, fuel) && w == DataAt(segs, p, |done|)
    ensures var to := ShapeOf(p);
            && (pre + Partial(CellCount(to), done))[|pre| + |done| := w] == pre + Partial(CellCount(to), done + [W(w)])
            && Matches(segs, p, to, done + [W(w)], fuel)
            && CellsCost(segs, p, to, |done| + 1, fuel) == CellsCost(segs, p, to, |done|, fuel)
  {
    hide Matches, Partial, CellsCost, DataAt, CellCount, CellMatches;
    StoreData(pre, CellCount(ShapeOf(p)), done, w);
    MatchData(segs, p, ShapeOf(p), |done|, fuel);
    MatchMore(segs, p, ShapeOf(p), done, W(w), fuel);
  }

  // ---- sizing ---------------------------------------------------------------------------

  /** trimmed_dwords */
  method TrimmedDwords(m: Message, p: Ptr) returns (nd: nat)
    requires p.Struct? && DataInside(m.segs, p)
    ensures nd == WordsUsed(m.segs, p.seg, p.word, p.dw)
  {
    nd := p.dw;
    while nd > 0
      invariant nd <= p.dw && WordsUsed(m.segs, p.seg, p.word, p.dw) == WordsUsed(m.segs, p.seg, p.word, nd)
    {
      var w := GetU64(m, p, nd - 1);
      if w != 0 {
        break;
      }
      nd := nd - 1;
    }
  }

  /** capnp_get_u64 of data word i, defaulting to zero. */
  method GetU64(m: Message, p: Ptr, i: nat) returns (w: Word)
    requires p.Struct? && DataInside(m.segs, p)
    ensures w == if i < p.dw then At(m.segs, p.seg, p.word + i) else 0
  {
    if i >= p.dw {
      return 0;
    }
    assert !IsPointer(ShapeOf(p), i);
    return m.segs[p.seg][p.word + i];
  }

  /** trimmed_pwords. If the budget runs out, the slot it ran out at is kept, so
      that copying it fails in turn. */
  method TrimmedPwords(m: Message, p: Ptr) returns (np: nat)
    requires p.Struct?
    modifies m
    ensures np <= p.pw && m.left <= old(m.left)
    ensures var at := p.word + p.dw;
            if TrimCost(m.segs, p.seg, at, p.pw) <= old(m.left)
            then np == SlotsUsed(m.segs, p.seg, at, p.pw) && m.left == old(m.left) - TrimCost(m.segs, p.seg, at, p.pw)
            else np > 0 && LookAt(m.segs, p.seg, at + np - 1).cost > m.left
  {
    hide LookAt;
    np := p.pw;
    ghost var at := p.word + p.dw;
    while np > 0
      invariant np <= p.pw && m.left <= old(m.left)
      invariant SlotsUsed(m.segs, p.seg, at, p.pw) == SlotsUsed(m.segs, p.seg, at, np)
      invariant old(m.left) - m.left == TrimCost(m.segs, p.seg, at, p.pw) - TrimCost(m.segs, p.seg, at, np)
    {
      var rc, q := m.Getp(p, np - 1);
      if rc != OK {
        break;
      }
      if !q.Null? {
        break;
      }
      assert LookField(m.segs, p, np - 1) == LookAt(m.segs, p.seg, at + np - 1);
      assert SlotNull(m.segs, p.seg, at + np - 1);
      assert SlotsUsed(m.segs, p.seg, at, np) == SlotsUsed(m.segs, p.seg, at, np - 1);
      np := np - 1;
    }
  }

  /** The slot at which sizing the first `rows` rows ran out of budget. */
  ghost predicate RanOut(segs: Segs, p: Ptr, rows: nat, np: nat, left: nat)
    requires p.List?
  {
    exists i: nat, k: nat :: i < rows && k < np && SlotCostsMore(segs, p, i, k, left)
  }

  ghost predicate SlotCostsMore(segs: Segs, p: Ptr, i: nat, k: nat, left: nat)
    requires p.List?
  {
    LookAt(segs, p.seg, RowAt(p, i) + p.dw + k).cost > left
  }

  /** composite_trim */
  method CompositeTrim(m: Message, list: Ptr) returns (nd: nat, np: nat)
    requires list.List? && list.esize == SZ_COMPOSITE && DataInside(m.segs, list)
    modifies m
    ensures nd == MaxWords(m.segs, list, list.count) && np <= list.pw && m.left <= old(m.left)
    ensures if RowsTrimCost(m.segs, list, list.count) <= old(m.left)
            then np == MaxSlots(m.segs, list, list.count) && m.left == old(m.left) - RowsTrimCost(m.segs, list, list.count)
            else RanOut(m.segs, list, list.count, np, m.left)
  {
    hide LookAt, WordsUsed, SlotsUsed, TrimCost, DataInside, Place;
    nd, np := 0, 0;
    for i := 0 to list.count
      invariant nd == MaxWords(m.segs, list, i) && np <= list.pw && m.left <= old(m.left)
      invariant if RowsTrimCost(m.segs, list, i) <= old(m.left)
                then np == MaxSlots(m.segs, list, i) && m.left == old(m.left) - RowsTrimCost(m.segs, list, i)
                else RanOut(m.segs, list, i, np, m.left)
    {
      var rc, el := m.ListGetp(list, i);
      assert rc == OK && el == Element(list, i);
      RowInside(m.segs, list, i);
      ghost var before, np0 := m.left, np;
      var td := TrimmedDwords(m, el);
      var tp := TrimmedPwords(m, el);
      if td > nd {
        nd := td;
      }
      if tp > np {
        np := tp;
      }
      if RowsTrimCost(m.segs, list, i) > old(m.left) {
        RanOutStill(m.segs, list, i, np0, before, i + 1, np, m.left);
      } else if RowsTrimCost(m.segs, list, i + 1) > old(m.left) {
        assert SlotCostsMore(m.segs, list, i, tp - 1, m.left);
      }
    }
  }

  lemma RanOutStill(segs: Segs, p: Ptr, rows: nat, np: nat, left: nat, rows': nat, np': nat, left': nat)
    requires p.List? && RanOut(segs, p, rows, np, left)
    requires rows <= rows' && np <= np' && left' <= left
    ensures RanOut(segs, p, rows', np', left')
  {
    hide LookAt, RowAt;
    var i: nat, k: nat :| i < rows && k < np && SlotCostsMore(segs, p, i, k, left);
    assert SlotCostsMore(segs, p, i, k, left');
  }

  /** The data of a row lies inside the message when that of the list does. */
  lemma RowInside(segs: Segs, list: Ptr, i: nat)
    requires list.List? && list.esize == SZ_COMPOSITE && i < list.count && DataInside(segs, list)
    ensures DataInside(segs, Element(list, i))
  {
    hide InBounds, Place;
    var el, m := Element(list, i), list.dw + list.pw;
    RowBounds(i, list.count, list.dw, list.pw);
    forall j | 0 <= j < CellCount(ShapeOf(el)) && !IsPointer(ShapeOf(el), j)
      ensures InBounds(segs, el.seg, el.word + j)
    {
      PlaceStep(i, 0, j, m);
      DivMod(i, j, m);
      assert !IsPointer(ShapeOf(list), Place(i, j, m));
    }
  }

  // ---- the entry point ----------------------------------------------------------------------

  /** What canonicalizing a message comes to. */
  function CanonicalCode(segs: Segs): Code
  {
    var l := LookRoot(segs);
    if l.Bad? || l.cost > TRAVERSAL_WORDS then ErrKind
    else if Copyable(segs, l.ptr, Fuel(0), TRAVERSAL_WORDS - l.cost) then OK
    else ErrAlloc
  }

  /** The value of a message, from its root. */
  function Value(segs: Segs): Option<Tree>
  {
    var l := LookRoot(segs);
    if l.Bad? then None else Read(segs, l.ptr, Fuel(0))
  }

  /** The data words a message leads to lie inside it. */
  predicate MessageSound(segs: Segs)
  {
    var l := LookRoot(segs);
    l.Found? ==> Sound(segs, l.ptr, Fuel(0))
  }

  /** capnp_canonicalize: the canonical words of the message are the encoding of
      the normal form of its value. */
  method Canonicalize(segs: Segs) returns (rc: Code, out: seq<Word>)
    requires MessageSound(segs)
    ensures rc == CanonicalCode(segs)
    ensures rc == OK ==> Value(segs).Some? && out == Encode(Trim(Value(segs).value))
    ensures rc != OK ==> out == []
  {
    hide Sound, Read, CopyCost, LookAt, Trim, Placed, LookRoot;
    var mut := new Message(segs);
    var root;
    rc, root := mut.Root();
    if rc != OK {
      return ErrKind, [];
    }
    var b := new Output(FIRST_WORDS);
    var rootWord := b.AllocLocal(1);
    RootFits(segs);
    rc := b.CopyPtrToWord(mut, rootWord, root, 0);
    if rc != OK {
      return ErrAlloc, [];
    }
    EncodePlaced(Trim(Read(segs, root, Fuel(0)).value));
    out := b.data[..b.words];
  }

  lemma RootFits(segs: Segs)
    ensures var l := LookRoot(segs); l.Found? ==> PtrFits(l.ptr)
  {
    hide LookAt, PtrFits;
    LookFits(segs, 0, 0);
  }

  lemma EncodePlaced(t: Tree)
    ensures Placed([] + ZeroWords(1), 0, t) == Encode(t)
  {
    hide PointerTo, Body, Size;
    assert ([] + ZeroWords(1))[0 := PointerTo(t, 0)] == [PointerTo(t, 0)];
  }
}
