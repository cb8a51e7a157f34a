/** Reading pointers out of a message: capnp_message.c.

    `Look` says what a pointer word leads to and how much of the traversal budget
    following it costs; the methods of class Message follow pointers while spending
    that budget. */
module Message {
  import opened Arith
  import opened Bytes
  import opened WirePointer

  type Segs = seq<seq<Word>>

  /** capnp_ptr_t: a resolved object, never a landing pad. `word` may be negative where
      the code lets a size_t wrap around. */
  datatype Ptr =
    | Null
    | Struct(seg: nat, word: int, dw: nat, pw: nat)
    | List(seg: nat, word: int, esize: nat, count: nat, dw: nat, pw: nat)
    | Cap(index: nat)

  /** A failure, after charging `cost` words; or an object, at a total charge of `cost`. */
  datatype Look = Bad(code: Code, cost: nat) | Found(ptr: Ptr, cost: nat)

  const DEPTH_LIMIT := 64
  const TRAVERSAL_WORDS := 8388608
  const MAX_SEGMENTS := 16

  predicate InBounds(segs: Segs, seg: nat, word: int)
  {
    seg < |segs| && 0 <= word < |segs[seg]|
  }

  function ListBits(esize: nat, count: nat): nat
  {
    if esize == SZ_VOID then 0
    else if esize == SZ_BIT then count
    else if esize == SZ_BYTE then 8 * count
    else if esize == SZ_TWO then 16 * count
    else if esize == SZ_FOUR then 32 * count
    else 64 * count
  }

  /** Words taken by a list that is not composite. */
  function ListWords(esize: nat, count: nat): (words: nat)
  {
    (ListBits(esize, count) + 63) / 64
  }

  function Plus(cost: nat, l: Look): Look
  {
    l.(cost := l.cost + cost)
  }

  // ---- where a pointer word leads -------------------------------------------

  function LookStruct(segs: Segs, seg: nat, word: int, w: Word): Look
  {
    var body, dw, pw := word + 1 + Offset(w), StructDwords(w), StructPwords(w);
    if dw + pw > 0 && !(InBounds(segs, seg, body) && InBounds(segs, seg, body + dw + pw - 1)) then Bad(ErrBounds, 0)
    else Found(Struct(seg, body, dw, pw), dw + pw)
  }

  function LookList(segs: Segs, seg: nat, word: int, w: Word): Look
  {
    var start, esize, count := word + 1 + Offset(w), ListEsize(w), ListCount(w);
    if esize == SZ_COMPOSITE then
      if !InBounds(segs, seg, start) then Bad(ErrBounds, 0)
      else
        var list := Composite(segs, seg, start);
        var need := RowWords(list.count, list.dw + list.pw);
        if need > 0 && !InBounds(segs, seg, start + need) then Bad(ErrBounds, 1)
        else Found(list, 1 + need)
    else
      var words := ListWords(esize, count);
      if words > 0 && !InBounds(segs, seg, start + words - 1) then Bad(ErrBounds, 0)
      else Found(List(seg, start, esize, count, 0, 0), words)
  }

  /** The composite list whose tag is at `start`. */
  function Composite(segs: Segs, seg: nat, start: int): (list: Ptr)
    requires InBounds(segs, seg, start)
    ensures list.List?
  {
    var tag := segs[seg][start];
    List(seg, start + 1, SZ_COMPOSITE, TagCount(tag), StructDwords(tag), StructPwords(tag))
  }

  /** A double-far pointer: a pad of two words, a far pointer to the content and a tag.
      The content of a list other than a composite one is neither checked nor charged. */
  function LookDoubleFar(segs: Segs, tseg: nat, toff: nat): Look
  {
    if !(InBounds(segs, tseg, toff) && InBounds(segs, tseg, toff + 1)) then Bad(ErrBounds, 0)
    else
      var pad, tag := segs[tseg][toff], segs[tseg][toff + 1];
      if Kind(pad) != KIND_FAR || FarTwo(pad) then Bad(ErrKind, 2)
      else
        var cseg, coff := FarSeg(pad), FarOff(pad);
        if Kind(tag) == KIND_STRUCT then
          Found(Struct(cseg, coff, StructDwords(tag), StructPwords(tag)), 2 + StructDwords(tag) + StructPwords(tag))
        else if Kind(tag) != KIND_LIST then Bad(ErrKind, 2)
        else if ListEsize(tag) != SZ_COMPOSITE then
          Found(List(cseg, coff, ListEsize(tag), ListCount(tag), 0, 0), 2)
        else if !InBounds(segs, cseg, coff) then Bad(ErrBounds, 2)
        else
          var list := Composite(segs, cseg, coff);
          Found(list, 3 + RowWords(list.count, list.dw + list.pw))
  }

  function LookWord(segs: Segs, seg: nat, word: int, w: Word, depth: nat): Look
    decreases depth
  {
    if depth == 0 then Bad(ErrDepth, 0)
    else if w == 0 then Found(Null, 0)
    else if Kind(w) == KIND_FAR then
      if FarTwo(w) then LookDoubleFar(segs, FarSeg(w), FarOff(w))
      else if !InBounds(segs, FarSeg(w), FarOff(w)) then Bad(ErrBounds, 0)
      else Plus(1, LookWord(segs, FarSeg(w), FarOff(w), segs[FarSeg(w)][FarOff(w)], depth - 1))
    else if Kind(w) == KIND_STRUCT then LookStruct(segs, seg, word, w)
    else if Kind(w) == KIND_LIST then LookList(segs, seg, word, w)
    else Found(Cap(CapIndex(w)), 0)
  }

  /** What the pointer slot at (seg, word) leads to. */
  function LookAt(segs: Segs, seg: nat, word: int): Look
  {
    if !InBounds(segs, seg, word) then Bad(ErrBounds, 0)
    else Plus(1, LookWord(segs, seg, word, segs[seg][word], DEPTH_LIMIT))
  }

  // ---- following pointers on a budget -----------------------------------------

  /** Following a pointer has the outcome `l`, unless the budget does not cover its cost. */
  predicate Follows(l: Look, before: nat, rc: Code, out: Ptr, after: nat)
  {
    if l.cost > before then rc == ErrTraversal && after <= before
    else if l.Found? then rc == OK && out == l.ptr && after == before - l.cost
    else rc == l.code && rc != OK && after == before - l.cost
  }

  /** What a failed charge leaves of a budget that `words` have been charged to already, or
      all of it if they were not covered themselves. */
  function After(before: nat, words: nat): (left: nat)
  {
    if words <= before then before - words else before
  }

  /** What is left of a budget that ran out on the way of LookList. */
  function StoppedList(w: Word, before: nat): (left: nat)
  {
    if ListEsize(w) == SZ_COMPOSITE then After(before, 1) else before
  }

  /** Of LookWord: a charge that is refused takes nothing, those before it were taken. */
  function StoppedWord(segs: Segs, w: Word, depth: nat, before: nat): (left: nat)
    decreases depth
  {
    if depth == 0 then before
    else if Kind(w) == KIND_LIST then StoppedList(w, before)
    else if Kind(w) != KIND_FAR then before
    else if FarTwo(w) then After(before, 2)
    else if before == 0 || !InBounds(segs, FarSeg(w), FarOff(w)) then before
    else StoppedWord(segs, segs[FarSeg(w)][FarOff(w)], depth - 1, before - 1)
  }

  /** Of LookAt. */
  function StoppedAt(segs: Segs, seg: nat, word: int, before: nat): (left: nat)
  {
    if before == 0 || !InBounds(segs, seg, word) then before
    else StoppedWord(segs, segs[seg][word], DEPTH_LIMIT, before - 1)
  }

  class Message {
    const segs: Segs
    var left: nat  // traversal_left

    constructor (segs: Segs)
      ensures this.segs == segs && left == TRAVERSAL_WORDS
    {
      this.segs := segs;
      left := TRAVERSAL_WORDS;
    }

    method Charge(words: nat) returns (rc: Code)
      modifies this
      ensures rc == if words <= old(left) then OK else ErrTraversal
      ensures left == if words <= old(left) then old(left) - words else old(left)
    {
      if words > left {
        return ErrTraversal;
      }
      left := left - words;
      return OK;
    }

    method BoundsWord(seg: nat, word: int) returns (rc: Code)
      ensures rc == if InBounds(segs, seg, word) then OK else if seg >= |segs| then ErrSegment else ErrBounds
    {
      if seg >= |segs| {
        return ErrSegment;
      }
      return if 0 <= word < |segs[seg]| then OK else ErrBounds;
    }

    /** resolve_word */
    method ResolveWord(seg: nat, word: int, w: Word, depth: nat) returns (rc: Code, out: Ptr)
      modifies this
      ensures Follows(LookWord(segs, seg, word, w, depth), old(left), rc, out, left)
      ensures rc == ErrTraversal ==> left == StoppedWord(segs, w, depth, old(left))
      decreases depth
    {
      hide Kind, Offset, StructDwords, StructPwords, FarTwo, FarOff, FarSeg, CapIndex, LookList, LookDoubleFar;
      out := Null;
      if depth == 0 {
        return ErrDepth, out;
      }
      if w == 0 {
        return OK, Null;
      }
      if Kind(w) == KIND_FAR {
        var tseg, toff := FarSeg(w), FarOff(w);
        if FarTwo(w) {
          rc, out := ResolveDoubleFar(tseg, toff);
          return;
        }
        rc := BoundsWord(tseg, toff);
        if rc != OK {
          return ErrBounds, out;
        }
        rc := Charge(1);
        if rc != OK {
          return ErrTraversal, out;
        }
        var land := segs[tseg][toff];
        rc, out := ResolveWord(tseg, toff, land, depth - 1);
        return;
      }
      if Kind(w) == KIND_STRUCT {
        var body := word + 1 + Offset(w);
        out := Struct(seg, body, StructDwords(w), StructPwords(w));
        if out.dw > 0 || out.pw > 0 {
          var end := body + out.dw + out.pw;
          var low := BoundsWord(seg, body);
          var high := BoundsWord(seg, end - 1);
          if low != OK || high != OK {
            return ErrBounds, out;
          }
        }
        rc := Charge(out.dw + out.pw);
        return;
      }
      if Kind(w) == KIND_LIST {
        rc, out := ResolveList(seg, word, w);
        return;
      }
      return OK, Cap(CapIndex(w));
    }

    method ResolveList(seg: nat, word: int, w: Word) returns (rc: Code, out: Ptr)
      modifies this
      ensures Follows(LookList(segs, seg, word, w), old(left), rc, out, left)
      ensures rc == ErrTraversal ==> left == StoppedList(w, old(left))
    {
      hide RowWords, ListBits, Kind, Offset, StructDwords, StructPwords, ListEsize, ListCount, TagCount;
      var start := word + 1 + Offset(w);
      out := List(seg, start, ListEsize(w), ListCount(w), 0, 0);
      if out.esize == SZ_COMPOSITE {
        rc := BoundsWord(seg, start);
        if rc != OK {
          return ErrBounds, out;
        }
        rc := Charge(1);
        if rc != OK {
          return ErrTraversal, out;
        }
        var tag := segs[seg][start];
        out := List(seg, start + 1, SZ_COMPOSITE, TagCount(tag), StructDwords(tag), StructPwords(tag));
        var need := RowWords(out.count, out.dw + out.pw);
        if need > 0 {
          rc := BoundsWord(seg, out.word + need - 1);
          if rc != OK {
            return ErrBounds, out;
          }
        }
        rc := Charge(need);
        return;
      }
      var words := (ListBits(out.esize, out.count) + 63) / 64;
      if words > 0 {
        rc := BoundsWord(seg, start + words - 1);
        if rc != OK {
          return ErrBounds, out;
        }
      }
      rc := Charge(words);
    }

    method ResolveDoubleFar(tseg: nat, toff: nat) returns (rc: Code, out: Ptr)
      modifies this
      ensures Follows(LookDoubleFar(segs, tseg, toff), old(left), rc, out, left)
      ensures rc == ErrTraversal ==> left == After(old(left), 2)
    {
      hide RowWords, Kind, StructDwords, StructPwords, ListEsize, ListCount, FarTwo, FarOff, FarSeg, TagCount;
      out := Null;
      var low := BoundsWord(tseg, toff);
      var high := BoundsWord(tseg, toff + 1);
      if low != OK || high != OK {
        return ErrBounds, out;
      }
      rc := Charge(2);
      if rc != OK {
        return ErrTraversal, out;
      }
      var pad, tag := segs[tseg][toff], segs[tseg][toff + 1];
      if Kind(pad) != KIND_FAR || FarTwo(pad) {
        return ErrKind, out;
      }
      var cseg, coff := FarSeg(pad), FarOff(pad);
      if Kind(tag) == KIND_STRUCT {
        out := Struct(cseg, coff, StructDwords(tag), StructPwords(tag));
        rc := Charge(out.dw + out.pw);
        return;
      }
      if Kind(tag) != KIND_LIST {
        return ErrKind, out;
      }
      out := List(cseg, coff, ListEsize(tag), ListCount(tag), 0, 0);
      if out.esize == SZ_COMPOSITE {
        rc := BoundsWord(cseg, coff);
        if rc != OK {
          return ErrBounds, out;
        }
        var t := segs[cseg][coff];
        out := List(cseg, coff + 1, SZ_COMPOSITE, TagCount(t), StructDwords(t), StructPwords(t));
        rc := Charge(1 + RowWords(out.count, out.dw + out.pw));
        return;
      }
      return OK, out;
    }

    /** resolve_ptr */
    method ResolvePtr(seg: nat, word: int) returns (rc: Code, out: Ptr)
      modifies this
      ensures Follows(LookAt(segs, seg, word), old(left), rc, out, left)
      ensures rc == ErrTraversal ==> left == StoppedAt(segs, seg, word, old(left))
    {
      hide LookWord;
      out := Null;
      rc := BoundsWord(seg, word);
      if rc != OK {
        return ErrBounds, out;
      }
      rc := Charge(1);
      if rc != OK {
        return ErrTraversal, out;
      }
      rc, out := ResolveWord(seg, word, segs[seg][word], DEPTH_LIMIT);
    }

    /** capnp_root */
    method Root() returns (rc: Code, out: Ptr)
      modifies this
      ensures Follows(LookRoot(segs), old(left), rc, out, left)
      ensures rc == ErrTraversal ==> left == StoppedAt(segs, 0, 0, old(left))
    {
      if |segs| == 0 {
        return ErrArg, Null;
      }
      rc, out := ResolvePtr(0, 0);
    }

    /** capnp_getp */
    method Getp(s: Ptr, index: nat) returns (rc: Code, out: Ptr)
      modifies this
      ensures Follows(LookField(segs, s, index), old(left), rc, out, left)
      ensures rc == ErrTraversal ==> s.Struct? && left == StoppedAt(segs, s.seg, s.word + s.dw + index, old(left))
    {
      if !s.Struct? {
        return ErrKind, Null;
      }
      if index >= s.pw {
        return OK, Null;
      }
      rc, out := ResolvePtr(s.seg, s.word + s.dw + index);
    }

    /** capnp_list_getp */
    method ListGetp(list: Ptr, index: nat) returns (rc: Code, out: Ptr)
      modifies this
      ensures Follows(LookElement(segs, list, index), old(left), rc, out, left)
      ensures rc == ErrTraversal ==> list.List? && left == StoppedAt(segs, list.seg, list.word + index, old(left))
    {
      if !list.List? {
        return ErrKind, Null;
      }
      if index >= list.count {
        return ErrBounds, Null;
      }
      if list.esize == SZ_PTR {
        rc, out := ResolvePtr(list.seg, list.word + index);
        return;
      }
      if list.esize == SZ_COMPOSITE {
        return OK, Struct(list.seg, list.word + Place(index, 0, list.dw + list.pw), list.dw, list.pw);
      }
      return ErrKind, Null;
    }
  }

  function LookRoot(segs: Segs): Look
  {
    if |segs| == 0 then Bad(ErrArg, 0) else LookAt(segs, 0, 0)
  }

  /** What pointer field `index` of a struct leads to. */
  function LookField(segs: Segs, s: Ptr, index: nat): Look
  {
    if !s.Struct? then Bad(ErrKind, 0)
    else if index >= s.pw then Found(Null, 0)
    else LookAt(segs, s.seg, s.word + s.dw + index)
  }

  function LookElement(segs: Segs, list: Ptr, index: nat): Look
  {
    if !list.List? then Bad(ErrKind, 0)
    else if index >= list.count then Bad(ErrBounds, 0)
    else if list.esize == SZ_PTR then LookAt(segs, list.seg, list.word + index)
    else if list.esize == SZ_COMPOSITE then Found(Element(list, index), 0)
    else Bad(ErrKind, 0)
  }

  /** Element `index` of a composite list. */
  function Element(list: Ptr, index: nat): Ptr
    requires list.List?
  {
    Struct(list.seg, list.word + Place(index, 0, list.dw + list.pw), list.dw, list.pw)
  }
}
