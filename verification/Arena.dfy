/** The multi-segment arena of capnp_builder.c and the pointers written into it. */
module Arena {
  import opened Bytes
  import opened WirePointer
  import opened Message
  import opened Frames
  import opened Targets
  import opened SegmentSizes

  const MAX_SEGMENT_WORDS := TWO_29

  /** capnp_bseg_t: `data` up to its capacity, of which `words` are used. */
  datatype Seg = Seg(data: seq<Word>, words: nat)

  /** A segment keeps zeros past the words in use. */
  predicate SegOk(s: Seg)
  {
    && s.words <= |s.data| <= MAX_SEGMENT_WORDS
    && forall i :: s.words <= i < |s.data| ==> s.data[i] == 0
  }

  function Used(s: Seg): (ws: seq<Word>)
  {
    if s.words <= |s.data| then s.data[..s.words] else s.data
  }

  /** The words in use of each segment. */
  function View(segs: seq<Seg>): (v: Segs)
    ensures |v| == |segs|
    ensures forall i :: 0 <= i < |segs| ==> v[i] == Used(segs[i])
  {
    seq(|segs|, i requires 0 <= i < |segs| => Used(segs[i]))
  }

  /** A message with one more block of n zero words at the end of a segment. */
  function Appended(v: Segs, seg: nat, n: nat): Segs
    requires seg < |v|
  {
    v[seg := v[seg] + ZeroWords(n)]
  }

  function Stored(v: Segs, seg: nat, word: int, w: Word): Segs
    requires InBounds(v, seg, word)
  {
    var row: seq<Word> := v[seg][word := w];
    v[seg := row]
  }

  /** n zero words were put at (seg, at): at the end of a segment, or alone in a new one. */
  predicate Allocated(v: Segs, v': Segs, seg: nat, at: nat, n: nat)
  {
    || (seg < |v| && at == |v[seg]| && v' == Appended(v, seg, n))
    || (seg == |v| && at == 0 && v' == v + [ZeroWords(n)])
  }

  /** An allocation leaves every earlier word alone, and what it hands out is zero. */
  lemma AllocatedKeeps(v: Segs, v': Segs, seg: nat, at: nat, n: nat)
    requires Allocated(v, v', seg, at, n)
    ensures SameExcept(v, v', {})
    ensures seg < |v'| && at + n == |v'[seg]| && v'[seg][at..] == ZeroWords(n)
    ensures forall k :: at <= k < at + n ==> !InBounds(v, seg, k)
  {
    forall l: Loc | l !in {}
      ensures SameAt(v, v', l)
    {
    }
  }

  lemma AppendEmpty(v: Segs, n: nat)
    ensures Appended(v + [[]], |v|, n) == v + [ZeroWords(n)]
  {
    assert [] + ZeroWords(n) == ZeroWords(n);
  }

  /** A store changes one word. */
  lemma StoredKeeps(v: Segs, seg: nat, word: int, w: Word)
    requires InBounds(v, seg, word)
    ensures SameExcept(v, Stored(v, seg, word, w), {Loc(seg, word)})
    ensures InBounds(Stored(v, seg, word, w), seg, word) && Stored(v, seg, word, w)[seg][word] == w
  {
    var v' := Stored(v, seg, word, w);
    forall l: Loc | l !in {Loc(seg, word)}
      ensures SameAt(v, v', l)
    {
    }
  }

  function StoredRun(v: Segs, seg: nat, at: nat, ws: seq<Word>): Segs
    requires seg < |v| && at + |ws| <= |v[seg]|
  {
    v[seg := v[seg][..at] + ws + v[seg][at + |ws|..]]
  }

  lemma RunNone(v: Segs, seg: nat, at: nat)
    requires seg < |v| && at <= |v[seg]|
    ensures StoredRun(v, seg, at, []) == v
  {
    assert v[seg][..at] + [] + v[seg][at..] == v[seg];
  }

  lemma RunNext(v: Segs, seg: nat, at: nat, ws: seq<Word>, i: nat)
    requires seg < |v| && at + |ws| <= |v[seg]| && i < |ws|
    ensures InBounds(StoredRun(v, seg, at, ws[..i]), seg, at + i)
    ensures Stored(StoredRun(v, seg, at, ws[..i]), seg, at + i, ws[i]) == StoredRun(v, seg, at, ws[..i + 1])
  {
    var a, b := StoredRun(v, seg, at, ws[..i]), StoredRun(v, seg, at, ws[..i + 1]);
    var row: seq<Word> := a[seg][at + i := ws[i]];
    assert row == b[seg];
  }

  /** The sizes of the segments. */
  function SizesOf(segs: seq<Seg>): (z: seq<Size>)
    ensures |z| == |segs|
    ensures forall i :: 0 <= i < |segs| ==> z[i] == Size(|segs[i].data|, segs[i].words)
  {
    seq(|segs|, i requires 0 <= i < |segs| => Size(|segs[i].data|, segs[i].words))
  }

  lemma AllocatedHere(v: Segs, seg: nat, n: nat)
    requires seg < |v|
    ensures Allocated(v, Appended(v, seg, n), seg, |v[seg]|, n)
  {
  }

  lemma AllocatedNext(v: Segs, n: nat)
    ensures Allocated(v, v + [ZeroWords(n)], |v|, 0, n)
  {
  }

  lemma LastUsed(segs: seq<Seg>, i: nat)
    requires i < |segs| && SegOk(segs[i])
    ensures |View(segs)| == |segs| && |View(segs)[i]| == segs[i].words
  {
  }

  /** The capacity a builder begins with. */
  function FirstCap(firstWords: nat): (n: nat)
    ensures 1 <= n <= MAX_SEGMENT_WORDS
  {
    if firstWords < 1 then 1 else if firstWords > MAX_SEGMENT_WORDS then MAX_SEGMENT_WORDS else firstWords
  }

  class Builder {
    var segs: seq<Seg>
    var maxSegWords: nat
    var forceSingle: bool

    ghost predicate Valid()
      reads this
    {
      0 < |segs| < TWO_32 && maxSegWords <= MAX_SEGMENT_WORDS && forall i :: 0 <= i < |segs| ==> SegOk(segs[i])
    }

    /** lim_words */
    function Lim(): (n: nat)
      reads this
    {
      if maxSegWords != 0 then maxSegWords else MAX_SEGMENT_WORDS
    }

    /** What decides the sizes of segments. */
    function Rules(): Policy
      reads this
    {
      Policy(Lim(), forceSingle)
    }

    /** capnp_builder_init_sized */
    constructor (firstWords: nat)
      ensures Valid() && View(segs) == [[]] && maxSegWords == 0 && !forceSingle
      ensures SizesOf(segs) == [Size(FirstCap(firstWords), 0)]
    {
      var cap := if firstWords < 1 then 1 else if firstWords > MAX_SEGMENT_WORDS then MAX_SEGMENT_WORDS else firstWords;
      segs := [Seg(ZeroWords(cap), 0)];
      maxSegWords := 0;
      forceSingle := false;
      assert Used(Seg(ZeroWords(cap), 0)) == [];
    }

    /** capnp_builder_set_max_seg_words */
    method SetMaxSegWords(n: nat)
      requires Valid() && n <= MAX_SEGMENT_WORDS
      modifies this`maxSegWords
      ensures Valid() && maxSegWords == n
    {
      maxSegWords := n;
    }

    /** seg_ensure: room for `need` words in a segment, by doubling up to the limit. */
    method SegEnsure(seg: nat, need: nat) returns (rc: Code)
      requires Valid()
      modifies this`segs
      ensures Valid() && View(segs) == View(old(segs))
      ensures rc == OK <==> seg < |old(segs)| && (need <= |old(segs)[seg].data| || need <= Lim())
      ensures rc == OK ==> need <= |segs[seg].data|
      ensures rc == OK ==>
                SizesOf(segs) == Bumped(SizesOf(old(segs)), seg, GrownCap(|old(segs)[seg].data|, need, Lim()), 0)
      ensures rc != OK ==> segs == old(segs)
    {
      if seg >= |segs| {
        return ErrSegment;
      }
      var s := segs[seg];
      if need <= |s.data| {
        return OK;
      }
      if need > Lim() {
        return ErrAlloc;
      }
      var ncap := if |s.data| > 0 then |s.data| * 2 else 16;
      while ncap < need
        invariant ncap > |s.data| && DoubledTo(ncap, need) == DoubledTo(Twice(|s.data|), need)
        decreases need - ncap
      {
        ncap := ncap * 2;
      }
      if ncap > Lim() {
        ncap := Lim();
      }
      if ncap < need {
        assert false;
      }
      segs := segs[seg := s.(data := s.data + ZeroWords(ncap - |s.data|))];
      assert Used(segs[seg]) == Used(s);
      return OK;
    }

    /** append_segment */
    method AppendSegment(capWords: nat) returns (rc: Code)
      requires Valid()
      modifies this`segs
      ensures Valid()
      ensures rc == OK <==> |old(segs)| + 1 < TWO_32
      ensures rc == OK ==> |segs| == |old(segs)| + 1 && segs[..|old(segs)|] == old(segs) && View(segs) == View(old(segs)) + [[]]
      ensures rc == OK ==>
                SizesOf(segs) == SizesOf(old(segs)) + [Size(if capWords < 1 then 1 else Min(capWords, Lim()), 0)]
      ensures rc != OK ==> segs == old(segs)
    {
      if |segs| + 1 >= TWO_32 {
        return ErrAlloc;
      }
      var cap := if capWords < 1 then 1 else if capWords > Lim() then Lim() else capWords;
      segs := segs + [Seg(ZeroWords(cap), 0)];
      assert Used(Seg(ZeroWords(cap), 0)) == [];
      return OK;
    }

    /** Use n more words of a segment that has room for them. */
    method Bump(seg: nat, n: nat) returns (at: nat)
      requires Valid() && seg < |segs| && segs[seg].words + n <= |segs[seg].data|
      modifies this`segs
      ensures Valid() && at == old(segs)[seg].words
      ensures View(segs) == Appended(View(old(segs)), seg, n)
      ensures SizesOf(segs) == Bumped(SizesOf(old(segs)), seg, |old(segs)[seg].data|, n)
    {
      at := segs[seg].words;
      var s := segs[seg].(words := at + n);
      assert Used(s) == Used(segs[seg]) + ZeroWords(n);
      segs := segs[seg := s];
      assert View(segs) == Appended(View(old(segs)), seg, n);
    }

    /** alloc_words: n words in the last segment, or in a new one when they do not fit it. */
    method AllocWords(n: nat) returns (rc: Code, seg: nat, at: nat)
      requires Valid()
      modifies this`segs
      ensures Valid()
      ensures rc == OK ==> Allocated(View(old(segs)), View(segs), seg, at, n)
      ensures rc == OK ==> Placed(SizesOf(segs), seg) == AllocSizes(SizesOf(old(segs)), n, Rules())
      ensures rc != OK ==> View(segs) == View(old(segs))
      ensures rc == OK <==> MayAlloc(SizesOf(old(segs)), n, Rules())
    {
      hide View, SegOk, Allocated, Appended, GrownCap, Bumped, AllocSizes, NextCap;
      seg, at := 0, 0;
      var lim := Lim();
      ghost var z, p := SizesOf(segs), Rules();
      if n > lim {
        return ErrAlloc, seg, at;
      }
      var last := segs[|segs| - 1];
      if last.words + n <= |last.data| && last.words + n <= lim {
        seg := |segs| - 1;
        at := Bump(seg, n);
        AllocatedHere(View(old(segs)), seg, n);
        LastUsed(old(segs), seg);
        SizesHere(z, n, p);
        return OK, seg, at;
      }
      if forceSingle {
        rc := SegEnsure(|segs| - 1, last.words + n);
        if rc != OK {
          return ErrAlloc, seg, at;
        }
        seg := |segs| - 1;
        SameUsed(old(segs), segs, seg);
        LastUsed(old(segs), seg);
        ghost var cap := GrownCap(|last.data|, last.words + n, lim);
        BumpedCap(z, seg, cap);
        at := Bump(seg, n);
        AllocatedHere(View(old(segs)), seg, n);
        BumpedTwice(z, seg, cap, n);
        SizesGrown(z, n, p);
        return OK, seg, at;
      }
      var ncap := if |last.data| > 0 then |last.data| * 2 else 16;
      if ncap < n {
        ncap := n;
      }
      if ncap > lim {
        ncap := lim;
      }
      if ncap < n {
        assert false;
      }
      rc, seg, at := AllocFresh(ncap, n);
      if rc != OK {
        return ErrAlloc, seg, at;
      }
      AllocatedNext(View(old(segs)), n);
      SizesNext(z, n, p, ncap);
    }

    /** n words at the start of a new segment. */
    method AllocFresh(capWords: nat, n: nat) returns (rc: Code, seg: nat, at: nat)
      requires Valid() && n <= capWords <= Lim()
      modifies this`segs
      ensures Valid()
      ensures rc == OK <==> |old(segs)| + 1 < TWO_32
      ensures rc == OK ==> seg == |old(segs)| && at == 0 && View(segs) == View(old(segs)) + [ZeroWords(n)]
      ensures rc == OK ==> SizesOf(segs) == SizesOf(old(segs)) + [Size(if capWords < 1 then 1 else capWords, n)]
      ensures rc != OK ==> segs == old(segs)
    {
      seg, at := 0, 0;
      ghost var v := View(segs);
      rc := AppendSegment(capWords);
      if rc != OK {
        return;
      }
      seg := |segs| - 1;
      assert View(segs)[seg] == [] && segs[seg].words == 0;
      at := Bump(seg, n);
      AppendEmpty(v, n);
    }

    /** alloc_in: n words at the end of a given segment, which grows up to the limit. */
    method AllocIn(seg: nat, n: nat) returns (rc: Code, at: nat)
      requires Valid()
      modifies this`segs
      ensures Valid()
      ensures rc == OK <==> seg < |old(segs)| && old(segs)[seg].words + n <= Lim()
      ensures rc == OK ==> at == |View(old(segs))[seg]| && View(segs) == Appended(View(old(segs)), seg, n)
      ensures rc == OK ==>
                var s := old(segs)[seg];
                SizesOf(segs) == Bumped(SizesOf(old(segs)), seg, GrownCap(|s.data|, s.words + n, Lim()), n)
      ensures rc != OK ==> segs == old(segs)
    {
      at := 0;
      if seg >= |segs| {
        return ErrArg, at;
      }
      if segs[seg].words + n > Lim() {
        return ErrAlloc, at;
      }
      rc := SegEnsure(seg, segs[seg].words + n);
      if rc != OK {
        return ErrAlloc, at;
      }
      SameUsed(old(segs), segs, seg);
      ghost var cap := GrownCap(|old(segs)[seg].data|, old(segs)[seg].words + n, Lim());
      at := Bump(seg, n);
      BumpedTwice(SizesOf(old(segs)), seg, cap, n);
      return OK, at;
    }

    /** alloc_pad_segment: a new segment of n words, even past a limit smaller than n. */
    method AllocPadSegment(n: nat) returns (rc: Code, seg: nat, at: nat)
      requires Valid() && n <= 2
      modifies this`segs, this`maxSegWords
      ensures Valid() && maxSegWords == old(maxSegWords)
      ensures rc == OK <==> |old(segs)| + 1 < TWO_32
      ensures rc == OK ==> seg == |old(segs)| && at == 0 && View(segs) == View(old(segs)) + [ZeroWords(if n < 1 then 1 else n)]
      ensures rc == OK ==> SizesOf(segs) == SizesOf(old(segs)) + [var need := if n < 1 then 1 else n; Size(need, need)]
      ensures rc != OK ==> View(segs) == View(old(segs))
    {
      seg, at := 0, 0;
      var saved := maxSegWords;
      var need := if n < 1 then 1 else n;
      if saved != 0 && saved < need {
        maxSegWords := need;
      }
      ghost var v := View(segs);
      rc := AppendSegment(need);
      maxSegWords := saved;
      if rc != OK {
        return ErrAlloc, seg, at;
      }
      seg := |segs| - 1;
      assert View(segs)[seg] == [] && segs[seg].words == 0;
      at := Bump(seg, need);
      AppendEmpty(v, need);
    }

    /** store_w */
    method StoreWord(seg: nat, word: nat, w: Word)
      requires Valid() && InBounds(View(segs), seg, word)
      modifies this`segs
      ensures Valid() && View(segs) == Stored(View(old(segs)), seg, word, w)
      ensures SizesOf(segs) == SizesOf(old(segs))
    {
      var s := segs[seg].(data := segs[seg].data[word := w]);
      assert Used(s) == Used(segs[seg])[word := w];
      segs := segs[seg := s];
      assert View(segs) == Stored(View(old(segs)), seg, word, w);
    }

    /** Words copied into a block, in order. */
    method StoreRun(seg: nat, at: nat, ws: seq<Word>)
      requires Valid() && seg < |segs| && at + |ws| <= |View(segs)[seg]|
      modifies this`segs
      ensures Valid() && View(segs) == StoredRun(View(old(segs)), seg, at, ws)
      ensures SizesOf(segs) == SizesOf(old(segs))
    {
      hide View, Used;
      ghost var v := View(segs);
      RunNone(v, seg, at);
      assert ws[..0] == [];
      for i := 0 to |ws|
        invariant Valid() && View(segs) == StoredRun(v, seg, at, ws[..i]) && SizesOf(segs) == SizesOf(old(segs))
      {
        RunNext(v, seg, at, ws, i);
        StoreWord(seg, at + i, ws[i]);
      }
      assert ws[..|ws|] == ws;
    }

    /** write_struct_ptr and write_list_ptr: make the slot lead to a body, by an offset
        when both are in one segment, through a pad beside the body when there is
        room for one, and through a pad in a new segment otherwise. */
    method StorePtr(slotSeg: nat, slotWord: nat, bodySeg: nat, bodyWord: nat, t: Target) returns (rc: Code)
      requires Valid() && InBounds(View(segs), slotSeg, slotWord) && bodySeg < |segs|
      modifies this`segs, this`maxSegWords
      ensures Valid() && maxSegWords == old(maxSegWords)
      ensures rc == OK <==> slotSeg == bodySeg || Room(old(segs), bodySeg, Lim()) || |old(segs)| + 1 < TWO_32
      ensures rc != OK ==> View(segs) == View(old(segs))
      ensures rc == OK ==> Wrote(View(old(segs)), View(segs), slotSeg, slotWord, bodySeg, bodyWord, t,
                                 Room(old(segs), bodySeg, Lim()))
      ensures rc == OK ==> SizesOf(segs) == LinkSizes(SizesOf(old(segs)), slotSeg, bodySeg, Lim())
    {
      hide Make, MakeFar, View, GrownCap;
      ghost var v := View(segs);
      if slotSeg == bodySeg {
        StoreWord(slotSeg, slotWord, Make(t, bodyWord - slotWord - 1));
        return OK;
      }
      var pad;
      rc, pad := AllocIn(bodySeg, 1);
      if rc == OK {
        StoreWord(bodySeg, pad, Make(t, bodyWord - pad - 1));
        StoreWord(slotSeg, slotWord, MakeFar(false, pad, bodySeg));
        return OK;
      }
      rc := StoreDoubleFar(slotSeg, slotWord, bodySeg, bodyWord, t);
    }

    method StoreDoubleFar(slotSeg: nat, slotWord: nat, bodySeg: nat, bodyWord: nat, t: Target) returns (rc: Code)
      requires Valid() && InBounds(View(segs), slotSeg, slotWord)
      modifies this`segs, this`maxSegWords
      ensures Valid() && maxSegWords == old(maxSegWords)
      ensures rc == OK <==> |old(segs)| + 1 < TWO_32
      ensures rc != OK ==> View(segs) == View(old(segs))
      ensures rc == OK ==> View(segs) == DoubleFarWritten(View(old(segs)), slotSeg, slotWord, bodySeg, bodyWord, t)
      ensures rc == OK ==> SizesOf(segs) == SizesOf(old(segs)) + [Size(2, 2)]
    {
      hide Make, MakeFar, View;
      var padSeg, padWord;
      rc, padSeg, padWord := AllocPadSegment(2);
      if rc != OK {
        return ErrAlloc;
      }
      StoreWord(padSeg, padWord, MakeFar(false, bodyWord, bodySeg));
      StoreWord(padSeg, padWord + 1, Make(t, 0));
      StoreWord(slotSeg, slotWord, MakeFar(true, padWord, padSeg));
      return OK;
    }

    /** The pointer written leads to its body, and nothing but the slot was overwritten. */
    method WritePtr(slotSeg: nat, slotWord: nat, bodySeg: nat, bodyWord: nat, t: Target) returns (rc: Code)
      requires Valid() && InBounds(View(segs), slotSeg, slotWord)
      requires BodyInside(View(segs), t, bodySeg, bodyWord) && (slotSeg == bodySeg || bodyWord < TWO_29)
      requires Loc(slotSeg, slotWord) !in TagOf(t, bodySeg, bodyWord)
      modifies this`segs, this`maxSegWords
      ensures Valid() && maxSegWords == old(maxSegWords)
      ensures |old(segs)| + 1 < TWO_32 || slotSeg == bodySeg ==> rc == OK
      ensures rc != OK ==> View(segs) == View(old(segs))
      ensures rc == OK ==> |old(segs)| <= |segs| <= |old(segs)| + 1
      ensures rc == OK ==> SameExcept(View(old(segs)), View(segs), {Loc(slotSeg, slotWord)})
      ensures rc == OK ==> PointsTo(View(old(segs)), View(segs), Loc(slotSeg, slotWord), t, bodySeg, bodyWord)
      ensures rc == OK ==> bodySeg < |old(segs)| && SizesOf(segs) == LinkSizes(SizesOf(old(segs)), slotSeg, bodySeg, Lim())
    {
      hide BodyInside, SameExcept, PointsTo, TagOf, View, Wrote;
      BodySeg(View(segs), t, bodySeg, bodyWord);
      ghost var v := View(segs);
      rc := StorePtr(slotSeg, slotWord, bodySeg, bodyWord, t);
      if rc == OK {
        SmallView(segs);
        WrotePoints(v, View(segs), slotSeg, slotWord, bodySeg, bodyWord, t, Room(old(segs), bodySeg, Lim()));
      }
    }
  }

  /** Segments in use alike have as many words in use. */
  lemma SameUsed(a: seq<Seg>, b: seq<Seg>, i: nat)
    requires View(a) == View(b) && i < |a| && SegOk(a[i]) && SegOk(b[i])
    ensures a[i].words == b[i].words
  {
    assert View(a)[i] == View(b)[i];
  }

  // ---- the three ways of writing a pointer ------------------------------------------------------

  /** A pad still fits in the segment. */
  predicate Room(segs: seq<Seg>, seg: nat, lim: nat)
    requires seg < |segs|
  {
    segs[seg].words + 1 <= lim
  }

  /** The words after a pointer is written, given whether a pad still fits beside the body. */
  predicate Wrote(v: Segs, v': Segs, slotSeg: nat, slotWord: nat, seg: nat, word: nat, t: Target, room: bool)
    requires InBounds(v, slotSeg, slotWord) && seg < |v|
  {
    if slotSeg == seg then v' == Stored(v, seg, slotWord, Make(t, word - slotWord - 1))
    else if room then v' == FarWritten(v, slotSeg, slotWord, seg, word, t)
    else v' == DoubleFarWritten(v, slotSeg, slotWord, seg, word, t)
  }

  lemma WrotePoints(v: Segs, v': Segs, slotSeg: nat, slotWord: nat, seg: nat, word: nat, t: Target, room: bool)
    requires InBounds(v, slotSeg, slotWord) && BodyInside(v, t, seg, word) && (slotSeg == seg || word < TWO_29) && seg < |v|
    requires Loc(slotSeg, slotWord) !in TagOf(t, seg, word)
    requires Wrote(v, v', slotSeg, slotWord, seg, word, t, room) && SmallSegs(v')
    ensures SameExcept(v, v', {Loc(slotSeg, slotWord)})
    ensures PointsTo(v, v', Loc(slotSeg, slotWord), t, seg, word)
    ensures |v| <= |v'| <= |v| + 1
  {
    hide BodyInside, SameExcept, PointsTo, TagOf, SmallSegs;
    if slotSeg == seg {
      NearStored(v, seg, slotWord, word, t);
    } else if room {
      FarStored(v, slotSeg, slotWord, seg, word, t);
    } else {
      DoubleFarStored(v, slotSeg, slotWord, seg, word, t);
    }
  }

  lemma SmallView(segs: seq<Seg>)
    requires |segs| < TWO_32 && forall i :: 0 <= i < |segs| ==> SegOk(segs[i])
    ensures SmallSegs(View(segs))
  {
  }

  lemma NearStored(v: Segs, seg: nat, slot: nat, word: nat, t: Target)
    requires InBounds(v, seg, slot) && BodyInside(v, t, seg, word) && Loc(seg, slot) !in TagOf(t, seg, word)
    requires SmallSegs(Stored(v, seg, slot, Make(t, word - slot - 1)))
    ensures var v' := Stored(v, seg, slot, Make(t, word - slot - 1));
            && SameExcept(v, v', {Loc(seg, slot)})
            && PointsTo(v, v', Loc(seg, slot), t, seg, word)
  {
    hide BodyInside, SameExcept, Make, SmallSegs, TagOf, LookAt, SlotFootprint, Stored, BodyWords, Object;
    var v' := Stored(v, seg, slot, Make(t, word - slot - 1));
    StoredKeeps(v, seg, slot, Make(t, word - slot - 1));
    BodyKept(v, v', {Loc(seg, slot)}, t, seg, word);
    NearSlotLook(v', seg, slot, word, t);
  }

  /** A pad beside the body, and the slot far from it. */
  function FarWritten(v: Segs, slotSeg: nat, slotWord: nat, seg: nat, word: nat, t: Target): Segs
    requires InBounds(v, slotSeg, slotWord) && seg < |v| && slotSeg != seg
  {
    var pad := |v[seg]|;
    Stored(Stored(Appended(v, seg, 1), seg, pad, Make(t, word - pad - 1)), slotSeg, slotWord, MakeFar(false, pad, seg))
  }

  lemma FarStored(v: Segs, slotSeg: nat, slotWord: nat, seg: nat, word: nat, t: Target)
    requires InBounds(v, slotSeg, slotWord) && BodyInside(v, t, seg, word) && slotSeg != seg
    requires SmallSegs(FarWritten(v, slotSeg, slotWord, seg, word, t))
    ensures var v' := FarWritten(v, slotSeg, slotWord, seg, word, t);
            && SameExcept(v, v', {Loc(slotSeg, slotWord)})
            && PointsTo(v, v', Loc(slotSeg, slotWord), t, seg, word)
  {
    hide Make, MakeFar, SmallSegs, TagOf, LookAt, SlotFootprint, BodyWords, Object, BodyInside;
    assert seg < |v| by { BodySeg(v, t, seg, word); }
    var pad, v' := |v[seg]|, FarWritten(v, slotSeg, slotWord, seg, word, t);
    forall l: Loc | l != Loc(slotSeg, slotWord)
      ensures SameAt(v, v', l)
    {
    }
    assert TagOf(t, seg, word) !! {Loc(slotSeg, slotWord)} by { TagSeg(t, seg, word); }
    BodyKept(v, v', {Loc(slotSeg, slotWord)}, t, seg, word);
    assert v'[seg][pad] == Make(t, word - pad - 1);
    assert v'[slotSeg][slotWord] == MakeFar(false, pad, seg);
    FarLook(v', slotSeg, slotWord, seg, pad, word, t);
  }

  lemma BodySeg(v: Segs, t: Target, seg: nat, word: nat)
    requires BodyInside(v, t, seg, word)
    ensures seg < |v|
  {
  }

  lemma TagSeg(t: Target, seg: nat, word: nat)
    ensures forall l :: l in TagOf(t, seg, word) ==> l == Loc(seg, word)
  {
  }

  /** A pad of two words in a new segment. */
  function DoubleFarWritten(v: Segs, slotSeg: nat, slotWord: nat, seg: nat, word: nat, t: Target): Segs
    requires InBounds(v, slotSeg, slotWord)
  {
    var pad := |v|;
    var v1 := Stored(v + [ZeroWords(2)], pad, 0, MakeFar(false, word, seg));
    Stored(Stored(v1, pad, 1, Make(t, 0)), slotSeg, slotWord, MakeFar(true, 0, pad))
  }

  lemma DoubleFarStored(v: Segs, slotSeg: nat, slotWord: nat, seg: nat, word: nat, t: Target)
    requires InBounds(v, slotSeg, slotWord) && BodyInside(v, t, seg, word) && word < TWO_29
    requires Loc(slotSeg, slotWord) !in TagOf(t, seg, word)
    requires SmallSegs(DoubleFarWritten(v, slotSeg, slotWord, seg, word, t))
    ensures var v' := DoubleFarWritten(v, slotSeg, slotWord, seg, word, t);
            && SameExcept(v, v', {Loc(slotSeg, slotWord)})
            && PointsTo(v, v', Loc(slotSeg, slotWord), t, seg, word)
  {
    hide Make, MakeFar, SmallSegs, TagOf, LookAt, SlotFootprint, BodyWords, Object, BodyInside;
    var pad, v' := |v|, DoubleFarWritten(v, slotSeg, slotWord, seg, word, t);
    forall l: Loc | l != Loc(slotSeg, slotWord)
      ensures SameAt(v, v', l)
    {
    }
    BodyKept(v, v', {Loc(slotSeg, slotWord)}, t, seg, word);
    SmallCount(v');
    DoubleFarLook(v', slotSeg, slotWord, pad, 0, seg, word, t);
    assert BodyWords(v', t, seg, word) >= 0;
    assert DoubleFarCost(v', t, seg, word) <= 2 + BodyWords(v', t, seg, word);
  }

  lemma SmallCount(v: Segs)
    requires SmallSegs(v)
    ensures |v| <= TWO_32
  {
  }
}
