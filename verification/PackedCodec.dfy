/** The two loops of capnp_packed.c over their growing buffers.
    Every write below is bounds-checked against the buffer: the one growth test at
    each loop head is all the room either loop ever asks for. */
module PackedCodec {
  import opened Bytes
  import P = Packed

  /** realloc to a larger buffer, with the new tail zeroed. */
  method Grow(buf: array<byte>, ncap: nat) returns (nb: array<byte>)
    requires buf.Length <= ncap
    ensures fresh(nb) && nb.Length == ncap
    ensures nb[..buf.Length] == buf[..]
  {
    nb := new byte[ncap](i requires 0 <= i < ncap reads buf => if i < buf.Length then buf[i] else 0);
    assert forall i :: 0 <= i < buf.Length ==> nb[i] == buf[i];
  }

  /** memcpy of src to buf at opos. */
  method CopyIn(buf: array<byte>, opos: nat, src: seq<byte>)
    requires opos + |src| <= buf.Length
    modifies buf
    ensures buf[..opos + |src|] == old(buf[..opos]) + src
  {
    for i := 0 to |src|
      invariant buf[..opos + i] == old(buf[..opos]) + src[..i]
    {
      buf[opos + i] := src[i];
    }
  }

  // ---- pack -------------------------------------------------------------

  /** The tag loop: one bit and one count per nonzero byte. */
  method TagWord(word: seq<byte>) returns (tag: byte, nz: nat)
    requires |word| == 8
    ensures tag == P.TagOf(word, 8)
    ensures nz == 8 - P.ZeroCount(word, 8)
  {
    tag, nz := 0, 0;
    for k := 0 to 8
      invariant tag == P.TagOf(word, k) && nz == k - P.ZeroCount(word, k)
    {
      if word[k] != 0 {
        assert P.TagOf(word, k + 1) == tag + P.Bit(k);
        tag := tag + P.Bit(k);
        nz := nz + 1;
      }
    }
  }

  /** The tag byte, then the bytes it announces. */
  method EmitWord(buf: array<byte>, start: nat, word: seq<byte>, tag: byte) returns (opos: nat)
    requires |word| == 8 && tag == P.TagOf(word, 8)
    requires start + 9 <= buf.Length
    modifies buf
    ensures opos == start + 1 + |P.Literals(word, 8)| <= buf.Length
    ensures buf[..opos] == old(buf[..start]) + [tag] + P.Literals(word, 8)
  {
    P.TagBits(word);
    hide P.TagOf, P.HasBit, P.Bit;
    buf[start] := tag;
    opos := start + 1;
    for k := 0 to 8
      invariant start + 1 <= opos <= start + 1 + k
      invariant buf[..opos] == old(buf[..start]) + [tag] + P.Literals(word, k)
    {
      if P.HasBit(tag, k) {
        buf[opos] := word[k];
        opos := opos + 1;
        assert buf[..opos] == buf[..opos - 1] + [word[k]];
      }
    }
  }

  method CountZeroRun(input: seq<byte>, w: nat) returns (run: nat)
    requires P.Aligned(input) && 8 * w <= |input|
    ensures run == P.ZeroRun(input, w, 255)
  {
    hide P.AllZero, P.WordAt;
    var nwords := |input| / 8;
    assert |input| == 8 * nwords;
    run := 0;
    while w + run < nwords && run < 255 && P.AllZero(P.WordAt(input, w + run))
      invariant run <= 255 && w + run <= nwords
      invariant P.ZeroRun(input, w, 255) == run + P.ZeroRun(input, w + run, 255 - run)
      decreases 255 - run
    {
      run := run + 1;
    }
  }

  method CountDenseRun(input: seq<byte>, w: nat) returns (run: nat)
    requires P.Aligned(input) && 8 * w <= |input|
    ensures run == P.DenseRun(input, w, 255)
  {
    hide P.FewerThanTwoZeros, P.WordAt;
    var nwords := |input| / 8;
    assert |input| == 8 * nwords;
    run := 0;
    while w + run < nwords && run < 255 && P.FewerThanTwoZeros(P.WordAt(input, w + run))
      invariant run <= 255 && w + run <= nwords
      invariant P.DenseRun(input, w, 255) == run + P.DenseRun(input, w + run, 255 - run)
      decreases 255 - run
    {
      run := run + 1;
    }
  }

  /** The run count and verbatim words that may follow a word's literals. */
  method PackTail(input: seq<byte>, w: nat, tag: byte, nz: nat, buf: array<byte>, start: nat)
    returns (next: nat, opos: nat)
    requires P.Aligned(input) && 8 * w < |input|
    requires tag == P.TagOf(P.WordAt(input, w), 8) && nz == 8 - P.ZeroCount(P.WordAt(input, w), 8)
    requires start + 1 + 8 * 255 <= buf.Length
    modifies buf
    ensures next == w + P.ItemWords(input, w)
    ensures start <= opos <= buf.Length
    ensures buf[..opos] == old(buf[..start]) + P.Tail(input, w)
  {
    hide P.ZeroCount, P.TagOf, P.ZeroRun, P.DenseRun, P.WordAt;
    opos := start;
    next := w + 1;
    if tag == 0 {
      var run := CountZeroRun(input, next);
      CopyIn(buf, opos, [run]);
      opos := opos + 1;
      next := next + run;
    } else if nz == 8 {
      var run := CountDenseRun(input, next);
      opos := CopyVerbatim(input, next, run, buf, opos);
      next := next + run;
    }
  }

  method CopyVerbatim(input: seq<byte>, w: nat, run: byte, buf: array<byte>, start: nat) returns (opos: nat)
    requires 8 * (w + run) <= |input|
    requires start + 1 + 8 * run as int <= buf.Length
    modifies buf
    ensures opos == start + 1 + 8 * run as int
    ensures buf[..opos] == old(buf[..start]) + ([run] + input[8 * w..8 * (w + run)])
  {
    CopyIn(buf, start, [run]);
    opos := start + 1;
    CopyIn(buf, opos, input[8 * w..8 * (w + run)]);
    opos := opos + 8 * run as int;
  }

  /** One turn of the loop of capnp_pack, on a buffer with room for any item. */
  method PackItem(input: seq<byte>, w: nat, buf: array<byte>, start: nat) returns (next: nat, opos: nat)
    requires P.Aligned(input) && 8 * w < |input|
    requires start + 10 + 8 * 255 <= buf.Length
    modifies buf
    ensures next == w + P.ItemWords(input, w)
    ensures start <= opos <= buf.Length
    ensures buf[..opos] == old(buf[..start]) + P.Item(input, w)
  {
    hide P.Literals, P.ZeroCount, P.TagOf, P.WordAt, P.Tail, P.ItemWords;
    var word := P.WordAt(input, w);
    var tag, nz := TagWord(word);
    opos := EmitWord(buf, start, word, tag);
    next, opos := PackTail(input, w, tag, nz, buf, opos);
  }

  /** capnp_pack */
  method Pack(input: seq<byte>) returns (rc: Code, buf: array<byte>, opos: nat)
    ensures rc == if P.Aligned(input) then OK else ErrArg
    ensures rc == OK ==> opos <= buf.Length && buf[..opos] == P.Pack(input, 0)
  {
    hide P.Item, P.ItemWords;
    opos := 0;
    if |input| % 8 != 0 {
      buf := new byte[0];
      return ErrArg, buf, 0;
    }
    var nwords := |input| / 8;
    buf := new byte[if nwords > 0 then nwords * 10 else 1];
    var w := 0;
    assert buf[..opos] + P.Pack(input, w) == P.Pack(input, 0);
    while w < nwords
      invariant w <= nwords && opos <= buf.Length && (nwords > 0 ==> 10 <= buf.Length) && fresh(buf)
      invariant buf[..opos] + P.Pack(input, w) == P.Pack(input, 0)
      decreases nwords - w
    {
      if opos + 10 + 8 * 255 > buf.Length {
        ghost var before := buf[..opos];
        var nb := Grow(buf, buf.Length * 2 + 8 * 256);
        assert nb[..opos] == nb[..buf.Length][..opos] == before;
        buf := nb;
      }
      ghost var done, item := buf[..opos], P.Item(input, w);
      ghost var rest := P.Pack(input, w + P.ItemWords(input, w));
      assert P.Pack(input, w) == item + rest;
      w, opos := PackItem(input, w, buf, opos);
      assert done + (item + rest) == (done + item) + rest;
    }
    assert buf[..opos] + [] == buf[..opos];
    return OK, buf, opos;
  }

  // ---- unpack -----------------------------------------------------------

  /** The bytes of one tagged word: Expand, written into the buffer. */
  method ExpandInto(input: seq<byte>, ghost base: nat, tag: byte, start: nat, buf: array<byte>, opos: nat)
    returns (ok: bool, ipos: nat)
    requires base <= start <= |input| && opos + 8 <= buf.Length
    modifies buf
    ensures var e := P.Expand(tag, input[base..], start - base, 8);
            && ok == e.Some?
            && (ok ==> ipos == base + e.value.1 && buf[..opos + 8] == old(buf[..opos]) + e.value.0)
    ensures ipos <= |input|
  {
    hide P.HasBit;
    ipos := start;
    ghost var s := input[base..];
    for k := 0 to 8
      invariant start <= ipos <= |input|
      invariant P.Expand(tag, s, start - base, k).Some?
      invariant ipos == base + P.Expand(tag, s, start - base, k).value.1
      invariant buf[..opos + k] == old(buf[..opos]) + P.Expand(tag, s, start - base, k).value.0
    {
      if P.HasBit(tag, k) {
        if ipos >= |input| {
          ExpandFails(tag, s, start - base, k + 1, 8);
          return false, ipos;
        }
        buf[opos + k] := input[ipos];
        ipos := ipos + 1;
      } else {
        buf[opos + k] := 0;
      }
    }
    return true, ipos;
  }

  lemma {:induction false} ExpandFails(tag: byte, s: seq<byte>, i: nat, j: nat, k: nat)
    requires i <= |s| && j <= k <= 8 && P.Expand(tag, s, i, j).None?
    ensures P.Expand(tag, s, i, k).None?
  {
    if j < k {
      ExpandFails(tag, s, i, j, k - 1);
    }
  }

  /** One turn of the unpack loop, at a buffer with room for a word and 255 more. */
  method UnpackItem(input: seq<byte>, base: nat, buf: array<byte>, start: nat)
    returns (ok: bool, ipos: nat, opos: nat)
    requires base < |input| && start + 8 + 255 * 8 <= buf.Length
    modifies buf
    ensures var step := P.Step(input[base..]);
            && ok == step.Some?
            && (ok ==> && ipos == base + step.value.1
                       && opos == start + |step.value.0| <= buf.Length
                       && buf[..opos] == old(buf[..start]) + step.value.0)
  {
    hide P.Expand;
    var tag := input[base];
    opos := start + 8;
    ok, ipos := ExpandInto(input, base, tag, base + 1, buf, start);
    if !ok {
      return;
    }
    ghost var s := input[base..];
    ghost var word := P.Expand(tag, s, 1, 8).value.0;
    if tag == 0 {
      if ipos >= |input| {
        return false, ipos, opos;
      }
      var count: nat := input[ipos];
      ipos := ipos + 1;
      if opos + count * 8 > buf.Length {
        assert false;
      }
      CopyIn(buf, opos, Zeros(8 * count));
      opos := opos + 8 * count;
    } else if tag == 255 {
      if ipos >= |input| {
        return false, ipos, opos;
      }
      var count: nat := input[ipos];
      ipos := ipos + 1;
      if ipos + count * 8 > |input| {
        return false, ipos, opos;
      }
      if opos + count * 8 > buf.Length {
        assert false;
      }
      assert input[ipos..ipos + 8 * count] == s[ipos - base..ipos - base + 8 * count];
      CopyIn(buf, opos, input[ipos..ipos + 8 * count]);
      ipos := ipos + 8 * count;
      opos := opos + 8 * count;
    }
  }

  /** capnp_unpack */
  method Unpack(input: seq<byte>) returns (rc: Code, buf: array<byte>, opos: nat)
    ensures rc == if P.Unpack(input).Some? then OK else ErrPacked
    ensures rc == OK ==> opos <= buf.Length && buf[..opos] == P.Unpack(input).value
  {
    hide P.Step;
    buf := new byte[if |input| * 4 + 64 < 64 then 64 else |input| * 4 + 64];
    var ipos := 0;
    opos := 0;
    assert input[ipos..] == input;
    while ipos < |input|
      invariant ipos <= |input| && opos <= buf.Length && 64 <= buf.Length && opos % 8 == 0 && fresh(buf)
      invariant P.Unpack(input).Some? <==> P.Unpack(input[ipos..]).Some?
      invariant P.Unpack(input).Some? ==> P.Unpack(input).value == buf[..opos] + P.Unpack(input[ipos..]).value
      decreases |input| - ipos
    {
      if opos + 8 + 255 * 8 > buf.Length {
        ghost var before := buf[..opos];
        var nb := Grow(buf, buf.Length * 2 + 8 * 256);
        assert nb[..opos] == nb[..buf.Length][..opos] == before;
        buf := nb;
      }
      ghost var base, done := ipos, buf[..opos];
      var ok;
      ok, ipos, opos := UnpackItem(input, ipos, buf, opos);
      if !ok {
        return ErrPacked, buf, 0;
      }
      ghost var step := P.Step(input[base..]).value;
      assert input[base..][step.1..] == input[ipos..];
      if P.Unpack(input).Some? {
        assert done + (step.0 + P.Unpack(input[ipos..]).value) == (done + step.0) + P.Unpack(input[ipos..]).value;
      }
    }
    assert input[ipos..] == [];
    if opos % 8 != 0 {
      assert false;
    }
    return OK, buf, opos;
  }
}
