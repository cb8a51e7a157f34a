/** Stream framing: a segment table, then the segments. capnp_builder_serialize and parse_flat. */
module Framing {
  import opened Bytes
  import opened WirePointer
  import opened Message
  import opened WordBytes

  datatype Result<T> = Ok(value: T) | Err(code: Code)

  /** Bytes of the table for n segments: a count, the sizes, and padding to a whole word. */
  function TableBytes(n: nat): (b: nat)
    ensures b % 8 == 0 && b >= 4 + 4 * n && b <= 8 + 4 * n
  {
    if (4 + 4 * n) % 8 != 0 then 4 + 4 * n + 4 else 4 + 4 * n
  }

  function Sizes(segs: Segs, k: nat): (bs: seq<byte>)
    requires k <= |segs|
    ensures |bs| == 4 * k
  {
    if k == 0 then [] else Sizes(segs, k - 1) + Store(|segs[k - 1]|, 4)
  }

  function Contents(segs: Segs, k: nat): (bs: seq<byte>)
    requires k <= |segs|
  {
    if k == 0 then [] else Contents(segs, k - 1) + BytesOf(segs[k - 1])
  }

  /** The framed bytes of a message. */
  function Flat(segs: Segs): (bs: seq<byte>)
    requires |segs| > 0
  {
    Store(|segs| - 1, 4) + Sizes(segs, |segs|) + Zeros(TableBytes(|segs|) - 4 - 4 * |segs|) + Contents(segs, |segs|)
  }

  // ---- reading the table ---------------------------------------------------------------

  /** capnp_load_le32 at an offset. */
  function U32(data: seq<byte>, at: nat): (n: nat)
    requires at + 4 <= |data|
    ensures n < TWO_32
  {
    Widths();
    Load(data[at..at + 4])
  }

  /** Words of the first k segments the table announces. */
  function TotalWords(data: seq<byte>, k: nat): nat
    requires 4 + 4 * k <= |data|
  {
    if k == 0 then 0 else TotalWords(data, k - 1) + U32(data, 4 * k)
  }

  /** The first k segments, from the byte `start` on. */
  function Segments(data: seq<byte>, start: nat, k: nat): (segs: Segs)
    requires 4 + 4 * k <= |data| && start + 8 * TotalWords(data, k) <= |data|
    ensures |segs| == k
  {
    if k == 0 then []
    else
      var off := start + 8 * TotalWords(data, k - 1);
      var size := U32(data, 4 * k);
      Segments(data, start, k - 1) + [WordsOf(data[off..off + 8 * size], size)]
  }

  /** What parse_flat makes of framed bytes. */
  function Parse(data: seq<byte>): Result<Segs>
  {
    if |data| < 8 then Err(ErrFraming)
    else
      var n := (U32(data, 0) + 1) % TWO_32;
      if n == 0 || n > MAX_SEGMENTS then Err(ErrFraming)
      else if |data| < TableBytes(n) then Err(ErrFraming)
      else if TableBytes(n) + 8 * TotalWords(data, n) > |data| then Err(ErrFraming)
      else Ok(Segments(data, TableBytes(n), n))
  }

  // ---- round trip ------------------------------------------------------------------------

  /** Words of the first k segments. */
  function WordCount(segs: Segs, k: nat): nat
    requires k <= |segs|
  {
    if k == 0 then 0 else WordCount(segs, k - 1) + |segs[k - 1]|
  }

  lemma {:induction false} ContentsLength(segs: Segs, k: nat)
    requires k <= |segs|
    ensures |Contents(segs, k)| == 8 * WordCount(segs, k)
  {
    hide BytesOf;
    if k > 0 {
      ContentsLength(segs, k - 1);
    }
  }

  lemma {:induction false} ContentsPrefix(segs: Segs, j: nat, k: nat)
    requires j <= k <= |segs|
    ensures Contents(segs, j) <= Contents(segs, k)
    decreases k
  {
    hide BytesOf;
    if j < k {
      ContentsPrefix(segs, j, k - 1);
    }
  }

  lemma {:induction false} SizesAt(segs: Segs, k: nat, i: nat)
    requires i < k <= |segs|
    ensures Sizes(segs, k)[4 * i..4 * i + 4] == Store(|segs[i]|, 4)
    decreases k
  {
    hide Store;
    var last := Store(|segs[k - 1]|, 4);
    if i < k - 1 {
      SizesAt(segs, k - 1, i);
      assert Sizes(segs, k)[4 * i..4 * i + 4] == Sizes(segs, k - 1)[4 * i..4 * i + 4];
    } else {
      assert Sizes(segs, k)[4 * i..4 * i + 4] == last;
    }
  }

  /** Sizes that fit the table. */
  predicate Framable(segs: Segs)
  {
    1 <= |segs| <= MAX_SEGMENTS && forall i :: 0 <= i < |segs| ==> |segs[i]| < TWO_32
  }

  lemma TableCount(segs: Segs, extra: seq<byte>)
    requires 0 < |segs| < TWO_32
    ensures U32(Flat(segs) + extra, 0) == |segs| - 1
  {
    hide Store, Load, Sizes, Contents, Pow256;
    Widths();
    LoadStored(|segs| - 1, 4);
    assert (Flat(segs) + extra)[0..4] == Store(|segs| - 1, 4);
  }

  lemma TableSize(segs: Segs, extra: seq<byte>, i: nat)
    requires Framable(segs) && i < |segs|
    ensures U32(Flat(segs) + extra, 4 + 4 * i) == |segs[i]|
  {
    hide Store, Load, Sizes, Contents, Pow256;
    Widths();
    LoadStored(|segs[i]|, 4);
    SizesAt(segs, |segs|, i);
    assert (Flat(segs) + extra)[4 + 4 * i..4 + 4 * i + 4] == Sizes(segs, |segs|)[4 * i..4 * i + 4];
  }

  lemma {:induction false} TotalIs(segs: Segs, extra: seq<byte>, k: nat)
    requires Framable(segs) && k <= |segs|
    ensures TotalWords(Flat(segs) + extra, k) == WordCount(segs, k)
  {
    hide Flat, U32;
    FlatLength(segs);
    if k > 0 {
      TotalIs(segs, extra, k - 1);
      TableSize(segs, extra, k - 1);
    }
  }

  lemma FlatLength(segs: Segs)
    requires |segs| > 0
    ensures |Flat(segs)| == TableBytes(|segs|) + 8 * WordCount(segs, |segs|)
    ensures |Flat(segs)| >= 4 + 4 * |segs|
  {
    hide Store, Sizes, Contents;
    ContentsLength(segs, |segs|);
  }

  /** The bytes of segment i in a framed message. */
  lemma SegmentBytes(segs: Segs, extra: seq<byte>, i: nat)
    requires Framable(segs) && i < |segs|
    ensures var off := TableBytes(|segs|) + 8 * WordCount(segs, i);
            off + 8 * |segs[i]| <= |Flat(segs)| && (Flat(segs) + extra)[off..off + 8 * |segs[i]|] == BytesOf(segs[i])
  {
    hide Store, Sizes, BytesOf, Contents;
    FlatLength(segs);
    ContentsLength(segs, i);
    ContentsLength(segs, |segs|);
    ContentsPrefix(segs, i + 1, |segs|);
    var c, before := Contents(segs, |segs|), Contents(segs, i);
    assert before + BytesOf(segs[i]) <= c by { ContentsNext(segs, i); }
    var head := Store(|segs| - 1, 4) + Sizes(segs, |segs|) + Zeros(TableBytes(|segs|) - 4 - 4 * |segs|);
    SliceMiddle(head, before, BytesOf(segs[i]), c, extra);
  }

  lemma ContentsNext(segs: Segs, i: nat)
    requires i < |segs|
    ensures Contents(segs, i + 1) == Contents(segs, i) + BytesOf(segs[i])
  {
  }

  lemma SliceMiddle(head: seq<byte>, before: seq<byte>, part: seq<byte>, c: seq<byte>, extra: seq<byte>)
    requires before + part <= c
    ensures (head + c + extra)[|head| + |before|..|head| + |before| + |part|] == part
  {
    assert c[|before|..|before| + |part|] == (before + part)[|before|..] == part;
  }

  lemma {:induction false} SegmentsAre(segs: Segs, extra: seq<byte>, k: nat)
    requires Framable(segs) && k <= |segs|
    requires TableBytes(|segs|) + 8 * TotalWords(Flat(segs) + extra, k) <= |Flat(segs) + extra|
    ensures Segments(Flat(segs) + extra, TableBytes(|segs|), k) == segs[..k]
  {
    hide Flat, U32, BytesOf, WordsOf;
    if k > 0 {
      TotalIs(segs, extra, k);
      TotalIs(segs, extra, k - 1);
      SegmentsAre(segs, extra, k - 1);
      TableSize(segs, extra, k - 1);
      SegmentBytes(segs, extra, k - 1);
      WordsOfBytes(segs[k - 1]);
      assert segs[..k] == segs[..k - 1] + [segs[k - 1]];
    }
  }

  /** Parsing framed bytes restores every segment, whatever follows them. */
  lemma ParseFlat(segs: Segs, extra: seq<byte>)
    requires Framable(segs)
    ensures Parse(Flat(segs) + extra) == Ok(segs)
  {
    hide Flat, U32, Segments, TotalWords, Load, Store, Pow256, TableBytes, WordCount;
    FlatLength(segs);
    TableCount(segs, extra);
    TotalIs(segs, extra, |segs|);
    SegmentsAre(segs, extra, |segs|);
    assert segs[..|segs|] == segs;
  }

  /** A message of more segments than a reader takes is refused. */
  lemma ParseTooMany(segs: Segs, extra: seq<byte>)
    requires MAX_SEGMENTS < |segs| < TWO_32
    ensures Parse(Flat(segs) + extra) == Err(ErrFraming)
  {
    hide Flat, U32, Segments, TotalWords, Load, Store, Pow256, TableBytes, WordCount;
    FlatLength(segs);
    TableCount(segs, extra);
  }

  // ---- which bytes are framed messages -----------------------------------------------------

  /** The table is a whole number of words: a count, a size for each segment, and four bytes
      of padding when there are an even number of them. */
  lemma TableWords(n: nat)
    ensures TableBytes(n) == 8 * (n / 2 + 1)
    ensures TableBytes(n) - 4 - 4 * n == if n % 2 == 0 then 4 else 0
  {
  }

  /** Bytes that frame these segments, whatever the padding is and whatever follows. */
  predicate Frames(data: seq<byte>, segs: Segs)
  {
    var n := |segs|;
    && Framable(segs) && TableBytes(n) + 8 * WordCount(segs, n) <= |data|
    && U32(data, 0) == n - 1
    && (forall i :: 0 <= i < n ==> SegmentFramed(data, segs, i))
  }

  /** The table has the size of segment i, and its bytes follow those of the segments before. */
  predicate SegmentFramed(data: seq<byte>, segs: Segs, i: nat)
    requires i < |segs|
  {
    var off := TableBytes(|segs|) + 8 * WordCount(segs, i);
    && 4 + 4 * i + 4 <= |data| && U32(data, 4 + 4 * i) == |segs[i]|
    && off + 8 * |segs[i]| <= |data| && data[off..off + 8 * |segs[i]|] == BytesOf(segs[i])
  }

  lemma {:induction false} SegmentsFramed(data: seq<byte>, start: nat, k: nat, i: nat)
    requires 4 + 4 * k <= |data| && start + 8 * TotalWords(data, k) <= |data| && i < k
    ensures var segs := Segments(data, start, k);
            var off := start + 8 * TotalWords(data, i);
            && |segs[i]| == U32(data, 4 * (i + 1)) && off + 8 * |segs[i]| <= |data|
            && data[off..off + 8 * |segs[i]|] == BytesOf(segs[i])
    decreases k
  {
    hide U32, BytesOf, WordsOf;
    if i < k - 1 {
      SegmentsFramed(data, start, k - 1, i);
    } else {
      var off, size := start + 8 * TotalWords(data, i), U32(data, 4 * k);
      BytesOfWords(data[off..off + 8 * size], size);
    }
  }

  lemma {:induction false} CountsAgree(data: seq<byte>, start: nat, n: nat, k: nat)
    requires 4 + 4 * n <= |data| && start + 8 * TotalWords(data, n) <= |data| && k <= n
    ensures WordCount(Segments(data, start, n), k) == TotalWords(data, k)
  {
    hide U32, BytesOf, WordsOf, Segments;
    if k > 0 {
      CountsAgree(data, start, n, k - 1);
      SegmentsFramed(data, start, n, k - 1);
    }
  }

  /** A reader takes exactly the bytes that frame a message of 1 to 16 segments, and what it
      reads is that message. */
  lemma ParsesIffFrames(data: seq<byte>, segs: Segs)
    ensures Parse(data) == Ok(segs) <==> Frames(data, segs)
  {
    hide Load, BytesOf, WordsOf, U32;
    if Parse(data) == Ok(segs) {
      ParsedFrames(data, segs);
    }
    if Frames(data, segs) {
      FramesParse(data, segs);
    }
  }

  lemma ParsedFrames(data: seq<byte>, segs: Segs)
    requires Parse(data) == Ok(segs)
    ensures Frames(data, segs)
  {
    hide Load, BytesOf, WordsOf, U32, TableBytes, Segments, WordCount, TotalWords;
    var n := |segs|;
    assert U32(data, 0) == n - 1 && 1 <= n <= MAX_SEGMENTS;
    CountsAgree(data, TableBytes(n), n, n);
    forall i | 0 <= i < n
      ensures SegmentFramed(data, segs, i) && |segs[i]| < TWO_32
    {
      SegmentsFramed(data, TableBytes(n), n, i);
      CountsAgree(data, TableBytes(n), n, i);
      assert 4 * (i + 1) == 4 + 4 * i;
    }
    assert Framable(segs);
  }

  lemma {:induction false} TotalsFramed(data: seq<byte>, segs: Segs, k: nat)
    requires k <= |segs| && 4 + 4 * k <= |data|
    requires forall i :: 0 <= i < |segs| ==> SegmentFramed(data, segs, i)
    ensures TotalWords(data, k) == WordCount(segs, k)
  {
    hide U32, BytesOf;
    if k > 0 {
      TotalsFramed(data, segs, k - 1);
      assert SegmentFramed(data, segs, k - 1);
    }
  }

  lemma FramesParse(data: seq<byte>, segs: Segs)
    requires Frames(data, segs)
    ensures Parse(data) == Ok(segs)
  {
    hide Load, BytesOf, WordsOf, U32, Segments, SegmentFramed;
    var n := |segs|;
    TotalsFramed(data, segs, n);
    SegmentsRestored(data, segs, n);
    assert segs[..n] == segs;
  }

  lemma {:induction false} SegmentsRestored(data: seq<byte>, segs: Segs, k: nat)
    requires Frames(data, segs) && k <= |segs| && 4 + 4 * k <= |data|
    requires TableBytes(|segs|) + 8 * TotalWords(data, k) <= |data|
    ensures Segments(data, TableBytes(|segs|), k) == segs[..k]
  {
    hide BytesOf, WordsOf, U32, TableBytes;
    if k > 0 {
      SegmentsRestored(data, segs, k - 1);
      TotalsFramed(data, segs, k - 1);
      assert SegmentFramed(data, segs, k - 1);
      WordsOfBytes(segs[k - 1]);
      assert segs[..k] == segs[..k - 1] + [segs[k - 1]];
    }
  }

  /** The framed form of a message does frame it. */
  lemma FlatFrames(segs: Segs, extra: seq<byte>)
    requires Framable(segs)
    ensures Frames(Flat(segs) + extra, segs)
  {
    hide Flat, Parse, Frames;
    ParseFlat(segs, extra);
    ParsesIffFrames(Flat(segs) + extra, segs);
  }
}
