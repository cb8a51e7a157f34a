/** The loops that frame a builder's segments and take a frame apart again. */
module Framer {
  import opened Bytes
  import opened WirePointer
  import opened Message
  import opened WordBytes
  import opened Framing
  import opened Arena

  /** capnp_store_le32 */
  method StoreLE32(buf: array<byte>, off: nat, n: nat)
    requires off + 4 <= buf.Length
    modifies buf
    ensures buf[..off + 4] == old(buf[..off]) + Store(n, 4)
  {
    var m := n;
    for k := 0 to 4
      invariant buf[..off] == old(buf[..off])
      invariant Store(n, 4) == buf[off..off + k] + Store(m, 4 - k)
    {
      buf[off + k] := m % 256;
      m := m / 256;
    }
  }

  /** memcpy */
  method CopyTo(buf: array<byte>, off: nat, src: seq<byte>)
    requires off + |src| <= buf.Length
    modifies buf
    ensures buf[..off + |src|] == old(buf[..off]) + src
  {
    for i := 0 to |src|
      invariant buf[..off + i] == old(buf[..off]) + src[..i]
    {
      buf[off + i] := src[i];
    }
  }

  /** capnp_builder_serialize */
  method Serialize(b: Builder) returns (rc: Code, buf: array<byte>)
    requires b.Valid()
    ensures rc == if b.segs[0].words == 0 then ErrArg else OK
    ensures rc == OK ==> buf[..] == Flat(View(b.segs))
  {
    hide Store, BytesOf, TableBytes, View, Flat;
    ghost var v := View(b.segs);
    var n := |b.segs|;
    if b.segs[0].words == 0 {
      buf := new byte[0];
      return ErrArg, buf;
    }
    var bodyWords := 0;
    for i := 0 to n
      invariant bodyWords == WordCount(v, i)
    {
      UsedLength(b.segs[i]);
      bodyWords := bodyWords + b.segs[i].words;
    }
    buf := new byte[TableBytes(n) + 8 * bodyWords];
    WriteTable(b, buf);
    WriteContents(b, buf);
    assert Flat(v) == Table(v) + Contents(v, n) by { FlatIs(v); }
    return OK, buf;
  }

  /** The segment table with its padding. */
  function Table(segs: Segs): (bs: seq<byte>)
    requires |segs| > 0
    ensures |bs| == TableBytes(|segs|)
  {
    Store(|segs| - 1, 4) + Sizes(segs, |segs|) + Zeros(TableBytes(|segs|) - 4 - 4 * |segs|)
  }

  lemma FlatIs(segs: Segs)
    requires |segs| > 0
    ensures Flat(segs) == Table(segs) + Contents(segs, |segs|)
  {
  }

  method WriteTable(b: Builder, buf: array<byte>)
    requires b.Valid() && TableBytes(|b.segs|) <= buf.Length
    modifies buf
    ensures buf[..TableBytes(|b.segs|)] == Table(View(b.segs))
  {
    hide Store, TableBytes, View, Sizes, Zeros;
    ghost var v := View(b.segs);
    var n := |b.segs|;
    StoreLE32(buf, 0, n - 1);
    assert Sizes(v, 0) == [];
    for i := 0 to n
      invariant buf[..4 + 4 * i] == Store(n - 1, 4) + Sizes(v, i)
    {
      UsedLength(b.segs[i]);
      SizesNext(v, i);
      StoreLE32(buf, 4 + 4 * i, b.segs[i].words);
      Associates(Store(n - 1, 4), Sizes(v, i), Store(|v[i]|, 4));
    }
    CopyTo(buf, 4 + 4 * n, Zeros(TableBytes(n) - 4 - 4 * n));
  }

  lemma NoCount(segs: Segs)
    ensures WordCount(segs, 0) == 0
  {
  }

  lemma CountNext(segs: Segs, i: nat)
    requires i < |segs|
    ensures WordCount(segs, i + 1) == WordCount(segs, i) + |segs[i]|
  {
  }

  lemma SizesNext(segs: Segs, i: nat)
    requires i < |segs|
    ensures Sizes(segs, i + 1) == Sizes(segs, i) + Store(|segs[i]|, 4)
  {
  }

  lemma Associates(a: seq<byte>, b: seq<byte>, c: seq<byte>)
    ensures a + b + c == a + (b + c)
  {
  }

  method WriteContents(b: Builder, buf: array<byte>)
    requires b.Valid() && buf.Length == TableBytes(|b.segs|) + 8 * WordCount(View(b.segs), |b.segs|)
    modifies buf
    ensures buf[..] == old(buf[..TableBytes(|b.segs|)]) + Contents(View(b.segs), |b.segs|)
  {
    hide BytesOf, TableBytes, View, Contents, WordCount, Used;
    ghost var v := View(b.segs);
    var n := |b.segs|;
    var off := TableBytes(n);
    ghost var head := buf[..off];
    NoCount(v);
    assert Contents(v, 0) == [] by { ContentsLength(v, 0); }
    for i := 0 to n
      invariant off == TableBytes(n) + 8 * WordCount(v, i) <= buf.Length
      invariant buf[..off] == head + Contents(v, i)
    {
      CountMono(v, i + 1, n);
      UsedLength(b.segs[i]);
      var bytes := BytesOf(b.segs[i].data[..b.segs[i].words]);
      ContentsNext(v, i);
      CountNext(v, i);
      CopyTo(buf, off, bytes);
      Associates(head, Contents(v, i), bytes);
      off := off + |bytes|;
    }
    assert buf[..] == buf[..off];
  }

  lemma UsedLength(s: Seg)
    requires SegOk(s)
    ensures |Used(s)| == s.words && Used(s) == s.data[..s.words]
  {
  }

  lemma {:induction false} CountMono(segs: Segs, j: nat, k: nat)
    requires j <= k <= |segs|
    ensures WordCount(segs, j) <= WordCount(segs, k)
    decreases k
  {
    if j < k {
      CountMono(segs, j, k - 1);
    }
  }

  /** parse_flat: the segment table, then each segment where the sizes before it put it. */
  method ParseFrame(data: seq<byte>) returns (rc: Code, segs: Segs)
    ensures Parse(data) == if rc == OK then Ok(segs) else Err(rc)
  {
    hide U32, WordsOf;
    segs := [];
    if |data| < 8 {
      return ErrFraming, segs;
    }
    var n := (U32(data, 0) + 1) % TWO_32;
    if n == 0 || n > MAX_SEGMENTS {
      return ErrFraming, segs;
    }
    var table := TableBytes(n);
    if |data| < table {
      return ErrFraming, segs;
    }
    var total := 0;
    var sizes: seq<nat> := [];
    for i := 0 to n
      invariant total == TotalWords(data, i)
      invariant |sizes| == i && forall k :: 0 <= k < i ==> sizes[k] == U32(data, 4 + 4 * k)
    {
      sizes := sizes + [U32(data, 4 + 4 * i)];
      total := total + sizes[i];
    }
    if table + 8 * total > |data| {
      return ErrFraming, segs;
    }
    var off := table;
    for i := 0 to n
      invariant off == table + 8 * TotalWords(data, i)
      invariant table + 8 * TotalWords(data, i) <= |data|
      invariant segs == Segments(data, table, i)
    {
      TotalMono(data, i + 1, n);
      segs := segs + [WordsOf(data[off..off + 8 * sizes[i]], sizes[i])];
      off := off + 8 * sizes[i];
    }
    return OK, segs;
  }

  lemma {:induction false} TotalMono(data: seq<byte>, j: nat, k: nat)
    requires j <= k && 4 + 4 * k <= |data|
    ensures TotalWords(data, j) <= TotalWords(data, k)
    decreases k
  {
    if j < k {
      TotalMono(data, j, k - 1);
    }
  }
}
