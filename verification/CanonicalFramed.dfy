/** capnp_canonicalize_framed: the canonical words behind a one-entry segment table. */
module CanonicalFramed {
  import opened Bytes
  import opened WirePointer
  import opened Message
  import opened WordBytes
  import opened ObjectTree
  import opened Budget
  import opened Layout
  import opened LayoutReads
  import opened Framing
  import opened Canonicalizer
  import opened CanonicalTheorems
  import opened CanonicalIdempotence
  import opened Rewrites
  import Framer

  /** The canonical words of a message that has a value. */
  function CanonicalWords(segs: Segs): seq<Word>
    requires Value(segs).Some?
  {
    Encode(Trim(Value(segs).value))
  }

  lemma OneEntry(segs: Segs)
    requires |segs| == 1
    ensures Sizes(segs, 1) == Store(|segs[0]|, 4) && Contents(segs, 1) == BytesOf(segs[0])
  {
    hide Store, BytesOf;
    assert Sizes(segs, 0) == [] && Contents(segs, 0) == [];
  }

  lemma Joined(a: seq<byte>, b: seq<byte>, c: seq<byte>)
    ensures a + b + Zeros(0) + c == a + b + c
  {
    assert a + b + Zeros(0) == a + b;
  }

  /** One segment behind its table. */
  lemma FlatOne(ws: seq<Word>)
    ensures Flat([ws]) == Store(0, 4) + Store(|ws|, 4) + BytesOf(ws)
  {
    hide Store, BytesOf, Sizes, Contents, Zeros;
    var segs := [ws];
    OneEntry(segs);
    assert TableBytes(1) == 8;
    Joined(Store(0, 4), Store(|ws|, 4), BytesOf(ws));
  }

  method CanonicalizeFramed(segs: Segs) returns (rc: Code, out: array<byte>)
    requires MessageSound(segs)
    ensures rc == CanonicalCode(segs)
    ensures rc == OK ==> Value(segs).Some? && out[..] == Flat([CanonicalWords(segs)])
  {
    hide MessageSound, CanonicalCode, Value, Store, BytesOf, Encode, Trim, Flat;
    var raw;
    rc, raw := Canonicalize(segs);
    out := new byte[8 + 8 * |raw|];
    if rc != OK {
      return;
    }
    Framer.StoreLE32(out, 0, 0);
    Framer.StoreLE32(out, 4, |raw|);
    Framer.CopyTo(out, 8, BytesOf(raw));
    assert out[..8] == Store(0, 4) + Store(|raw|, 4);
    assert out[..] == out[..8] + BytesOf(raw);
    FlatOne(raw);
  }

  /** The four bytes of a number hold it modulo 2^32. */
  lemma Low32(n: nat)
    ensures Load(Store(n, 4)) == n % TWO_32
  {
    var b: seq<byte> := Store(n, 4);
    assert Store(n, 4) == [n % 256] + Store(n / 256, 3);
    assert Store(n / 256, 3) == [n / 256 % 256] + Store(n / 256 / 256, 2);
    assert Store(n / 256 / 256, 2) == [n / 256 / 256 % 256] + Store(n / 256 / 256 / 256, 1);
    assert Store(n / 256 / 256 / 256, 1) == [n / 256 / 256 / 256 % 256] + Store(n / 256 / 256 / 256 / 256, 0);
    FourBytes(b);
  }

  lemma FourBytes(b: seq<byte>)
    requires |b| == 4
    ensures var b0: int, b1: int, b2: int, b3: int := b[0], b[1], b[2], b[3];
            Load(b) == b0 + 256 * b1 + 0x1_0000 * b2 + 0x100_0000 * b3
  {
    assert Load(b) == b[0] + 256 * Load(b[1..]);
    assert Load(b[1..]) == b[1] + 256 * Load(b[2..]) by { assert b[1..][1..] == b[2..]; }
    assert Load(b[2..]) == b[2] + 256 * Load(b[3..]) by { assert b[2..][1..] == b[3..]; }
    assert Load(b[3..]) == b[3] + 256 * Load([]) by { assert b[3..][1..] == []; }
  }

  /** One segment survives its framing exactly when its size fits the 32 bits of the table. */
  lemma FlatParses(ws: seq<Word>)
    ensures Parse(Flat([ws])) == Ok([ws]) <==> |ws| < TWO_32
  {
    hide Flat, Parse;
    var segs := [ws];
    assert Flat(segs) + [] == Flat(segs);
    if |ws| < TWO_32 {
      ParseFlat(segs, []);
    } else {
      TooLong(ws);
    }
  }

  lemma TooLong(ws: seq<Word>)
    requires |ws| >= TWO_32
    ensures Parse(Flat([ws])) != Ok([ws])
  {
    hide Flat, Load, Store, BytesOf, WordsOf;
    var data := Flat([ws]);
    FlatOne(ws);
    Widths();
    LoadStored(0, 4);
    Low32(|ws|);
    assert data[0..4] == Store(0, 4) && data[4..8] == Store(|ws|, 4);
    assert U32(data, 0) == 0 && U32(data, 4) == |ws| % TWO_32;
    if Parse(data) == Ok([ws]) {
      ParsedSize(data, ws);
    }
  }

  lemma ParsedSize(data: seq<byte>, ws: seq<Word>)
    requires |data| >= 8 && U32(data, 0) == 0 && Parse(data) == Ok([ws])
    ensures |ws| == U32(data, 4)
  {
    hide WordsOf, Load;
    assert TableBytes(1) == 8 && (U32(data, 0) + 1) % TWO_32 == 1;
    assert Segments(data, 8, 0) == [] && TotalWords(data, 0) == 0;
    assert Segments(data, 8, 1) == [ws];
    assert |Segments(data, 8, 1)[0]| == U32(data, 4);
  }

  /** The framed bytes parse back to the canonical words exactly when their count fits the
      table; canonicalizing those words gives the same bytes, and succeeds exactly when the
      budget covers what the normal form costs. */
  lemma FramedExactly(segs: Segs)
    requires CanonicalCode(segs) == OK && OffsetsFit(Trim(Value(segs).value))
    ensures Value(segs).Some?
    ensures var out := [CanonicalWords(segs)];
            && (Parse(Flat(out)) == Ok(out) <==> |CanonicalWords(segs)| < TWO_32)
            && MessageSound(out) && Value(out).Some? && Flat([CanonicalWords(out)]) == Flat(out)
            && (CanonicalCode(out) == OK <==> RewriteCost(Trim(Value(segs).value)) <= TRAVERSAL_WORDS)
  {
    hide MessageSound, CanonicalCode, Value, Encode, Trim, Flat, Parse, OffsetsFit, RewriteCost;
    assert Value(segs).Some? by { HasValue(segs); }
    TwiceExactly(segs);
    FlatParses(CanonicalWords(segs));
  }

  lemma HasValue(segs: Segs)
    requires CanonicalCode(segs) == OK
    ensures Value(segs).Some?
  {
    hide Read, CopyCost, LookRoot;
  }

  /** So for messages whose looks charge for what they reach the framed bytes are stable. */
  lemma FramedTwice(segs: Segs)
    requires CanonicalCode(segs) == OK && MessageCharged(segs) && Value(segs).Some?
    ensures var out := [CanonicalWords(segs)];
            && Parse(Flat(out)) == Ok(out)
            && MessageSound(out) && CanonicalCode(out) == OK && Value(out).Some?
            && Flat([CanonicalWords(out)]) == Flat(out)
  {
    hide MessageSound, CanonicalCode, Value, Encode, Trim, Flat, Parse, MessageCharged;
    OutputBounded(segs);
    CanonicalTwice(segs);
    FlatParses(CanonicalWords(segs));
  }
}
