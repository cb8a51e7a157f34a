/** 64-bit pointer words, as capnp_pointer.h packs them. Shifts and masks are
    written as division and remainder by powers of two; a bitwise or of
    disjoint fields is a sum. */
module WirePointer {
  import Arith

  const TWO_16 := 0x1_0000
  const TWO_29 := 0x2000_0000
  const TWO_30 := 0x4000_0000
  const TWO_32 := 0x1_0000_0000
  const TWO_64 := 0x1_0000_0000_0000_0000

  type Word = w: int | 0 <= w < 0x1_0000_0000_0000_0000

  function ZeroWords(n: nat): (ws: seq<Word>)
    ensures |ws| == n
  {
    seq(n, _ => 0)
  }

  /** CAPNP_WK_* */
  const KIND_STRUCT := 0
  const KIND_LIST := 1
  const KIND_FAR := 2
  const KIND_CAP := 3

  /** CAPNP_SZ_* */
  const SZ_VOID := 0
  const SZ_BIT := 1
  const SZ_BYTE := 2
  const SZ_TWO := 3
  const SZ_FOUR := 4
  const SZ_EIGHT := 5
  const SZ_PTR := 6
  const SZ_COMPOSITE := 7

  // ---- decoding -----------------------------------------------------------

  function Kind(w: Word): (k: int)
    ensures 0 <= k < 4
  {
    w % 4
  }

  /** The signed 30-bit word offset. */
  function Offset(w: Word): (off: int)
    ensures -TWO_29 <= off < TWO_29
  {
    var u := w / 4 % TWO_30;
    if u >= TWO_29 then u - TWO_30 else u
  }

  function StructDwords(w: Word): (n: nat)
    ensures n < TWO_16
  {
    w / TWO_32 % TWO_16
  }

  function StructPwords(w: Word): (n: nat)
    ensures n < TWO_16
  {
    w / 0x1_0000_0000_0000
  }

  function ListEsize(w: Word): (e: nat)
    ensures e < 8
  {
    w / TWO_32 % 8
  }

  function ListCount(w: Word): (n: nat)
    ensures n < TWO_29
  {
    w / 0x8_0000_0000
  }

  predicate FarTwo(w: Word)
  {
    w / 4 % 2 == 1
  }

  function FarOff(w: Word): (n: nat)
    ensures n < TWO_29
  {
    w / 8 % TWO_29
  }

  function FarSeg(w: Word): (n: nat)
    ensures n < TWO_32
  {
    w / TWO_32
  }

  function CapIndex(w: Word): (n: nat)
    ensures n < TWO_32
  {
    w / TWO_32
  }

  // ---- encoding: each argument is cut to the width of its field -----------

  function MakeStruct(off: int, dw: nat, pw: nat): Word
  {
    off % TWO_30 * 4 + dw % TWO_16 * TWO_32 + pw % TWO_16 * 0x1_0000_0000_0000
  }

  function MakeList(off: int, esize: nat, count: nat): Word
  {
    1 + off % TWO_30 * 4 + esize % 8 * TWO_32 + count % TWO_29 * 0x8_0000_0000
  }

  function MakeFar(two: bool, off: nat, seg: nat): Word
  {
    2 + (if two then 4 else 0) + off % TWO_29 * 8 + seg % TWO_32 * TWO_32
  }

  function MakeCap(index: nat): Word
  {
    3 + index % TWO_32 * TWO_32
  }

  // ---- every field decodes to itself ----------------------------------------

  lemma StructParts(u: nat, d: nat, p: nat)
    requires u < TWO_30 && d < TWO_16 && p < TWO_16
    ensures var w: int := u * 4 + d * TWO_32 + p * 0x1_0000_0000_0000;
            w % 4 == 0 && w / 4 % TWO_30 == u && w / TWO_32 % TWO_16 == d && w / 0x1_0000_0000_0000 == p
  {
    var high := p * TWO_16 + d;
    Arith.DivMod(high * TWO_30 + u, 0, 4);
    Arith.DivMod(high, u, TWO_30);
    Arith.DivMod(high, u * 4, TWO_32);
    Arith.DivMod(p, d, TWO_16);
    Arith.DivMod(p, d * TWO_32 + u * 4, 0x1_0000_0000_0000);
  }

  lemma StructFields(off: int, dw: nat, pw: nat)
    requires dw < TWO_16 && pw < TWO_16
    ensures var w := MakeStruct(off, dw, pw);
            && Kind(w) == KIND_STRUCT && StructDwords(w) == dw && StructPwords(w) == pw
            && (-TWO_29 <= off < TWO_29 ==> Offset(w) == off)
            && (w == 0 <==> off % TWO_30 == 0 && dw == 0 && pw == 0)
  {
    assert dw % TWO_16 == dw && pw % TWO_16 == pw;
    StructParts(off % TWO_30, dw, pw);
  }

  lemma ListParts(u: nat, e: nat, c: nat)
    requires u < TWO_30 && e < 8 && c < TWO_29
    ensures var w: int := 1 + u * 4 + e * TWO_32 + c * 0x8_0000_0000;
            w % 4 == 1 && w / 4 % TWO_30 == u && w / TWO_32 % 8 == e && w / 0x8_0000_0000 == c
  {
    var high := c * 8 + e;
    Arith.DivMod(high * TWO_30 + u, 1, 4);
    Arith.DivMod(high, u, TWO_30);
    Arith.DivMod(high, u * 4 + 1, TWO_32);
    Arith.DivMod(c, e, 8);
    Arith.DivMod(c, e * TWO_32 + u * 4 + 1, 0x8_0000_0000);
  }

  lemma ListFields(off: int, esize: nat, count: nat)
    requires esize < 8
    ensures var w := MakeList(off, esize, count);
            && Kind(w) == KIND_LIST && ListEsize(w) == esize && w != 0
            && (count < TWO_29 ==> ListCount(w) == count)
            && (-TWO_29 <= off < TWO_29 ==> Offset(w) == off)
  {
    assert esize % 8 == esize;
    ListParts(off % TWO_30, esize, count % TWO_29);
  }

  lemma FarParts(t: nat, u: nat, s: nat)
    requires t < 2 && u < TWO_29 && s < TWO_32
    ensures var w: int := 2 + t * 4 + u * 8 + s * TWO_32;
            w % 4 == 2 && w / 4 % 2 == t && w / 8 % TWO_29 == u && w / TWO_32 == s
  {
    var rest := s * TWO_29 + u;
    Arith.DivMod(rest * 2 + t, 2, 4);
    Arith.DivMod(rest, t, 2);
    Arith.DivMod(rest, t * 4 + 2, 8);
    Arith.DivMod(s, u, TWO_29);
    Arith.DivMod(s, u * 8 + t * 4 + 2, TWO_32);
  }

  lemma FarFields(two: bool, off: nat, seg: nat)
    requires seg < TWO_32
    ensures var w := MakeFar(two, off, seg);
            && Kind(w) == KIND_FAR && FarTwo(w) == two && FarSeg(w) == seg && w != 0
            && (off < TWO_29 ==> FarOff(w) == off)
  {
    assert seg % TWO_32 == seg;
    FarParts(if two then 1 else 0, off % TWO_29, seg);
  }

  lemma CapFields(index: nat)
    requires index < TWO_32
    ensures var w := MakeCap(index);
            Kind(w) == KIND_CAP && CapIndex(w) == index && w != 0
  {
    assert index % TWO_32 == index;
    var w := 3 + index * TWO_32;
    assert w / TWO_32 == index;
    assert w % 4 == 3;
  }

  /** Conversely, a struct, list or far word is rebuilt from its fields: no bit of it is ignored. */
  lemma StructDetermined(w: Word)
    requires Kind(w) == KIND_STRUCT
    ensures w == MakeStruct(Offset(w), StructDwords(w), StructPwords(w))
  {
    var high := Split(w);
    assert high == high / TWO_16 * TWO_16 + StructDwords(w);
    assert w / 0x1_0000_0000_0000 == high / TWO_16;
  }

  lemma ListDetermined(w: Word)
    requires Kind(w) == KIND_LIST
    ensures w == MakeList(Offset(w), ListEsize(w), ListCount(w))
  {
    var high := Split(w);
    assert high == high / 8 * 8 + ListEsize(w);
    assert w / 0x8_0000_0000 == high / 8;
  }

  lemma FarDetermined(w: Word)
    requires Kind(w) == KIND_FAR
    ensures w == MakeFar(FarTwo(w), FarOff(w), FarSeg(w))
  {
    var two, off, seg := w / 4 % 2, w / 8 % TWO_29, w / TWO_32;
    assert w / 4 == two + 2 * (w / 8);
    assert w / 8 == off + TWO_29 * seg;
  }

  lemma Split(w: Word) returns (high: nat)
    ensures high == w / TWO_32
    ensures w == Kind(w) + 4 * (Offset(w) % TWO_30) + TWO_32 * high
  {
    high := w / TWO_32;
    var u := w / 4 % TWO_30;
    assert w / 4 == u + TWO_30 * high;
    assert Offset(w) % TWO_30 == u;
  }

  /** The tag word of a composite list keeps its element count in the offset field:
      a 30-bit two's complement number, sign-extended to 32 bits on reading. */
  function TagCount(w: Word): (n: nat)
    ensures n < TWO_32
  {
    if Offset(w) < 0 then Offset(w) + TWO_32 else Offset(w)
  }

  predicate CountFits(n: nat)
  {
    n < TWO_29 || TWO_32 - TWO_29 <= n < TWO_32
  }

  /** The count of a tag word is read back exactly when it fits. */
  lemma TagFields(n: nat, dw: nat, pw: nat)
    requires dw < TWO_16 && pw < TWO_16
    ensures TagCount(MakeStruct(n, dw, pw)) == n <==> CountFits(n)
  {
    if n < TWO_29 {
      StructFields(n, dw, pw);
    } else if CountFits(n) {
      assert n % TWO_30 == (n - TWO_32) % TWO_30;
      StructFields(n - TWO_32, dw, pw);
    } else {
      CountRange(MakeStruct(n, dw, pw));
    }
  }

  lemma CountRange(w: Word)
    ensures CountFits(TagCount(w))
  {
    hide Offset;
  }
}
