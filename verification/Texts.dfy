/** Text and List(Text): what the builder writes for them, and what the readers make of it. */
module Texts {
  import opened Options
  import opened Bytes
  import opened WirePointer
  import opened Message
  import opened WordBytes
  import opened Frames

  /** The words of a Text: its bytes and a NUL, padded with zeros. */
  function TextWords(text: seq<byte>): (n: nat)
    ensures 8 * n >= |text| + 1
  {
    (|text| + 1 + 7) / 8
  }

  function TextBlock(text: seq<byte>): (ws: seq<Word>)
    ensures |ws| == TextWords(text)
  {
    var n := TextWords(text);
    WordsOf(text + Zeros(8 * n - |text|), n)
  }

  /** The Text a byte list holds: its bytes without the trailing NUL. */
  function TextIn(v: Segs, list: Ptr): Option<seq<byte>>
    requires list.List?
  {
    var n := ListWords(SZ_BYTE, list.count);
    if n > 0 && !(list.seg < |v| && 0 <= list.word && list.word + n <= |v[list.seg]|) then None
    else
      var bytes := if n == 0 then [] else BytesOf(v[list.seg][list.word..list.word + n])[..list.count];
      Some(if list.count > 0 && bytes[list.count - 1] == 0 then bytes[..list.count - 1] else bytes)
  }

  /** The words of a Text at (seg, at). */
  predicate BlockAt(v: Segs, seg: nat, at: nat, ws: seq<Word>)
  {
    seg < |v| && at + |ws| <= |v[seg]| && v[seg][at..at + |ws|] == ws
  }

  /** A text block reads back as the text, embedded NULs included. */
  lemma TextBlockReads(v: Segs, seg: nat, at: nat, text: seq<byte>)
    requires BlockAt(v, seg, at, TextBlock(text))
    ensures TextIn(v, List(seg, at, SZ_BYTE, |text| + 1, 0, 0)) == Some(text)
  {
    hide BytesOf, WordsOf;
    var n := TextWords(text);
    var padded := text + Zeros(8 * n - |text|);
    BytesOfWords(padded, n);
    assert ListWords(SZ_BYTE, |text| + 1) == n;
    assert padded[..|text| + 1][..|text|] == text;
  }

  /** Its bytes are the text's, at least one zero, and zeros to the end of the word. */
  lemma TextBlockBytes(text: seq<byte>)
    ensures var n := TextWords(text);
            && BytesOf(TextBlock(text)) == text + Zeros(8 * n - |text|)
            && 8 * (n - 1) < |text| + 1 <= 8 * n
  {
    hide BytesOf, WordsOf;
    var n := TextWords(text);
    BytesOfWords(text + Zeros(8 * n - |text|), n);
  }

  lemma BlockKept(a: Segs, b: Segs, changed: set<Loc>, seg: nat, at: nat, ws: seq<Word>)
    requires SameExcept(a, b, changed) && BlockAt(a, seg, at, ws)
    requires forall k :: at <= k < at + |ws| ==> Loc(seg, k) !in changed
    ensures BlockAt(b, seg, at, ws)
  {
    forall k | 0 <= k < |ws|
      ensures at + k < |b[seg]| && b[seg][at + k] == ws[k]
    {
      assert SameAt(a, b, Loc(seg, at + k));
      assert a[seg][at + k] == a[seg][at..at + |ws|][k];
    }
  }

  // ---- what a slot holding a Text depends on -------------------------------------------------

  /** Where a Text was written for a slot. */
  datatype Place = Place(seg: nat, at: nat)

  /** The slot leads to the text at pl; the pads on the way and the text's block are new since v0. */
  ghost predicate Holds(v0: Segs, v: Segs, slot: Loc, pl: Place, text: seq<byte>)
  {
    var l := LookAt(v, slot.seg, slot.word);
    && InBounds(v, slot.seg, slot.word)
    && l.Found? && l.ptr == List(pl.seg, pl.at, SZ_BYTE, |text| + 1, 0, 0) && l.cost <= 3 + TextWords(text)
    && BlockAt(v, pl.seg, pl.at, TextBlock(text))
    && (forall p :: p in SlotFootprint(v, slot.seg, slot.word) ==> !InBounds(v0, p.seg, p.word))
    && (forall k :: pl.at <= k < pl.at + TextWords(text) ==> !InBounds(v0, pl.seg, k))
  }

  /** A text stays while other words that were there before it change. */
  lemma HoldsKept(v0: Segs, a: Segs, b: Segs, slot: Loc, pl: Place, text: seq<byte>, changed: Loc)
    requires Holds(v0, a, slot, pl, text) && SameExcept(a, b, {changed})
    requires changed != slot && InBounds(v0, changed.seg, changed.word)
    ensures Holds(v0, b, slot, pl, text)
  {
    hide LookAt, SlotFootprint, TextBlock, InBounds, SameExcept;
    assert SameAt(a, b, slot) by { SameOther(a, b, {changed}, slot); }
    forall p | p in SlotFootprint(a, slot.seg, slot.word)
      ensures SameAt(a, b, p)
    {
      SameOther(a, b, {changed}, p);
    }
    GrownBy(a, b, {changed});
    SlotFrame(a, b, slot.seg, slot.word);
    BlockKept(a, b, {changed}, pl.seg, pl.at, TextBlock(text));
    assert InBounds(b, slot.seg, slot.word) by { SameInside(a, b, slot); }
  }

  lemma SameOther(a: Segs, b: Segs, changed: set<Loc>, l: Loc)
    requires SameExcept(a, b, changed) && l !in changed
    ensures SameAt(a, b, l)
  {
  }

  lemma SameInside(a: Segs, b: Segs, l: Loc)
    requires SameAt(a, b, l) && InBounds(a, l.seg, l.word)
    ensures InBounds(b, l.seg, l.word)
  {
  }
}
