/** The packed codec of capnp_packed.c: what it computes, as functions. */
module Packed {
  import opened Options
  import opened Bytes

  // ---- one word ---------------------------------------------------------

  function Bit(k: nat): (p: int)
    requires k < 8
    ensures 1 <= p <= 128
  {
    if k == 0 then 1 else if k == 1 then 2 else if k == 2 then 4 else if k == 3 then 8
    else if k == 4 then 16 else if k == 5 then 32 else if k == 6 then 64 else 128
  }

  /** `tag & (1u << k)` */
  predicate HasBit(tag: byte, k: nat)
    requires k < 8
  {
    tag / Bit(k) % 2 == 1
  }

  /** The tag bits of the first k bytes: one per nonzero byte. */
  function TagOf(word: seq<byte>, k: nat): (tag: int)
    requires k <= |word| == 8
    ensures 0 <= tag < if k == 8 then 256 else Bit(k)
  {
    if k == 0 then 0 else TagOf(word, k - 1) + if word[k - 1] != 0 then Bit(k - 1) else 0
  }

  /** The bytes the tag announces, among the first k. */
  function Literals(word: seq<byte>, k: nat): (lits: seq<byte>)
    requires k <= |word|
    ensures |lits| <= k
    ensures forall i :: 0 <= i < |lits| ==> lits[i] != 0
  {
    if k == 0 then []
    else Literals(word, k - 1) + if word[k - 1] != 0 then [word[k - 1]] else []
  }

  predicate AllZero(word: seq<byte>)
    requires |word| == 8
  {
    && word[0] == 0 && word[1] == 0 && word[2] == 0 && word[3] == 0
    && word[4] == 0 && word[5] == 0 && word[6] == 0 && word[7] == 0
  }

  /** Zero bytes among the first k. */
  function ZeroCount(word: seq<byte>, k: nat): (z: nat)
    requires k <= |word|
    ensures z <= k
    ensures z + |Literals(word, k)| == k
  {
    if k == 0 then 0 else ZeroCount(word, k - 1) + if word[k - 1] == 0 then 1 else 0
  }

  predicate FewerThanTwoZeros(word: seq<byte>)
    requires |word| == 8
  {
    ZeroCount(word, 8) < 2
  }

  lemma Half(t: nat, b: nat, rest: nat)
    requires b < 2 && t == b + 2 * rest
    ensures t % 2 == b && t / 2 == rest
  {
  }

  lemma Halves(t: nat)
    ensures t / 4 == t / 2 / 2 && t / 8 == t / 4 / 2 && t / 16 == t / 8 / 2
    ensures t / 32 == t / 16 / 2 && t / 64 == t / 32 / 2 && t / 128 == t / 64 / 2
  {
  }

  /** Bits read back from a sum of distinct powers of two. */
  lemma BitsOfSum(b0: nat, b1: nat, b2: nat, b3: nat, b4: nat, b5: nat, b6: nat, b7: nat)
    requires b0 < 2 && b1 < 2 && b2 < 2 && b3 < 2 && b4 < 2 && b5 < 2 && b6 < 2 && b7 < 2
    ensures var t := b0 + 2 * b1 + 4 * b2 + 8 * b3 + 16 * b4 + 32 * b5 + 64 * b6 + 128 * b7;
            && t % 2 == b0 && t / 2 % 2 == b1 && t / 4 % 2 == b2 && t / 8 % 2 == b3
            && t / 16 % 2 == b4 && t / 32 % 2 == b5 && t / 64 % 2 == b6 && t / 128 % 2 == b7
  {
    var r6 := b6 + 2 * b7;
    var r5 := b5 + 2 * r6;
    var r4 := b4 + 2 * r5;
    var r3 := b3 + 2 * r4;
    var r2 := b2 + 2 * r3;
    var r1 := b1 + 2 * r2;
    var t := b0 + 2 * r1;
    Halves(t);
    Half(t, b0, r1);
    Half(r1, b1, r2);
    Half(r2, b2, r3);
    Half(r3, b3, r4);
    Half(r4, b4, r5);
    Half(r5, b5, r6);
    Half(r6, b6, b7);
  }

  function Flag(word: seq<byte>, k: nat): (f: int)
    requires k < |word|
    ensures f == 0 || f == 1
  {
    if word[k] != 0 then 1 else 0
  }

  lemma TagSum(word: seq<byte>)
    requires |word| == 8
    ensures TagOf(word, 8)
         == Flag(word, 0) + 2 * Flag(word, 1) + 4 * Flag(word, 2) + 8 * Flag(word, 3)
          + 16 * Flag(word, 4) + 32 * Flag(word, 5) + 64 * Flag(word, 6) + 128 * Flag(word, 7)
  {
    assert TagOf(word, 1) == Flag(word, 0);
    assert TagOf(word, 2) == TagOf(word, 1) + 2 * Flag(word, 1);
    assert TagOf(word, 3) == TagOf(word, 2) + 4 * Flag(word, 2);
    assert TagOf(word, 4) == TagOf(word, 3) + 8 * Flag(word, 3);
    assert TagOf(word, 5) == TagOf(word, 4) + 16 * Flag(word, 4);
    assert TagOf(word, 6) == TagOf(word, 5) + 32 * Flag(word, 5);
    assert TagOf(word, 7) == TagOf(word, 6) + 64 * Flag(word, 6);
    assert TagOf(word, 8) == TagOf(word, 7) + 128 * Flag(word, 7);
  }

  lemma TagBits(word: seq<byte>)
    requires |word| == 8
    ensures forall k :: 0 <= k < 8 ==> (HasBit(TagOf(word, 8), k) <==> word[k] != 0)
  {
    TagSum(word);
    BitsOfSum(Flag(word, 0), Flag(word, 1), Flag(word, 2), Flag(word, 3),
              Flag(word, 4), Flag(word, 5), Flag(word, 6), Flag(word, 7));
  }

  // ---- packing ----------------------------------------------------------

  predicate Aligned(input: seq<byte>)
  {
    |input| % 8 == 0
  }

  function WordAt(input: seq<byte>, w: nat): (word: seq<byte>)
    requires 8 * w + 8 <= |input|
    ensures |word| == 8
  {
    input[8 * w..8 * w + 8]
  }

  /** Length of the run of zero words at w, at most cap. */
  function ZeroRun(input: seq<byte>, w: nat, cap: nat): (run: nat)
    requires Aligned(input) && 8 * w <= |input|
    ensures run <= cap && 8 * (w + run) <= |input|
    decreases cap
  {
    if cap == 0 || 8 * w == |input| || !AllZero(WordAt(input, w)) then 0
    else 1 + ZeroRun(input, w + 1, cap - 1)
  }

  /** Length of the run of words with at most one zero byte at w, at most cap. */
  function DenseRun(input: seq<byte>, w: nat, cap: nat): (run: nat)
    requires Aligned(input) && 8 * w <= |input|
    ensures run <= cap && 8 * (w + run) <= |input|
    decreases cap
  {
    if cap == 0 || 8 * w == |input| || !FewerThanTwoZeros(WordAt(input, w)) then 0
    else 1 + DenseRun(input, w + 1, cap - 1)
  }

  /** A zero run holds zero words only, and stops early only at one that is not. */
  lemma {:induction false} ZeroRunIs(input: seq<byte>, w: nat, cap: nat)
    requires Aligned(input) && 8 * w <= |input|
    ensures var run := ZeroRun(input, w, cap);
            && (forall i :: w <= i < w + run ==> AllZero(WordAt(input, i)))
            && (run < cap && 8 * (w + run) < |input| ==> !AllZero(WordAt(input, w + run)))
    decreases cap
  {
    hide AllZero, WordAt;
    if cap > 0 && 8 * w < |input| && AllZero(WordAt(input, w)) {
      ZeroRunIs(input, w + 1, cap - 1);
    }
  }

  lemma {:induction false} DenseRunIs(input: seq<byte>, w: nat, cap: nat)
    requires Aligned(input) && 8 * w <= |input|
    ensures var run := DenseRun(input, w, cap);
            && (forall i :: w <= i < w + run ==> FewerThanTwoZeros(WordAt(input, i)))
            && (run < cap && 8 * (w + run) < |input| ==> !FewerThanTwoZeros(WordAt(input, w + run)))
    decreases cap
  {
    hide FewerThanTwoZeros, WordAt;
    if cap > 0 && 8 * w < |input| && FewerThanTwoZeros(WordAt(input, w)) {
      DenseRunIs(input, w + 1, cap - 1);
    }
  }

  /** The words one tag covers, and the bytes emitted for them. */
  function ItemWords(input: seq<byte>, w: nat): (k: nat)
    requires Aligned(input) && 8 * w < |input|
    ensures k >= 1 && 8 * (w + k) <= |input|
  {
    var tag := TagOf(WordAt(input, w), 8);
    if tag == 0 then 1 + ZeroRun(input, w + 1, 255)
    else if ZeroCount(WordAt(input, w), 8) == 0 then 1 + DenseRun(input, w + 1, 255)
    else 1
  }

  function Item(input: seq<byte>, w: nat): (bytes: seq<byte>)
    requires Aligned(input) && 8 * w < |input|
  {
    [TagOf(WordAt(input, w), 8)] + Literals(WordAt(input, w), 8) + Tail(input, w)
  }

  /** What follows the literals of a word: a run count after the two extreme tags, and verbatim words. */
  function Tail(input: seq<byte>, w: nat): (bytes: seq<byte>)
    requires Aligned(input) && 8 * w < |input|
  {
    var run := ItemWords(input, w) - 1;
    if TagOf(WordAt(input, w), 8) == 0 then [run]
    else if ZeroCount(WordAt(input, w), 8) == 0 then [run] + input[8 * (w + 1)..8 * (w + 1 + run)]
    else []
  }

  /** The packed form of the words from w on. */
  function Pack(input: seq<byte>, w: nat): (packed: seq<byte>)
    requires Aligned(input) && 8 * w <= |input|
    decreases |input| - 8 * w
  {
    if 8 * w == |input| then []
    else Item(input, w) + Pack(input, w + ItemWords(input, w))
  }

  // ---- unpacking --------------------------------------------------------

  /** The first k bytes of a word under a tag, reading literals from s at i; and where reading stopped. */
  function Expand(tag: byte, s: seq<byte>, i: nat, k: nat): (r: Option<(seq<byte>, nat)>)
    requires k <= 8 && i <= |s|
    ensures r.Some? ==> |r.value.0| == k && i <= r.value.1 <= |s|
  {
    if k == 0 then Some(([], i))
    else
      match Expand(tag, s, i, k - 1)
      case None => None
      case Some((word, pos)) =>
        if !HasBit(tag, k - 1) then Some((word + [0], pos))
        else if pos >= |s| then None
        else Some((word + [s[pos]], pos + 1))
  }

  /** One tag and what it covers: the bytes produced, and the bytes consumed. */
  function Step(s: seq<byte>): (r: Option<(seq<byte>, nat)>)
    requires |s| > 0
    ensures r.Some? ==> 1 <= r.value.1 <= |s| && |r.value.0| % 8 == 0
  {
    match Expand(s[0], s, 1, 8)
    case None => None
    case Some((word, pos)) =>
      if s[0] == 0 then
        if pos >= |s| then None
        else var cnt: nat := s[pos]; Some((word + Zeros(8 * cnt), pos + 1))
      else if s[0] == 255 then
        if pos >= |s| then None
        else
          var cnt: nat := s[pos];
          if pos + 1 + 8 * cnt > |s| then None
          else Some((word + s[pos + 1..pos + 1 + 8 * cnt], pos + 1 + 8 * cnt))
      else Some((word, pos))
  }

  function Unpack(s: seq<byte>): (r: Option<seq<byte>>)
    decreases |s|
  {
    if s == [] then Some([])
    else
      match Step(s)
      case None => None
      case Some((bytes, used)) =>
        match Unpack(s[used..])
        case None => None
        case Some(rest) => Some(bytes + rest)
  }

  // ---- composition and expansion of unpack ------------------------------

  lemma {:induction false} ExpandPrefix(tag: byte, a: seq<byte>, b: seq<byte>, i: nat, k: nat)
    requires k <= 8 && i <= |a|
    requires Expand(tag, a, i, k).Some?
    ensures Expand(tag, a + b, i, k) == Expand(tag, a, i, k)
  {
    if k > 0 {
      ExpandPrefix(tag, a, b, i, k - 1);
    }
  }

  lemma StepPrefix(a: seq<byte>, b: seq<byte>)
    requires |a| > 0 && Step(a).Some?
    ensures Step(a + b) == Step(a)
  {
    ExpandPrefix(a[0], a, b, 1, 8);
    var pos := Expand(a[0], a, 1, 8).value.1;
    if a[0] == 255 {
      var cnt: nat := a[pos];
      assert (a + b)[pos + 1..pos + 1 + 8 * cnt] == a[pos + 1..pos + 1 + 8 * cnt];
    }
  }

  /** unpack(a ++ b) = unpack(a) ++ unpack(b), whenever a is accepted; b is rejected exactly when a ++ b is. */
  lemma {:induction false} UnpackComposes(a: seq<byte>, b: seq<byte>)
    requires Unpack(a).Some?
    ensures Unpack(a + b).Some? <==> Unpack(b).Some?
    ensures Unpack(b).Some? ==> Unpack(a + b).value == Unpack(a).value + Unpack(b).value
    decreases |a|
  {
    hide Step;
    if a == [] {
      assert a + b == b;
    } else {
      StepPrefix(a, b);
      var used := Step(a).value.1;
      assert (a + b)[used..] == a[used..] + b;
      UnpackComposes(a[used..], b);
    }
  }

  /** The output of unpack is whole words, at most 1024 times its input. */
  lemma {:induction false} UnpackExpansion(s: seq<byte>)
    requires Unpack(s).Some?
    ensures |Unpack(s).value| <= 1024 * |s|
    ensures Aligned(Unpack(s).value)
    decreases |s|
  {
    hide Step;
    if s != [] {
      StepExpansion(s);
      UnpackExpansion(s[Step(s).value.1..]);
    }
  }

  lemma StepExpansion(s: seq<byte>)
    requires |s| > 0 && Step(s).Some?
    ensures |Step(s).value.0| <= 1024 * Step(s).value.1
  {
    var pos := Expand(s[0], s, 1, 8).value.1;
    assert pos >= 1;
  }

  // ---- round trip -------------------------------------------------------

  lemma {:induction false} LiteralsPrefix(word: seq<byte>, j: nat, k: nat)
    requires j <= k <= |word|
    ensures Literals(word, j) <= Literals(word, k)
    decreases k - j
  {
    if j < k {
      LiteralsPrefix(word, j, k - 1);
    }
  }

  lemma {:induction false} ExpandInverts(word: seq<byte>, s: seq<byte>, k: nat)
    requires |word| == 8 && k <= 8
    requires [TagOf(word, 8)] + Literals(word, 8) <= s
    ensures Expand(TagOf(word, 8), s, 1, k) == Some((word[..k], 1 + |Literals(word, k)|))
  {
    hide HasBit, TagOf;
    if k > 0 {
      ExpandInverts(word, s, k - 1);
      TagBits(word);
      LiteralsPrefix(word, k, 8);
      assert word[..k] == word[..k - 1] + [word[k - 1]];
      if word[k - 1] != 0 {
        var pos := |Literals(word, k - 1)|;
        assert Literals(word, k)[pos] == word[k - 1];
        assert s[1 + pos] == ([TagOf(word, 8)] + Literals(word, 8))[1 + pos];
      }
    }
  }

  lemma CountSum(word: seq<byte>)
    requires |word| == 8
    ensures |Literals(word, 8)|
         == Flag(word, 0) + Flag(word, 1) + Flag(word, 2) + Flag(word, 3)
          + Flag(word, 4) + Flag(word, 5) + Flag(word, 6) + Flag(word, 7)
  {
    assert |Literals(word, 1)| == Flag(word, 0);
    assert |Literals(word, 2)| == |Literals(word, 1)| + Flag(word, 1);
    assert |Literals(word, 3)| == |Literals(word, 2)| + Flag(word, 2);
    assert |Literals(word, 4)| == |Literals(word, 3)| + Flag(word, 3);
    assert |Literals(word, 5)| == |Literals(word, 4)| + Flag(word, 4);
    assert |Literals(word, 6)| == |Literals(word, 5)| + Flag(word, 5);
    assert |Literals(word, 7)| == |Literals(word, 6)| + Flag(word, 6);
    assert |Literals(word, 8)| == |Literals(word, 7)| + Flag(word, 7);
  }

  /** The tests the two codecs make on a tag, in terms of the word. */
  lemma TagExtremes(word: seq<byte>)
    requires |word| == 8
    ensures TagOf(word, 8) == 0 <==> AllZero(word)
    ensures TagOf(word, 8) == 0 <==> Literals(word, 8) == []
    ensures TagOf(word, 8) == 255 <==> ZeroCount(word, 8) == 0
    ensures ZeroCount(word, 8) == 0 ==> !AllZero(word) && Literals(word, 8) == word
  {
    TagSum(word);
    CountSum(word);
    if ZeroCount(word, 8) == 0 {
      assert Flag(word, 0) == 1;
      AllLiterals(word, 8);
    }
  }

  lemma {:induction false} AllLiterals(word: seq<byte>, k: nat)
    requires k <= |word| && ZeroCount(word, k) == 0
    ensures Literals(word, k) == word[..k]
  {
    if k > 0 {
      AllLiterals(word, k - 1);
    }
  }

  lemma StepZeros(word: seq<byte>, count: byte, rest: seq<byte>)
    requires |word| == 8 && AllZero(word)
    ensures Step([0, count] + rest) == Some((Zeros(8 + 8 * count as int), 2))
  {
    hide HasBit, Literals, ZeroCount, Expand, TagOf;
    var s := [0, count] + rest;
    TagExtremes(word);
    ExpandInverts(word, s, 8);
    assert word[..8] + Zeros(8 * count as int) == Zeros(8 + 8 * count as int);
  }

  lemma ZeroItemInverts(input: seq<byte>, w: nat, rest: seq<byte>)
    requires Aligned(input) && 8 * w < |input| && AllZero(WordAt(input, w))
    ensures Step(Item(input, w) + rest) == Some((input[8 * w..8 * (w + ItemWords(input, w))], |Item(input, w)|))
  {
    hide Literals, ZeroCount, Step, TagOf, AllZero, ZeroRun, DenseRun, WordAt;
    var k := ItemWords(input, w);
    TagExtremes(WordAt(input, w));
    ZeroRunIs(input, w + 1, 255);
    ZeroWords(input, w, w + k);
    StepZeros(WordAt(input, w), k - 1, rest);
    assert Item(input, w) == [0, k - 1];
  }

  lemma StepVerbatim(word: seq<byte>, count: byte, run: seq<byte>, rest: seq<byte>)
    requires |word| == 8 && ZeroCount(word, 8) == 0 && |run| == 8 * count as int
    ensures Step([255] + word + [count] + run + rest) == Some((word + run, 10 + |run|))
  {
    hide HasBit, Literals, ZeroCount, Expand, TagOf, AllZero;
    var s := [255] + word + [count] + run + rest;
    TagExtremes(word);
    ExpandInverts(word, s, 8);
    assert word[..8] == word;
    assert s[9] == count;
    assert s[10..10 + |run|] == run;
  }

  lemma FullItemInverts(input: seq<byte>, w: nat, rest: seq<byte>)
    requires Aligned(input) && 8 * w < |input| && ZeroCount(WordAt(input, w), 8) == 0
    ensures Step(Item(input, w) + rest) == Some((input[8 * w..8 * (w + ItemWords(input, w))], |Item(input, w)|))
  {
    hide Literals, ZeroCount, Step, TagOf, AllZero, DenseRun, ZeroRun;
    var word := WordAt(input, w);
    var k := ItemWords(input, w);
    var run := input[8 * (w + 1)..8 * (w + k)];
    TagExtremes(word);
    assert Item(input, w) == [255] + word + [k - 1] + run;
    StepVerbatim(word, k - 1, run, rest);
    JoinSlices(input, 8 * w, 8 * (w + 1), 8 * (w + k));
  }

  lemma JoinSlices(s: seq<byte>, lo: nat, mid: nat, hi: nat)
    requires lo <= mid <= hi <= |s|
    ensures s[lo..mid] + s[mid..hi] == s[lo..hi]
  {
  }

  lemma OtherItemInverts(input: seq<byte>, w: nat, rest: seq<byte>)
    requires Aligned(input) && 8 * w < |input|
    requires !AllZero(WordAt(input, w)) && ZeroCount(WordAt(input, w), 8) > 0
    ensures Step(Item(input, w) + rest) == Some((input[8 * w..8 * (w + ItemWords(input, w))], |Item(input, w)|))
  {
    hide HasBit, Literals, ZeroCount, Expand, TagOf, AllZero;
    var word := WordAt(input, w);
    var s := Item(input, w) + rest;
    TagExtremes(word);
    assert Item(input, w) == [TagOf(word, 8)] + Literals(word, 8);
    ExpandInverts(word, s, 8);
    assert word[..8] == word;
  }

  /** Reading one item gives back exactly the words it covers, whatever follows. */
  lemma ItemInverts(input: seq<byte>, w: nat, rest: seq<byte>)
    requires Aligned(input) && 8 * w < |input|
    ensures |Item(input, w)| > 0
    ensures Step(Item(input, w) + rest) == Some((input[8 * w..8 * (w + ItemWords(input, w))], |Item(input, w)|))
  {
    hide Step, ItemWords, AllZero, ZeroCount, Literals, TagOf;
    if AllZero(WordAt(input, w)) {
      ZeroItemInverts(input, w, rest);
    } else if ZeroCount(WordAt(input, w), 8) == 0 {
      FullItemInverts(input, w, rest);
    } else {
      OtherItemInverts(input, w, rest);
    }
  }

  lemma ZeroWords(input: seq<byte>, from: nat, to: nat)
    requires Aligned(input) && from <= to && 8 * to <= |input|
    requires forall i :: from <= i < to ==> AllZero(WordAt(input, i))
    ensures input[8 * from..8 * to] == Zeros(8 * (to - from))
  {
    forall j | 0 <= j < 8 * (to - from)
      ensures input[8 * from..8 * to][j] == 0
    {
      var i := from + j / 8;
      assert AllZero(WordAt(input, i));
      assert input[8 * from + j] == WordAt(input, i)[j % 8];
    }
  }

  lemma UnpackCons(a: seq<byte>, b: seq<byte>, bytes: seq<byte>)
    requires |a| > 0 && Step(a + b) == Some((bytes, |a|)) && Unpack(b).Some?
    ensures Unpack(a + b) == Some(bytes + Unpack(b).value)
  {
    hide Step;
    assert (a + b)[|a|..] == b;
  }

  lemma {:induction false} PackInverts(input: seq<byte>, w: nat)
    requires Aligned(input) && 8 * w <= |input|
    ensures Unpack(Pack(input, w)) == Some(input[8 * w..])
    decreases |input| - 8 * w
  {
    hide Step, Item, ItemWords, Unpack;
    if 8 * w == |input| {
      assert input[8 * w..] == [] && Pack(input, w) == [];
      assert Unpack([]) == Some([]) by { EmptyUnpacks(); }
    } else {
      var k := ItemWords(input, w);
      var rest := Pack(input, w + k);
      ItemInverts(input, w, rest);
      PackInverts(input, w + k);
      UnpackCons(Item(input, w), rest, input[8 * w..8 * (w + k)]);
      assert input[8 * w..8 * (w + k)] + input[8 * (w + k)..] == input[8 * w..];
    }
  }

  lemma EmptyUnpacks()
    ensures Unpack([]) == Some([])
  {
  }

  /** unpack(pack(x)) == x for every word-aligned x. */
  lemma RoundTrip(input: seq<byte>)
    requires Aligned(input)
    ensures Unpack(Pack(input, 0)) == Some(input)
  {
    PackInverts(input, 0);
    assert input[0..] == input;
  }

  // ---- what each tag stands for -----------------------------------------

  /** k words from w on, as many as there are up to 256, are zero, and become two bytes. */
  predicate ZerosCollapse(input: seq<byte>, w: nat, k: nat, item: seq<byte>)
  {
    && Aligned(input) && 1 <= k <= 256 && 8 * (w + k) <= |input| && item == [0, k - 1]
    && (forall i :: w <= i < w + k ==> AllZero(WordAt(input, i)))
    && (k == 256 || 8 * (w + k) == |input| || !AllZero(WordAt(input, w + k)))
  }

  /** k words from w on, as many as there are up to 256, have at most one zero byte, and
      become the tag, the first of them, a count and the others as they are. */
  predicate DenseVerbatim(input: seq<byte>, w: nat, k: nat, item: seq<byte>)
  {
    && Aligned(input) && 1 <= k <= 256 && 8 * (w + k) <= |input|
    && item == [255] + WordAt(input, w) + [k - 1] + input[8 * (w + 1)..8 * (w + k)]
    && (forall i :: w <= i < w + k ==> ZeroCount(WordAt(input, i), 8) <= 1)
    && (k == 256 || 8 * (w + k) == |input| || ZeroCount(WordAt(input, w + k), 8) >= 2)
  }

  lemma ZeroItem(input: seq<byte>, w: nat)
    requires Aligned(input) && 8 * w < |input| && AllZero(WordAt(input, w))
    ensures ZerosCollapse(input, w, ItemWords(input, w), Item(input, w))
  {
    hide Literals, ZeroCount, TagOf, AllZero, ZeroRun, DenseRun, WordAt;
    TagExtremes(WordAt(input, w));
    ZeroRunIs(input, w + 1, 255);
  }

  lemma DenseItem(input: seq<byte>, w: nat)
    requires Aligned(input) && 8 * w < |input| && ZeroCount(WordAt(input, w), 8) == 0
    ensures DenseVerbatim(input, w, ItemWords(input, w), Item(input, w))
  {
    hide Literals, ZeroCount, TagOf, AllZero, ZeroRun, DenseRun, WordAt, FewerThanTwoZeros;
    TagExtremes(WordAt(input, w));
    DenseRunCounts(input, w + 1, 255);
  }

  /** A verbatim run, by the zero bytes of its words. */
  lemma DenseRunCounts(input: seq<byte>, w: nat, cap: nat)
    requires Aligned(input) && 8 * w <= |input|
    ensures var run := DenseRun(input, w, cap);
            && (forall i :: w <= i < w + run ==> ZeroCount(WordAt(input, i), 8) <= 1)
            && (run < cap && 8 * (w + run) < |input| ==> ZeroCount(WordAt(input, w + run), 8) >= 2)
  {
    hide DenseRun, WordAt, ZeroCount, Literals;
    DenseRunIs(input, w, cap);
  }

  /** Any other word becomes its tag and its nonzero bytes. */
  lemma OtherItem(input: seq<byte>, w: nat)
    requires Aligned(input) && 8 * w < |input|
    requires !AllZero(WordAt(input, w)) && ZeroCount(WordAt(input, w), 8) > 0
    ensures ItemWords(input, w) == 1 && Item(input, w) == [TagOf(WordAt(input, w), 8)] + Literals(WordAt(input, w), 8)
  {
    hide Literals, ZeroCount, TagOf, AllZero, ZeroRun, DenseRun, WordAt;
    TagExtremes(WordAt(input, w));
  }

  /** n zero words take two bytes for each 256 of them, or part of 256. */
  lemma {:induction false} ZerosPack(n: nat, w: nat)
    requires w <= n
    ensures |Pack(Zeros(8 * n), w)| == 2 * ((n - w + 255) / 256)
    decreases n - w
  {
    hide Item, ItemWords, Zeros;
    var input := Zeros(8 * n);
    if w < n {
      var k := ItemWords(input, w);
      ZeroAt(n, w);
      ZeroItem(input, w);
      if w + k < n {
        ZeroAt(n, w + k);
      }
      ZerosPack(n, w + k);
      assert Pack(input, w) == Item(input, w) + Pack(input, w + k);
    }
  }

  lemma ZeroAt(n: nat, w: nat)
    requires w < n
    ensures AllZero(WordAt(Zeros(8 * n), w))
  {
  }

  // ---- how much packing can expand --------------------------------------

  /** 2L <= 17n + 3 for n words packed into L bytes; and 2L <= 17n unless the
      first word is dense, since whatever follows a dense run is not. */
  lemma {:induction false} PackBound(input: seq<byte>, n: nat, w: nat)
    requires |input| == 8 * n && w <= n
    ensures 2 * |Pack(input, w)| <= 17 * (n - w) + 3
    ensures w == n || !FewerThanTwoZeros(WordAt(input, w)) ==> 2 * |Pack(input, w)| <= 17 * (n - w)
    decreases n - w
  {
    hide TagOf, Literals, ZeroCount, Item, AllZero, ItemWords, WordAt, Pack, FewerThanTwoZeros;
    if w == n {
      PackEnd(input, n);
    } else {
      PackLength(input, n, w);
      PackBound(input, n, w + ItemWords(input, w));
    }
  }

  lemma DenseMeans(word: seq<byte>)
    requires |word| == 8
    ensures FewerThanTwoZeros(word) <==> ZeroCount(word, 8) < 2
  {
  }

  lemma PackEnd(input: seq<byte>, n: nat)
    requires |input| == 8 * n
    ensures Pack(input, n) == []
  {
  }

  lemma PackLength(input: seq<byte>, n: nat, w: nat)
    requires |input| == 8 * n && w < n
    ensures var word := WordAt(input, w);
            var k := ItemWords(input, w);
            && |Pack(input, w)| == |Pack(input, w + k)| +
                 (if AllZero(word) then 2
                  else if ZeroCount(word, 8) == 0 then 10 + 8 * (k - 1)
                  else 9 - ZeroCount(word, 8))
            && (FewerThanTwoZeros(word) <==> ZeroCount(word, 8) < 2)
            && (AllZero(word) ==> ZeroCount(word, 8) == 8)
            && (ZeroCount(word, 8) != 0 && !AllZero(word) ==> k == 1)
            && (ZeroCount(word, 8) == 0 && k < 256 && w + k < n ==> !FewerThanTwoZeros(WordAt(input, w + k)))
            && k <= 256
  {
    hide TagOf, Literals, ZeroCount, Item, WordAt, FewerThanTwoZeros, DenseRun, ZeroRun;
    ItemLength(input, w);
    DenseRunIs(input, w + 1, 255);
    assert FewerThanTwoZeros(WordAt(input, w)) <==> ZeroCount(WordAt(input, w), 8) < 2 by { DenseMeans(WordAt(input, w)); }
    TagExtremes(WordAt(input, w));
    assert AllZero(WordAt(input, w)) ==> |Literals(WordAt(input, w), 8)| == 0;
  }

  lemma ItemLength(input: seq<byte>, w: nat)
    requires Aligned(input) && 8 * w < |input|
    ensures var word := WordAt(input, w);
            var k := ItemWords(input, w);
            |Item(input, w)| == if AllZero(word) then 2
                                else if ZeroCount(word, 8) == 0 then 10 + 8 * (k - 1)
                                else 9 - ZeroCount(word, 8)
    ensures !AllZero(WordAt(input, w)) && ZeroCount(WordAt(input, w), 8) > 0 ==> ItemWords(input, w) == 1
    ensures !AllZero(WordAt(input, w)) && ZeroCount(WordAt(input, w), 8) == 0 ==>
              ItemWords(input, w) == 1 + DenseRun(input, w + 1, 255)
  {
    hide TagOf, Literals, ZeroCount;
    TagExtremes(WordAt(input, w));
  }

  /** n words, those at odd places with two zero bytes and the others with none. */
  function Alternating(n: nat): (input: seq<byte>)
    ensures |input| == 8 * n
  {
    seq(8 * n, i => if i / 8 % 2 == 1 && i % 8 < 2 then 0 else 1)
  }

  lemma AlternatingZeros(n: nat, w: nat)
    requires w < n
    ensures ZeroCount(WordAt(Alternating(n), w), 8) == if w % 2 == 0 then 0 else 2
    ensures !AllZero(WordAt(Alternating(n), w))
  {
    hide ZeroCount, Literals;
    var word := WordAt(Alternating(n), w);
    CountSum(word);
    forall j | 0 <= j < 8
      ensures word[j] == if w % 2 == 1 && j < 2 then 0 else 1
    {
      assert word[j] == Alternating(n)[8 * w + j];
      assert (8 * w + j) / 8 == w && (8 * w + j) % 8 == j;
    }
  }

  lemma {:induction false} AlternatingLength(n: nat, w: nat)
    requires w <= n && n % 2 == 1
    ensures 2 * |Pack(Alternating(n), w)| == 17 * (n - w) + if w % 2 == 0 then 3 else 0
    decreases n - w
  {
    hide TagOf, Literals, ZeroCount, Item, AllZero, ItemWords, WordAt, Pack, FewerThanTwoZeros, Alternating;
    var input := Alternating(n);
    if w == n {
      PackEnd(input, n);
    } else {
      PackLength(input, n, w);
      AlternatingZeros(n, w);
      if w % 2 == 0 {
        AlternatingRun(n, w);
      }
      AlternatingLength(n, w + 1);
    }
  }

  lemma AlternatingRun(n: nat, w: nat)
    requires w < n && w % 2 == 0
    ensures ItemWords(Alternating(n), w) == 1
  {
    hide TagOf, Literals, ZeroCount, AllZero, WordAt, Alternating;
    AlternatingZeros(n, w);
    ItemLength(Alternating(n), w);
    if w + 1 < n {
      AlternatingZeros(n, w + 1);
    }
  }

  /** No better bound holds: every odd number of words has an input that attains it. */
  lemma BoundAttained(n: nat)
    requires n % 2 == 1
    ensures exists input: seq<byte> :: |input| == 8 * n && 2 * |Pack(input, 0)| == 17 * n + 3
  {
    AlternatingLength(n, 0);
    assert |Alternating(n)| == 8 * n;
  }
}
