/** Little-endian numbers: capnp_load_le* and capnp_store_le*. */
module WordBytes {
  import opened Bytes
  import opened WirePointer

  function Pow256(k: nat): (p: nat)
    ensures p > 0
  {
    if k == 0 then 1 else 256 * Pow256(k - 1)
  }

  /** The number whose little-endian bytes are bs. */
  function Load(bs: seq<byte>): (n: nat)
    ensures n < Pow256(|bs|)
  {
    if bs == [] then 0 else bs[0] + 256 * Load(bs[1..])
  }

  /** The low k bytes of n. */
  function Store(n: nat, k: nat): (bs: seq<byte>)
    ensures |bs| == k
    decreases k
  {
    if k == 0 then [] else [n % 256] + Store(n / 256, k - 1)
  }

  lemma {:induction false} LoadStored(n: nat, k: nat)
    requires n < Pow256(k)
    ensures Load(Store(n, k)) == n
    decreases k
  {
    if k > 0 {
      assert n / 256 < Pow256(k - 1);
      LoadStored(n / 256, k - 1);
      assert Store(n, k)[1..] == Store(n / 256, k - 1);
    }
  }

  lemma {:induction false} StoreLoaded(bs: seq<byte>)
    ensures Store(Load(bs), |bs|) == bs
    decreases |bs|
  {
    if bs != [] {
      StoreLoaded(bs[1..]);
      assert Load(bs) % 256 == bs[0] && Load(bs) / 256 == Load(bs[1..]);
    }
  }

  lemma Widths()
    ensures Pow256(2) == TWO_16 && Pow256(4) == TWO_32 && Pow256(8) == TWO_64
  {
    assert Pow256(2) == 256 * Pow256(1);
    assert Pow256(4) == 256 * 256 * Pow256(2);
    assert Pow256(6) == 256 * 256 * Pow256(4);
  }

  /** capnp_load_le64 */
  function WordOf(bs: seq<byte>): Word
    requires |bs| == 8
  {
    Widths();
    Load(bs)
  }

  /** The bytes of words in order. */
  function BytesOf(ws: seq<Word>): (bs: seq<byte>)
    ensures |bs| == 8 * |ws|
  {
    if ws == [] then [] else BytesOf(ws[..|ws| - 1]) + Store(ws[|ws| - 1], 8)
  }

  /** The words of whole bytes in order. */
  function WordsOf(bs: seq<byte>, n: nat): (ws: seq<Word>)
    requires |bs| == 8 * n
    ensures |ws| == n
    decreases n
  {
    if n == 0 then [] else WordsOf(bs[..8 * (n - 1)], n - 1) + [WordOf(bs[8 * (n - 1)..])]
  }

  lemma BytesSnoc(a: seq<Word>, w: Word)
    ensures BytesOf(a + [w]) == BytesOf(a) + Store(w, 8)
  {
    hide Store;
    assert (a + [w])[..|a|] == a;
  }

  lemma WordsSnoc(bs: seq<byte>, last: seq<byte>, n: nat)
    requires |bs| == 8 * n && |last| == 8
    ensures WordsOf(bs + last, n + 1) == WordsOf(bs, n) + [WordOf(last)]
  {
    hide WordOf;
    assert (bs + last)[..8 * n] == bs;
    assert (bs + last)[8 * n..] == last;
  }

  lemma StoredWord(w: Word)
    ensures WordOf(Store(w, 8)) == w
  {
    hide Store;
    Widths();
    LoadStored(w, 8);
  }

  lemma StoredBytes(bs: seq<byte>)
    requires |bs| == 8
    ensures Store(WordOf(bs), 8) == bs
  {
    hide Store;
    StoreLoaded(bs);
  }

  lemma NoWords()
    ensures BytesOf([]) == [] && WordsOf([], 0) == []
  {
  }

  lemma SplitLast<T>(s: seq<T>)
    requires s != []
    ensures s == s[..|s| - 1] + [s[|s| - 1]]
  {
  }

  lemma LastWord(ws: seq<Word>)
    requires ws != []
    ensures BytesOf(ws) == BytesOf(ws[..|ws| - 1]) + Store(ws[|ws| - 1], 8)
  {
    hide Store, Pow256, Load, WordOf, WordsOf;
  }

  /** One more word on each side. */
  lemma WordAdded(before: seq<Word>, last: Word)
    requires WordsOf(BytesOf(before), |before|) == before
    ensures WordsOf(BytesOf(before) + Store(last, 8), |before| + 1) == before + [last]
  {
    hide Store, WordsOf, BytesOf, WordOf;
    WordsSnoc(BytesOf(before), Store(last, 8), |before|);
    StoredWord(last);
  }

  lemma {:induction false} WordsOfBytes(ws: seq<Word>)
    ensures WordsOf(BytesOf(ws), |ws|) == ws
    decreases |ws|
  {
    hide Store, WordsOf, BytesOf, WordOf;
    if ws == [] {
      NoWords();
    } else {
      var n := |ws| - 1;
      WordsOfBytes(ws[..n]);
      LastWord(ws);
      SplitLast(ws);
      WordAdded(ws[..n], ws[n]);
    }
  }

  lemma WordsLast(bs: seq<byte>, n: nat)
    requires |bs| == 8 * n && n > 0
    ensures var m := 8 * (n - 1);
            WordsOf(bs, n) == WordsOf(bs[..m], n - 1) + [WordOf(bs[m..])] && bs == bs[..m] + bs[m..]
  {
    hide WordOf;
  }

  lemma BytesAdded(lo: seq<byte>, hi: seq<byte>, n: nat)
    requires |lo| == 8 * n && |hi| == 8 && BytesOf(WordsOf(lo, n)) == lo
    ensures BytesOf(WordsOf(lo, n) + [WordOf(hi)]) == lo + hi
  {
    hide Store, WordsOf, BytesOf, WordOf;
    StoredBytes(hi);
    BytesSnoc(WordsOf(lo, n), WordOf(hi));
  }

  lemma {:induction false} BytesOfWords(bs: seq<byte>, n: nat)
    requires |bs| == 8 * n
    ensures BytesOf(WordsOf(bs, n)) == bs
    decreases n
  {
    hide Store, BytesOf, WordsOf, Load, Pow256, WordOf;
    if n == 0 {
      NoWords();
    } else {
      var m := 8 * (n - 1);
      BytesOfWords(bs[..m], n - 1);
      WordsLast(bs, n);
      BytesAdded(bs[..m], bs[m..], n - 1);
    }
  }
}
