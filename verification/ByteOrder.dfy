/** Where the bytes of a number and the fields of a pointer word are. */
module ByteOrder {
  import opened WirePointer
  import opened WordBytes

  /** Byte i of a stored number is its digit i in base 256, lowest first. */
  lemma {:induction false} StoredDigit(n: nat, k: nat, i: nat)
    requires i < k
    ensures Store(n, k)[i] == n / Pow256(i) % 256
    decreases k
  {
    if i > 0 {
      StoredDigit(n / 256, k - 1, i - 1);
      assert Store(n, k)[i] == Store(n / 256, k - 1)[i - 1];
      DivDiv(n, Pow256(i - 1));
    }
  }

  lemma DivDiv(n: nat, p: nat)
    requires p > 0
    ensures n / 256 / p == n / (256 * p)
  {
    var q, r := n / 256, n % 256;
    var x, y := q / p, q % p;
    assert n == 256 * (p * x + y) + r == (256 * p) * x + (256 * y + r);
    assert 256 * y + r < 256 * p;
    Quotient(n, 256 * p, x, 256 * y + r);
  }

  lemma Quotient(n: nat, d: nat, q: nat, r: nat)
    requires d > 0 && n == d * q + r && r < d
    ensures n / d == q
  {
    Arith.Unique(n / d, n % d, q, r, d);
  }

  /** Bytes lo.. of a stored number hold the part of it between those powers. */
  lemma {:induction false} LoadedPart(n: nat, k: nat, lo: nat, m: nat)
    requires lo + m <= k
    ensures Load(Store(n, k)[lo..lo + m]) == n / Pow256(lo) % Pow256(m)
    decreases k
  {
    hide Load;
    if lo > 0 {
      LoadedPart(n / 256, k - 1, lo - 1, m);
      assert Store(n, k)[lo..lo + m] == Store(n / 256, k - 1)[lo - 1..lo - 1 + m];
      DivDiv(n, Pow256(lo - 1));
    } else {
      assert Store(n, k)[lo..lo + m] == Store(n, k)[..m];
      LoadedLow(n, k, m);
      assert n / Pow256(0) == n;
    }
  }

  lemma {:induction false} LoadedLow(n: nat, k: nat, m: nat)
    requires m <= k
    ensures Load(Store(n, k)[..m]) == n % Pow256(m)
    decreases k
  {
    if m > 0 {
      var bs := Store(n, k)[..m];
      LoadedLow(n / 256, k - 1, m - 1);
      assert bs[0] == n % 256;
      assert bs[1..] == Store(n / 256, k - 1)[..m - 1];
      ModMod(n, Pow256(m - 1));
    }
  }

  lemma ModMod(n: nat, p: nat)
    requires p > 0
    ensures n % (256 * p) == n % 256 + 256 * (n / 256 % p)
  {
    var q, r := n / 256, n % 256;
    var x, y := q / p, q % p;
    assert n == 256 * (p * x + y) + r == (256 * p) * x + (256 * y + r);
    Arith.Unique(n / (256 * p), n % (256 * p), x, 256 * y + r, 256 * p);
  }

  lemma Powers()
    ensures Pow256(0) == 1 && Pow256(2) == TWO_16 && Pow256(4) == TWO_32 && Pow256(6) == 0x1_0000_0000_0000
  {
    Widths();
    assert Pow256(6) == 256 * 256 * Pow256(4);
  }

  /** The bytes of a word: its low half, the two quarters of its high half, and all of that. */
  lemma Halves(w: Word)
    ensures var b := Store(w, 8);
            && Load(b[0..4]) == w % TWO_32 && Load(b[4..8]) == w / TWO_32
            && Load(b[4..6]) == w / TWO_32 % TWO_16 && Load(b[6..8]) == w / 0x1_0000_0000_0000
  {
    hide Load, Store, Pow256;
    Powers();
    LoadedPart(w, 8, 0, 4);
    LoadedPart(w, 8, 4, 4);
    LoadedPart(w, 8, 4, 2);
    LoadedPart(w, 8, 6, 2);
    assert w / TWO_32 % TWO_32 == w / TWO_32;
    assert w / 0x1_0000_0000_0000 % TWO_16 == w / 0x1_0000_0000_0000;
  }

  /** The bytes of a pointer word, as the encoding lays them out: kind in the two lowest
      bits; the offset in the other thirty of the low half; sizes in the high half. */
  lemma StructBytes(off: int, dw: nat, pw: nat)
    requires dw < TWO_16 && pw < TWO_16
    ensures var b := Store(MakeStruct(off, dw, pw), 8);
            Load(b[0..4]) == 4 * (off % TWO_30) + 0 && Load(b[4..6]) == dw && Load(b[6..8]) == pw
  {
    hide Load, Store;
    var w := MakeStruct(off, dw, pw);
    Halves(w);
    StructFields(off, dw, pw);
    Low(w, 4 * (off % TWO_30), pw * TWO_16 + dw);
  }

  lemma ListBytes(off: int, esize: nat, count: nat)
    requires esize < 8 && count < TWO_29
    ensures var b := Store(MakeList(off, esize, count), 8);
            Load(b[0..4]) == 4 * (off % TWO_30) + 1 && Load(b[4..8]) == 8 * count + esize
  {
    hide Load, Store;
    var w := MakeList(off, esize, count);
    Halves(w);
    assert esize % 8 == esize && count % TWO_29 == count;
    Low(w, 4 * (off % TWO_30) + 1, 8 * count + esize);
  }

  lemma FarBytes(two: bool, off: nat, seg: nat)
    requires off < TWO_29 && seg < TWO_32
    ensures var b := Store(MakeFar(two, off, seg), 8);
            Load(b[0..4]) == 8 * off + (if two then 4 else 0) + 2 && Load(b[4..8]) == seg
  {
    hide Load, Store;
    var w := MakeFar(two, off, seg);
    Halves(w);
    assert off % TWO_29 == off && seg % TWO_32 == seg;
    Low(w, 8 * off + (if two then 4 else 0) + 2, seg);
  }

  lemma CapBytes(index: nat)
    requires index < TWO_32
    ensures var b := Store(MakeCap(index), 8); Load(b[0..4]) == 3 && Load(b[4..8]) == index
  {
    hide Load, Store;
    var w := MakeCap(index);
    Halves(w);
    assert index % TWO_32 == index;
    Low(w, 3, index);
  }

  lemma Low(w: Word, lo: nat, hi: nat)
    requires w == lo + hi * TWO_32 && lo < TWO_32
    ensures w % TWO_32 == lo && w / TWO_32 == hi
  {
    Arith.DivMod(hi, lo, TWO_32);
  }
}
