/** Reading list elements: as scalars, and as structs by the list upgrade rules of
    capnp_list_get_struct. */
module ListViews {
  import opened Arith
  import opened Bytes
  import opened WirePointer
  import opened Message
  import opened WordBytes

  /** A struct as the scalar readers see it: `dataBits` narrows its data section to one
      list element, which starts `bodyByte` bytes into word `word`. */
  datatype View = View(word: int, bodyByte: nat, dataBits: nat, dw: nat, pw: nat)

  datatype Viewed = Seen(view: View) | Unseen(code: Code)

  /** data_bit_count */
  function DataBits(v: View): nat
  {
    if v.dataBits != 0 then v.dataBits else 64 * v.dw
  }

  /** The first byte of the data section, in its segment. */
  function Start(v: View): int
  {
    8 * v.word + v.bodyByte
  }

  /** data_has_bytes */
  predicate HasBytes(v: View, offset: nat, width: nat)
  {
    var bytes := DataBits(v) / 8;
    offset <= bytes && width <= bytes - offset
  }

  /** The data section, if there is one, lies in the segment's bytes. */
  predicate Inside(data: seq<byte>, v: View)
  {
    DataBits(v) > 0 ==> 0 <= Start(v) && Start(v) + (DataBits(v) + 7) / 8 <= |data|
  }

  /** capnp_get_u8 to capnp_get_u64, by width in bytes. */
  function GetUint(data: seq<byte>, v: View, offset: nat, width: nat, default: nat): nat
    requires Inside(data, v) && width >= 1
  {
    if !HasBytes(v, offset, width) then default
    else
      var at := Start(v) + offset;
      Load(data[at..at + width])
  }

  function Bit(b: byte, k: nat): bool
    requires k < 8
  {
    b / [1, 2, 4, 8, 16, 32, 64, 128][k] % 2 == 1
  }

  /** capnp_get_bool */
  function GetBool(data: seq<byte>, v: View, bit: nat, default: bool): bool
    requires Inside(data, v)
  {
    if bit >= DataBits(v) then default else Bit(data[Start(v) + bit / 8], bit % 8)
  }

  /** Bytes of an element that is a number. */
  function ElementBytes(esize: nat): nat
  {
    if esize == SZ_BYTE then 1
    else if esize == SZ_TWO then 2
    else if esize == SZ_FOUR then 4
    else if esize == SZ_EIGHT then 8
    else 0
  }

  // ---- capnp_list_get_struct ---------------------------------------------------------------

  /** Element `index` of any list that can be read as a list of structs. */
  function ElementView(list: Ptr, index: nat): Viewed
  {
    if !list.List? then Unseen(ErrKind)
    else if index >= list.count then Unseen(ErrBounds)
    else if list.esize == SZ_COMPOSITE then
      Seen(View(list.word + Place(index, 0, list.dw + list.pw), 0, 0, list.dw, list.pw))
    else if list.esize == SZ_PTR then Seen(View(list.word + index, 0, 0, 0, 1))
    else if ElementBytes(list.esize) == 0 then Unseen(ErrKind)
    else
      var at := 8 * list.word + index * ElementBytes(list.esize);
      Seen(View(at / 8, at % 8, 8 * ElementBytes(list.esize), 1, 0))
  }

  /** capnp_list_get_struct. A list may start before its segment, where the code lets a
      size_t wrap around; the view then says where the element is all the same. */
  method ListGetStruct(list: Ptr, index: nat) returns (rc: Code, out: View)
    ensures ElementView(list, index) == if rc == OK then Seen(out) else Unseen(rc)
  {
    out := View(0, 0, 0, 0, 0);
    if !list.List? {
      return ErrKind, out;
    }
    if index >= list.count {
      return ErrBounds, out;
    }
    var bytes := 0;
    if list.esize == SZ_COMPOSITE {
      return OK, View(list.word + Place(index, 0, list.dw + list.pw), 0, 0, list.dw, list.pw);
    } else if list.esize == SZ_BYTE {
      bytes := 1;
    } else if list.esize == SZ_TWO {
      bytes := 2;
    } else if list.esize == SZ_FOUR {
      bytes := 4;
    } else if list.esize == SZ_EIGHT {
      bytes := 8;
    } else if list.esize == SZ_PTR {
      return OK, View(list.word + index, 0, 0, 0, 1);
    } else {
      return ErrKind, out;
    }
    var at := 8 * list.word + index * bytes;
    return OK, View(at / 8, at % 8, 8 * bytes, 1, 0);
  }

  /** The bytes an element's data takes: from, and how many. */
  datatype Extent = Extent(from: int, bytes: nat)

  function DataOf(list: Ptr, index: nat): Extent
    requires list.List? && index < list.count
  {
    if list.esize == SZ_COMPOSITE then Extent(8 * (list.word + Place(index, 0, list.dw + list.pw)), 8 * list.dw)
    else Extent(8 * list.word + index * ElementBytes(list.esize), ElementBytes(list.esize))
  }

  /** The data of an element, if it has any, lies in the segment's bytes. */
  predicate ElementInside(data: seq<byte>, list: Ptr, index: nat)
  {
    list.List? && index < list.count &&
    var x := DataOf(list, index);
    x.bytes > 0 ==> 0 <= x.from && x.from + x.bytes <= |data|
  }

  /** The words its elements take. */
  function WordsOfList(list: Ptr): int
    requires list.List?
  {
    if list.esize == SZ_COMPOSITE then RowWords(list.count, list.dw + list.pw) else ListWords(list.esize, list.count)
  }

  /** A list that starts in its segment and ends there: what the resolver makes sure of, but
      for the start of a plain list. */
  predicate ListInside(data: seq<byte>, list: Ptr)
  {
    && list.List? && list.word >= 0
    && 8 * (list.word + WordsOfList(list)) <= |data|
  }

  /** So do all its elements. */
  lemma ElementsInside(data: seq<byte>, list: Ptr, index: nat)
    requires ListInside(data, list) && index < list.count
    ensures ElementInside(data, list, index)
  {
    hide Place;
    if list.esize == SZ_COMPOSITE {
      var m := list.dw + list.pw;
      PlaceMono(0, index, m);
      PlaceMono(index + 1, list.count, m);
      PlaceStep(index, 0, 0, m);
      PlaceStep(0, 0, 0, m);
    }
  }

  /** The view of an element covers exactly the element's own data. */
  lemma ViewCovers(data: seq<byte>, list: Ptr, index: nat)
    requires ElementInside(data, list, index) && ElementView(list, index).Seen?
    ensures var v, x := ElementView(list, index).view, DataOf(list, index);
            && Inside(data, v) && DataBits(v) == 8 * x.bytes
            && (x.bytes > 0 ==> Start(v) == x.from && x.from + x.bytes <= |data|)
  {
    hide Place;
  }

  // ---- reads stay in their element -----------------------------------------------------------

  /** Two segments agree on the data of an element. */
  predicate AgreeOn(a: seq<byte>, b: seq<byte>, x: Extent)
  {
    0 <= x.from && x.from + x.bytes <= |a| && |a| == |b| && a[x.from..x.from + x.bytes] == b[x.from..x.from + x.bytes]
  }

  lemma SliceOfSlice(s: seq<byte>, from: nat, n: nat, off: nat, w: nat)
    requires from + n <= |s| && off + w <= n
    ensures s[from..from + n][off..off + w] == s[from + off..from + off + w]
  {
    var part, whole := s[from..from + n][off..off + w], s[from + off..from + off + w];
    assert |part| == |whole| == w;
    forall k | 0 <= k < w ensures part[k] == whole[k] {
      assert part[k] == s[from..from + n][off + k] == s[from + off + k];
    }
    assert part == whole;
  }

  lemma PartAgrees(a: seq<byte>, b: seq<byte>, x: Extent, offset: nat, width: nat)
    requires AgreeOn(a, b, x) && offset + width <= x.bytes
    ensures a[x.from + offset..x.from + offset + width] == b[x.from + offset..x.from + offset + width]
  {
    SliceOfSlice(a, x.from, x.bytes, offset, width);
    SliceOfSlice(b, x.from, x.bytes, offset, width);
  }

  /** Any scalar read, at any offset, on the view of an element depends on nothing but the
      element's own data: with that fixed, the rest of the segment may be anything. */
  lemma ReadsOwnElement(a: seq<byte>, b: seq<byte>, list: Ptr, index: nat, offset: nat, width: nat, default: nat,
                        bit: nat, flag: bool)
    requires ElementInside(a, list, index) && ElementView(list, index).Seen? && |a| == |b| && width >= 1
    requires DataOf(list, index).bytes > 0 ==> AgreeOn(a, b, DataOf(list, index))
    ensures var v := ElementView(list, index).view;
            && Inside(a, v) && Inside(b, v)
            && GetUint(a, v, offset, width, default) == GetUint(b, v, offset, width, default)
            && GetBool(a, v, bit, flag) == GetBool(b, v, bit, flag)
  {
    hide ElementView, DataOf, Load, Bit;
    ViewCovers(a, list, index);
    var v, x := ElementView(list, index).view, DataOf(list, index);
    if HasBytes(v, offset, width) {
      PartAgrees(a, b, x, offset, width);
    }
    if bit < DataBits(v) {
      PartAgrees(a, b, x, bit / 8, 1);
      assert a[x.from + bit / 8] == a[x.from + bit / 8..x.from + bit / 8 + 1][0];
      assert b[x.from + bit / 8] == b[x.from + bit / 8..x.from + bit / 8 + 1][0];
    }
  }

  /** Past its own data, an element reads as the default. */
  lemma DefaultBeyond(data: seq<byte>, list: Ptr, index: nat, offset: nat, width: nat, default: nat, bit: nat, flag: bool)
    requires ElementInside(data, list, index) && ElementView(list, index).Seen? && width >= 1
    ensures var v, x := ElementView(list, index).view, DataOf(list, index);
            && Inside(data, v)
            && (offset + width > x.bytes ==> GetUint(data, v, offset, width, default) == default)
            && (bit >= 8 * x.bytes ==> GetBool(data, v, bit, flag) == flag)
  {
    hide ElementView, DataOf, Load, Bit;
    ViewCovers(data, list, index);
  }

  // ---- what is read ------------------------------------------------------------------------

  /** A number read inside an element is the one whose little-endian bytes are the element's
      bytes at that offset. */
  lemma ReadsBytes(data: seq<byte>, list: Ptr, index: nat, offset: nat, width: nat, default: nat)
    requires ElementInside(data, list, index) && ElementView(list, index).Seen? && width >= 1
    requires offset + width <= DataOf(list, index).bytes
    ensures var v, x := ElementView(list, index).view, DataOf(list, index);
            && Inside(data, v) && 0 <= x.from && x.from + x.bytes <= |data|
            && Store(GetUint(data, v, offset, width, default), width) == data[x.from..x.from + x.bytes][offset..offset + width]
  {
    hide ElementView, DataOf, Load, Store;
    ViewCovers(data, list, index);
    var x := DataOf(list, index);
    StoreLoaded(data[x.from + offset..x.from + offset + width]);
    SliceOfSlice(data, x.from, x.bytes, offset, width);
  }

  function Pow2(k: nat): (p: nat)
    ensures p > 0
  {
    if k == 0 then 1 else 2 * Pow2(k - 1)
  }

  predicate Parts(n: nat, k: nat, low: nat, high: nat)
  {
    low < Pow2(k) && n == low + Pow2(k) * (1 + 2 * high)
  }

  /** Bit k of a number: it is 2^k more than a smaller part and a multiple of 2^(k + 1). */
  ghost predicate BitSet(n: nat, k: nat)
  {
    exists low, high :: Parts(n, k, low, high)
  }

  lemma Powers()
    ensures Pow2(0) == 1 && Pow2(1) == 2 && Pow2(2) == 4 && Pow2(3) == 8
    ensures Pow2(4) == 16 && Pow2(5) == 32 && Pow2(6) == 64 && Pow2(7) == 128
  {
    assert Pow2(4) == 2 * Pow2(3);
    assert Pow2(6) == 2 * Pow2(5);
  }

  lemma PowIs(k: nat)
    requires k < 8
    ensures Pow2(k) == [1, 2, 4, 8, 16, 32, 64, 128][k]
  {
    Powers();
  }

  lemma OddQuotient(n: nat, p: nat, low: nat, high: nat)
    requires p > 0 && low < p && n == low + p * (1 + 2 * high)
    ensures n / p % 2 == 1
  {
    assert (1 + 2 * high) * p == p * (1 + 2 * high);
    Unique(n / p, n % p, 1 + 2 * high, low, p);
  }

  lemma BitIs(b: byte, k: nat)
    requires k < 8
    ensures Bit(b, k) <==> BitSet(b, k)
  {
    hide Pow2;
    PowIs(k);
    var p: nat := Pow2(k);
    if b / p % 2 == 1 {
      var low, high := b % p, b / p / 2;
      assert b / p == 1 + 2 * high;
      assert Parts(b, k, low, high);
    } else if BitSet(b, k) {
      var low, high :| Parts(b, k, low, high);
      OddQuotient(b, p, low, high);
      assert false;
    }
  }

  /** Bool i of an element is bit i % 8 of its byte i / 8. */
  lemma ReadsBit(data: seq<byte>, list: Ptr, index: nat, i: nat, default: bool)
    requires ElementInside(data, list, index) && ElementView(list, index).Seen?
    requires i < 8 * DataOf(list, index).bytes
    ensures var v, x := ElementView(list, index).view, DataOf(list, index);
            && Inside(data, v) && 0 <= x.from && x.from + x.bytes <= |data|
            && (GetBool(data, v, i, default) <==> BitSet(data[x.from..x.from + x.bytes][i / 8], i % 8))
  {
    hide ElementView, DataOf, Bit, BitSet;
    ViewCovers(data, list, index);
    var x := DataOf(list, index);
    BitIs(data[x.from + i / 8], i % 8);
    assert data[x.from..x.from + x.bytes][i / 8] == data[x.from + i / 8];
  }

  // ---- views against direct reads --------------------------------------------------------------

  /** capnp_list_get_u8 to capnp_list_get_u64, by width in bytes. */
  function ListGetUint(data: seq<byte>, list: Ptr, index: nat, width: nat, default: nat): nat
    requires list.List? && 1 <= width <= 8
    requires index < list.count ==> ElementInside(data, list, index)
  {
    if index >= list.count then default
    else if ElementBytes(list.esize) == width then
      var at := 8 * list.word + index * ElementBytes(list.esize);
      Load(data[at..at + width])
    else if list.esize == SZ_COMPOSITE && list.dw >= 1 then
      var at := 8 * (list.word + Place(index, 0, list.dw + list.pw));
      Load(data[at..at + width])
    else default
  }

  /** The struct view of an element, read at offset 0, gives what the list read of the same
      width gives; except for elements wider than the read, where the view gives the low
      bytes of the element and the list read refuses. */
  lemma ViewReadsAsList(data: seq<byte>, list: Ptr, index: nat, width: nat, default: nat)
    requires ElementInside(data, list, index) && ElementView(list, index).Seen?
    requires width == 1 || width == 2 || width == 4 || width == 8
    ensures var v, x := ElementView(list, index).view, DataOf(list, index);
            && Inside(data, v)
            && var view, direct := GetUint(data, v, 0, width, default), ListGetUint(data, list, index, width, default);
               if ElementBytes(list.esize) > width
               then 0 <= x.from && x.from + width <= |data| && view == Load(data[x.from..x.from + width]) && direct == default
               else view == direct
  {
    hide Load, Place;
    ViewCovers(data, list, index);
  }

  /** Elements of no bytes and of one bit have no struct view; every other one has. */
  lemma WhichHaveViews(list: Ptr, index: nat)
    requires list.List? && list.esize < 8
    ensures ElementView(list, index) == Unseen(ErrBounds) <==> index >= list.count
    ensures ElementView(list, index) == Unseen(ErrKind) <==> index < list.count && list.esize in {SZ_VOID, SZ_BIT}
  {
    hide Place;
  }

  // ---- pointers of views ---------------------------------------------------------------------

  /** A view as the pointer readers see it. */
  function AsStruct(seg: nat, v: View): Ptr
  {
    Struct(seg, v.word, v.dw, v.pw)
  }

  /** Pointer 0 of the view of a pointer list's element leads where the element does, and
      it has no other pointer; the view of a number has none. */
  lemma ViewPointers(segs: Segs, list: Ptr, index: nat, k: nat)
    requires list.List? && ElementView(list, index).Seen? && list.esize != SZ_COMPOSITE
    ensures var s := AsStruct(list.seg, ElementView(list, index).view);
            LookField(segs, s, k) == if list.esize == SZ_PTR && k == 0 then LookElement(segs, list, index) else Found(Null, 0)
  {
    hide LookAt;
  }

  /** The view of a composite list's element is that element. */
  lemma ViewOfRow(segs: Segs, list: Ptr, index: nat)
    requires list.List? && ElementView(list, index).Seen? && list.esize == SZ_COMPOSITE
    ensures LookElement(segs, list, index) == Found(AsStruct(list.seg, ElementView(list, index).view), 0)
  {
    hide Place;
  }
}
