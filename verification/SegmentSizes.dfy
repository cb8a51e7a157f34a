/** The sizes of a builder's segments, and what its operations do to them: where words go,
    and how many segments that makes. */
module SegmentSizes {
  /** Words there is room for, and words in use. */
  datatype Size = Size(cap: nat, words: nat)

  /** The limit of a segment, and whether there is to be only one. */
  datatype Policy = Policy(lim: nat, single: bool)

  /** Sizes, and the segment words were put in. */
  datatype Placed = Placed(sizes: seq<Size>, seg: nat)

  /** A segment has room for n more words as it is. */
  predicate HasRoomFor(s: Size, n: nat, lim: nat)
  {
    s.words + n <= s.cap && s.words + n <= lim
  }

  function Min(a: nat, b: nat): nat
  {
    if a < b then a else b
  }

  /** Twice a capacity, or what an empty segment starts with. */
  function Twice(cap: nat): nat
  {
    if cap > 0 then 2 * cap else 16
  }

  /** cap doubled until it covers the need. */
  function DoubledTo(cap: nat, need: nat): (c: nat)
    requires cap > 0
    ensures c >= cap && c >= need
    decreases need - cap
  {
    if cap >= need then cap else DoubledTo(2 * cap, need)
  }

  /** The capacity of a segment made to hold `need` words. */
  function GrownCap(cap: nat, need: nat, lim: nat): nat
  {
    if need <= cap then cap else Min(DoubledTo(Twice(cap), need), lim)
  }

  /** The capacity of the segment that follows one of `cap` words, for n words. */
  function NextCap(cap: nat, n: nat, lim: nat): nat
  {
    var wanted := if Twice(cap) < n then n else Twice(cap);
    Min(wanted, lim)
  }

  /** One segment has n more words in use, and this capacity. */
  function Bumped(z: seq<Size>, seg: nat, cap: nat, n: nat): seq<Size>
    requires seg < |z|
  {
    z[seg := Size(cap, z[seg].words + n)]
  }

  /** n words allocated: in the last segment if it has room or is to be the only one, and
      in a new one otherwise. */
  function AllocSizes(z: seq<Size>, n: nat, p: Policy): (to: Placed)
    requires z != []
    ensures to.seg < |to.sizes| && |z| <= |to.sizes| <= |z| + 1
  {
    var last := |z| - 1;
    if HasRoomFor(z[last], n, p.lim) then Placed(Bumped(z, last, z[last].cap, n), last)
    else if p.single then Placed(Bumped(z, last, GrownCap(z[last].cap, z[last].words + n, p.lim), n), last)
    else Placed(z + [Size(NextCap(z[last].cap, n, p.lim), n)], last + 1)
  }

  /** When such an allocation succeeds: n is within the limit, and there is room, or room to
      be made, or another segment to be had. */
  predicate MayAlloc(z: seq<Size>, n: nat, p: Policy)
    requires z != []
  {
    var s := z[|z| - 1];
    n <= p.lim && (HasRoomFor(s, n, p.lim) || if p.single then MayGrow(s, n, p.lim) else |z| + 1 < 0x1_0000_0000)
  }

  predicate MayGrow(s: Size, n: nat, lim: nat)
  {
    s.words + n <= s.cap || s.words + n <= lim
  }

  lemma BumpedTwice(z: seq<Size>, seg: nat, cap: nat, n: nat)
    requires seg < |z|
    ensures Bumped(Bumped(z, seg, cap, 0), seg, cap, n) == Bumped(z, seg, cap, n)
  {
  }

  lemma BumpedCap(z: seq<Size>, seg: nat, cap: nat)
    requires seg < |z|
    ensures Bumped(z, seg, cap, 0)[seg].cap == cap
  {
  }

  lemma SizesHere(z: seq<Size>, n: nat, p: Policy)
    requires z != [] && HasRoomFor(z[|z| - 1], n, p.lim)
    ensures AllocSizes(z, n, p) == Placed(Bumped(z, |z| - 1, z[|z| - 1].cap, n), |z| - 1)
  {
  }

  lemma SizesGrown(z: seq<Size>, n: nat, p: Policy)
    requires z != [] && !HasRoomFor(z[|z| - 1], n, p.lim) && p.single
    ensures AllocSizes(z, n, p) == Placed(Bumped(z, |z| - 1, GrownCap(z[|z| - 1].cap, z[|z| - 1].words + n, p.lim), n), |z| - 1)
  {
  }

  lemma SizesNext(z: seq<Size>, n: nat, p: Policy, cap: nat)
    requires z != [] && !HasRoomFor(z[|z| - 1], n, p.lim) && !p.single
    requires var twice := Twice(z[|z| - 1].cap); cap == Min(if twice < n then n else twice, p.lim)
    ensures AllocSizes(z, n, p) == Placed(z + [Size(cap, n)], |z|)
  {
  }

  /** A pointer written: its pad goes beside the body if the limit allows one there, and
      otherwise takes a segment of its own. */
  function LinkSizes(z: seq<Size>, slotSeg: nat, bodySeg: nat, lim: nat): (z': seq<Size>)
    requires bodySeg < |z|
    ensures |z| <= |z'| <= |z| + 1
  {
    if slotSeg == bodySeg then z
    else if z[bodySeg].words + 1 <= lim then
      Bumped(z, bodySeg, GrownCap(z[bodySeg].cap, z[bodySeg].words + 1, lim), 1)
    else z + [Size(2, 2)]
  }

  /** An object of n words allocated and linked from a slot; one of no words is the slot's. */
  function ObjectSizes(z: seq<Size>, slotSeg: nat, n: nat, p: Policy): (to: Placed)
    requires slotSeg < |z|
    ensures to.seg < |to.sizes| && |z| <= |to.sizes| <= |z| + 2
  {
    if n == 0 then Placed(z, slotSeg)
    else
      var to := AllocSizes(z, n, p);
      Placed(LinkSizes(to.sizes, slotSeg, to.seg, p.lim), to.seg)
  }

  /** Objects of these many words, each linked from a slot of one segment. */
  function ObjectsSizes(z: seq<Size>, slotSeg: nat, words: seq<nat>, p: Policy): (z': seq<Size>)
    requires slotSeg < |z|
    ensures |z| <= |z'|
  {
    if words == [] then z
    else
      var before := ObjectsSizes(z, slotSeg, words[..|words| - 1], p);
      ObjectSizes(before, slotSeg, words[|words| - 1], p).sizes
  }

  /** A pointer list linked from a slot, whose elements lead to objects of these many words. */
  function ListSizes(z: seq<Size>, slotSeg: nat, words: seq<nat>, p: Policy): (z': seq<Size>)
    requires slotSeg < |z|
  {
    var list := ObjectSizes(z, slotSeg, |words|, p);
    ObjectsSizes(list.sizes, list.seg, words, p)
  }
}
