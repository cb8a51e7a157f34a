/** The canonical rewrite of capnp_canonical.c: a recursive copy into one
    growing segment, reading the source message under its traversal budget. */
module Canonical {
  import opened Options
  import opened Message
  import opened ObjectTree
  import opened NormalForm
  import opened Budget

  /** Levels left to a copy at `depth`: depths 0 to 64 are allowed. */
  function Fuel(depth: nat): nat
  {
    if depth > 64 then 0 else 65 - depth
  }

  /** p has a value of at most `fuel` levels, and copying it costs no more than `left`. */
  predicate Copyable(segs: Segs, p: Ptr, fuel: nat, left: nat)
  {
    Read(segs, p, fuel).Some? && CopyCost(segs, p, fuel) <= left
  }

  // ---- data reads stay inside the message ---------------------------------------------

  /** The data words of the body of p lie in its segment. */
  predicate DataInside(segs: Segs, p: Ptr)
  {
    p.Struct? || p.List? ==>
      forall j :: 0 <= j < CellCount(ShapeOf(p)) && !IsPointer(ShapeOf(p), j) ==> InBounds(segs, p.seg, p.word + j)
  }

  /** So do those of everything p leads to, to `fuel` levels. */
  predicate Sound(segs: Segs, p: Ptr, fuel: nat)
    decreases fuel, 1
  {
    && DataInside(segs, p)
    && (fuel > 0 && (p.Struct? || p.List?) ==>
          forall j :: 0 <= j < CellCount(ShapeOf(p)) && IsPointer(ShapeOf(p), j) ==> SlotSound(segs, p.seg, p.word + j, fuel))
  }

  predicate SlotSound(segs: Segs, seg: nat, at: int, fuel: nat)
    requires fuel > 0
    decreases fuel, 0
  {
    var l := LookAt(segs, seg, at);
    l.Found? ==> Sound(segs, l.ptr, fuel - 1)
  }

  // ---- what a copy loop has done ---------------------------------------------------------

  /** The cells written so far are the trimmed cells of the source. */
  predicate Matches(segs: Segs, p: Ptr, to: Shape, cells: seq<Cell>, fuel: nat)
  {
    && (p.Struct? || p.List?) && Narrower(ShapeOf(p), to) && |cells| <= CellCount(to)
    && forall j :: 0 <= j < |cells| ==> CellMatches(segs, p, to, cells[j], j, fuel)
  }

  predicate CellMatches(segs: Segs, p: Ptr, to: Shape, c: Cell, j: nat, fuel: nat)
    requires (p.Struct? || p.List?) && Narrower(ShapeOf(p), to) && j < CellCount(to)
  {
    SourceFits(ShapeOf(p), to, j);
    var r := ReadCell(segs, p, Source(ShapeOf(p), to, j), fuel);
    r.Some? && c == TrimCell(r.value)
  }

  /** Pointer cell j can be followed and its object has a value. */
  predicate Reachable(segs: Segs, p: Ptr, to: Shape, j: nat, fuel: nat)
    requires p.Struct? || p.List?
  {
    var l := LookAt(segs, p.seg, p.word + Source(ShapeOf(p), to, j));
    l.Found? && Read(segs, l.ptr, fuel).Some?
  }

  /** Why copying the words from j0 to j1 of a body failed: a pointer among them
      leads nowhere, or costs more than is left. */
  predicate Stuck(segs: Segs, p: Ptr, to: Shape, j0: nat, j1: nat, fuel: nat, left: nat)
    requires p.Struct? || p.List?
  {
    exists j :: j0 <= j < j1 && IsPointer(to, j) &&
      (!Reachable(segs, p, to, j, fuel) || CellsCost(segs, p, to, j + 1, fuel) - CellsCost(segs, p, to, j0, fuel) > left)
  }

  lemma MatchMore(segs: Segs, p: Ptr, to: Shape, cells: seq<Cell>, c: Cell, fuel: nat)
    requires Matches(segs, p, to, cells, fuel) && |cells| < CellCount(to)
    requires CellMatches(segs, p, to, c, |cells|, fuel)
    ensures Matches(segs, p, to, cells + [c], fuel)
  {
    hide CellMatches, Narrower, CellCount;
  }

  lemma MatchData(segs: Segs, p: Ptr, to: Shape, j: nat, fuel: nat)
    requires (p.Struct? || p.List?) && Narrower(ShapeOf(p), to) && j < CellCount(to) && !IsPointer(to, j)
    ensures 0 <= Source(ShapeOf(p), to, j) < CellCount(ShapeOf(p))
    ensures CellMatches(segs, p, to, W(DataAt(segs, p, Source(ShapeOf(p), to, j))), j, fuel)
    ensures CellsCost(segs, p, to, j + 1, fuel) == CellsCost(segs, p, to, j, fuel)
  {
    hide Narrower, CellCount, Source, IsPointer, LookAt, DataAt;
    SourceFits(ShapeOf(p), to, j);
  }

  lemma MatchPointer(segs: Segs, p: Ptr, to: Shape, j: nat, fuel: nat)
    requires (p.Struct? || p.List?) && Narrower(ShapeOf(p), to) && j < CellCount(to) && IsPointer(to, j)
    ensures 0 <= Source(ShapeOf(p), to, j) < CellCount(ShapeOf(p)) && IsPointer(ShapeOf(p), Source(ShapeOf(p), to, j))
    ensures var l := LookAt(segs, p.seg, p.word + Source(ShapeOf(p), to, j));
            && (Reachable(segs, p, to, j, fuel) ==>
                  CellMatches(segs, p, to, P(Trim(Read(segs, l.ptr, fuel).value)), j, fuel))
            && CellsCost(segs, p, to, j + 1, fuel) == CellsCost(segs, p, to, j, fuel) + l.cost +
                 (if l.Found? then CopyCost(segs, l.ptr, fuel) else 0)
  {
    hide Narrower, CellCount, Source, IsPointer, LookAt, DataAt, CopyCost;
    SourceFits(ShapeOf(p), to, j);
    var l := LookAt(segs, p.seg, p.word + Source(ShapeOf(p), to, j));
    if l.Found? && l.ptr.Null? && fuel > 0 {
      assert Read(segs, l.ptr, fuel) == Some(Absent);
    }
  }
}
