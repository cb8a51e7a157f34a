/** Runs of builder operations: every pointer written leads to its body for ever after,
    whatever is allocated, linked or stored later, and no two blocks overlap. */
module Sessions {
  import opened WirePointer
  import opened Message
  import opened Frames
  import opened Targets
  import opened Arena

  datatype Link = Link(t: Target, seg: nat, word: nat)

  datatype Block = Block(seg: nat, at: nat, n: nat)

  /** The words of an arena, the pointer slots written, the words those pointers are
      followed through, and the blocks handed out. */
  datatype Session = Session(v: Segs, links: map<Loc, Link>, pads: set<Loc>, blocks: seq<Block>)

  datatype Op =
    | Alloc(seg: nat, at: nat, n: nat)
    | WriteLink(slot: Loc, link: Link)
    | WriteData(loc: Loc, w: Word)

  /** A slot leads to the body it was linked to. */
  ghost predicate Leads(v: Segs, slot: Loc, link: Link)
  {
    var l := LookAt(v, slot.seg, slot.word);
    BodyInside(v, link.t, link.seg, link.word) && l.Found? && l.ptr == Object(v, link.t, link.seg, link.word)
  }

  /** One operation: an allocation; a pointer written to a slot; a data word stored
      where no pointer is, nor a pad, nor the tag of a linked list. */
  ghost predicate Step(s: Session, op: Op, s': Session)
  {
    match op
    case Alloc(seg, at, n) =>
      && Allocated(s.v, s'.v, seg, at, n)
      && s' == s.(v := s'.v, blocks := s.blocks + [Block(seg, at, n)])
    case WriteLink(slot, link) =>
      && InBounds(s.v, slot.seg, slot.word) && slot !in s.pads
      && BodyInside(s.v, link.t, link.seg, link.word)
      && slot !in TagOf(link.t, link.seg, link.word) && TagOf(link.t, link.seg, link.word) !! s.links.Keys
      && SameExcept(s.v, s'.v, {slot})
      && PointsTo(s.v, s'.v, slot, link.t, link.seg, link.word)
      && s' == s.(v := s'.v, links := s.links[slot := link],
                  pads := s.pads + SlotFootprint(s'.v, slot.seg, slot.word) + TagOf(link.t, link.seg, link.word))
    case WriteData(at, w) =>
      && InBounds(s.v, at.seg, at.word) && at !in s.pads && at !in s.links
      && s' == s.(v := Stored(s.v, at.seg, at.word, w))
  }

  ghost predicate LinkOk(s: Session, slot: Loc)
    requires slot in s.links
  {
    var link := s.links[slot];
    && InBounds(s.v, slot.seg, slot.word)
    && Leads(s.v, slot, link)
    && SlotFootprint(s.v, slot.seg, slot.word) <= s.pads
    && TagOf(link.t, link.seg, link.word) <= s.pads
  }

  predicate BlockInside(v: Segs, b: Block)
  {
    b.seg < |v| && b.at + b.n <= |v[b.seg]|
  }

  predicate Apart(a: Block, b: Block)
  {
    a.seg != b.seg || a.at + a.n <= b.at || b.at + b.n <= a.at
  }

  ghost predicate Inv(s: Session)
  {
    && (forall slot :: slot in s.links ==> LinkOk(s, slot))
    && (forall p :: p in s.pads ==> InBounds(s.v, p.seg, p.word))
    && s.pads !! s.links.Keys
    && (forall i :: 0 <= i < |s.blocks| ==> BlockInside(s.v, s.blocks[i]))
    && (forall i, j :: 0 <= i < j < |s.blocks| ==> Apart(s.blocks[i], s.blocks[j]))
  }

  /** A link is kept by any change outside its slot and the pads. */
  lemma LinkKept(s: Session, s': Session, slot: Loc, changed: set<Loc>)
    requires slot in s.links && LinkOk(s, slot) && SameExcept(s.v, s'.v, changed)
    requires slot !in changed && changed !! s.pads
    requires slot in s'.links && s'.links[slot] == s.links[slot] && s.pads <= s'.pads
    ensures LinkOk(s', slot)
  {
    hide LookAt, SlotFootprint, BodyInside, Object, TagOf;
    var link := s.links[slot];
    assert SameAt(s.v, s'.v, slot);
    forall l | l in SlotFootprint(s.v, slot.seg, slot.word)
      ensures SameAt(s.v, s'.v, l)
    {
    }
    SlotFrame(s.v, s'.v, slot.seg, slot.word);
    assert TagOf(link.t, link.seg, link.word) !! changed;
    BodyKept(s.v, s'.v, changed, link.t, link.seg, link.word);
  }

  lemma GrownBlocks(s: Session, s': Session)
    requires Inv(s) && Grown(s.v, s'.v)
    ensures forall i :: 0 <= i < |s.blocks| ==> BlockInside(s'.v, s.blocks[i])
    ensures forall p :: p in s.pads ==> InBounds(s'.v, p.seg, p.word)
  {
    hide LinkOk;
    forall i | 0 <= i < |s.blocks|
      ensures BlockInside(s'.v, s.blocks[i])
    {
      assert BlockInside(s.v, s.blocks[i]);
    }
  }

  lemma AllocStep(s: Session, op: Op, s': Session)
    requires Inv(s) && op.Alloc? && Step(s, op, s')
    ensures Inv(s')
  {
    hide LinkOk, Allocated, SameExcept;
    AllocatedKeeps(s.v, s'.v, op.seg, op.at, op.n);
    assert Grown(s.v, s'.v) by { GrownBy(s.v, s'.v, {}); }
    forall slot | slot in s'.links
      ensures LinkOk(s', slot)
    {
      LinkKept(s, s', slot, {});
    }
    GrownBlocks(s, s');
    var b := Block(op.seg, op.at, op.n);
    forall i | 0 <= i < |s.blocks|
      ensures Apart(s.blocks[i], b)
    {
      assert BlockInside(s.v, s.blocks[i]);
      AllocatedApart(s.v, s'.v, op.seg, op.at, op.n, s.blocks[i]);
    }
  }

  lemma AllocatedApart(v: Segs, v': Segs, seg: nat, at: nat, n: nat, b: Block)
    requires Allocated(v, v', seg, at, n) && BlockInside(v, b)
    ensures Apart(b, Block(seg, at, n))
  {
  }

  lemma LinkStep(s: Session, op: Op, s': Session)
    requires Inv(s) && op.WriteLink? && Step(s, op, s')
    ensures Inv(s')
  {
    hide SameExcept, LookAt, SlotFootprint, BodyInside, Object, TagOf;
    GrownBy(s.v, s'.v, {op.slot});
    GrownBlocks(s, s');
    var link := op.link;
    assert forall p :: p in TagOf(link.t, link.seg, link.word) ==> InBounds(s.v, p.seg, p.word) by { TagInside(s.v, link); }
    forall slot | slot in s'.links
      ensures LinkOk(s', slot)
    {
      if slot != op.slot {
        LinkKept(s, s', slot, {op.slot});
      } else {
        GrownInside(s.v, s'.v, slot);
      }
    }
    forall p | p in s'.pads
      ensures InBounds(s'.v, p.seg, p.word)
      ensures p !in s'.links
    {
      if p !in s.pads && p in TagOf(link.t, link.seg, link.word) {
        GrownInside(s.v, s'.v, p);
      } else if p !in s.pads {
        assert !InBounds(s.v, p.seg, p.word) && InBounds(s'.v, p.seg, p.word);
        assert p in s.links ==> LinkOk(s, p);
      }
    }
  }

  lemma TagInside(v: Segs, link: Link)
    requires BodyInside(v, link.t, link.seg, link.word)
    ensures forall p :: p in TagOf(link.t, link.seg, link.word) ==> InBounds(v, p.seg, p.word)
  {
  }

  lemma DataStep(s: Session, op: Op, s': Session)
    requires Inv(s) && op.WriteData? && Step(s, op, s')
    ensures Inv(s')
  {
    hide LinkOk, SameExcept, Stored;
    StoredKeeps(s.v, op.loc.seg, op.loc.word, op.w);
    GrownBy(s.v, s'.v, {op.loc});
    GrownBlocks(s, s');
    forall slot | slot in s'.links
      ensures LinkOk(s', slot)
    {
      LinkKept(s, s', slot, {op.loc});
    }
  }

  /** Every operation keeps every link, and every block apart from the others. */
  lemma StepInv(s: Session, op: Op, s': Session)
    requires Inv(s) && Step(s, op, s')
    ensures Inv(s')
  {
    hide Inv, Step;
    match op
    case Alloc(_, _, _) => AllocStep(s, op, s');
    case WriteLink(_, _) => LinkStep(s, op, s');
    case WriteData(_, _) => DataStep(s, op, s');
  }

  /** A run of an arena from its first empty segment. */
  ghost predicate Run(ops: seq<Op>, states: seq<Session>)
  {
    && |states| == |ops| + 1
    && states[0] == Session([[]], map[], {}, [])
    && forall i :: 0 <= i < |ops| ==> Step(states[i], ops[i], states[i + 1])
  }

  lemma {:induction false} RunInv(ops: seq<Op>, states: seq<Session>, i: nat)
    requires Run(ops, states) && i < |states|
    ensures Inv(states[i])
  {
    hide Inv, Step;
    if i > 0 {
      RunInv(ops, states, i - 1);
      assert Step(states[i - 1], ops[i - 1], states[i]);
      StepInv(states[i - 1], ops[i - 1], states[i]);
    } else {
      EmptyInv(states[0]);
    }
  }

  lemma EmptyInv(s: Session)
    requires s == Session([[]], map[], {}, [])
    ensures Inv(s)
  {
  }

  /** No operation from i on writes the slot again. */
  predicate Untouched(ops: seq<Op>, i: nat, j: nat, slot: Loc)
    requires i <= j <= |ops|
  {
    forall k :: i <= k < j ==> !(ops[k].WriteLink? && ops[k].slot == slot)
  }

  lemma {:induction false} LinkStays(ops: seq<Op>, states: seq<Session>, i: nat, j: nat, slot: Loc)
    requires Run(ops, states) && i <= j <= |ops| && slot in states[i].links && Untouched(ops, i, j, slot)
    ensures slot in states[j].links && states[j].links[slot] == states[i].links[slot]
  {
    hide Allocated, PointsTo, SameExcept, BodyInside, SlotFootprint, TagOf;
    if i < j {
      LinkStays(ops, states, i, j - 1, slot);
      assert Step(states[j - 1], ops[j - 1], states[j]);
    }
  }

  /** In every run, a pointer written once resolves, at every later moment, to exactly the
      body it was written for. */
  lemma PointerForever(ops: seq<Op>, states: seq<Session>, i: nat, j: nat)
    requires Run(ops, states) && i < j <= |ops| && ops[i].WriteLink?
    requires Untouched(ops, i + 1, j, ops[i].slot)
    ensures Leads(states[j].v, ops[i].slot, ops[i].link)
  {
    hide Leads, Allocated, PointsTo, SameExcept, BodyInside, SlotFootprint, TagOf;
    assert Step(states[i], ops[i], states[i + 1]);
    LinkStays(ops, states, i + 1, j, ops[i].slot);
    RunInv(ops, states, j);
    assert LinkOk(states[j], ops[i].slot);
  }
}
