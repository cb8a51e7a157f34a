/** A builder's operations are the steps of a session: its runs are runs of sessions. */
module SessionBuilder {
  import opened Bytes
  import opened WirePointer
  import opened Message
  import opened Frames
  import opened Targets
  import opened Arena
  import opened Sessions

  /** The session tells the builder's words. */
  ghost predicate Tracks(b: Builder, s: Session)
    reads b
  {
    b.Valid() && View(b.segs) == s.v && Inv(s)
  }

  method Allocate(b: Builder, n: nat, ghost s: Session) returns (rc: Code, seg: nat, at: nat, ghost s': Session)
    requires Tracks(b, s)
    modifies b`segs
    ensures Tracks(b, s')
    ensures if rc == OK then Step(s, Alloc(seg, at, n), s') else s' == s
  {
    hide View, Inv, Allocated;
    rc, seg, at := b.AllocWords(n);
    s' := s;
    if rc == OK {
      s' := s.(v := View(b.segs), blocks := s.blocks + [Block(seg, at, n)]);
      StepInv(s, Alloc(seg, at, n), s');
    }
  }

  /** A slot that no earlier pointer goes through may be linked to any body inside the arena. */
  ghost predicate MayLink(s: Session, slot: Loc, link: Link)
  {
    && InBounds(s.v, slot.seg, slot.word) && slot !in s.pads
    && BodyInside(s.v, link.t, link.seg, link.word)
    && slot !in TagOf(link.t, link.seg, link.word) && TagOf(link.t, link.seg, link.word) !! s.links.Keys
  }

  method LinkTo(b: Builder, slotSeg: nat, slotWord: nat, link: Link, ghost s: Session) returns (rc: Code, ghost s': Session)
    requires Tracks(b, s) && MayLink(s, Loc(slotSeg, slotWord), link)
    requires slotSeg == link.seg || link.word < TWO_29
    modifies b`segs, b`maxSegWords
    ensures Tracks(b, s')
    ensures if rc == OK then Step(s, WriteLink(Loc(slotSeg, slotWord), link), s') else s' == s
  {
    hide View, Inv, PointsTo, SameExcept, BodyInside, TagOf, SlotFootprint;
    rc := b.WritePtr(slotSeg, slotWord, link.seg, link.word, link.t);
    s' := s;
    if rc == OK {
      ghost var slot, v := Loc(slotSeg, slotWord), View(b.segs);
      s' := s.(v := v, links := s.links[slot := link],
               pads := s.pads + SlotFootprint(v, slot.seg, slot.word) + TagOf(link.t, link.seg, link.word));
      StepInv(s, WriteLink(slot, link), s');
    }
  }

  method SetWord(b: Builder, seg: nat, word: nat, w: Word, ghost s: Session) returns (ghost s': Session)
    requires Tracks(b, s) && InBounds(s.v, seg, word) && Loc(seg, word) !in s.pads && Loc(seg, word) !in s.links
    modifies b`segs
    ensures Tracks(b, s') && Step(s, WriteData(Loc(seg, word), w), s')
  {
    hide View, Inv, Stored;
    b.StoreWord(seg, word, w);
    s' := s.(v := View(b.segs));
    StepInv(s, WriteData(Loc(seg, word), w), s');
  }
}
