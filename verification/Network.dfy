/** The connections of one vat as objects: a message handled on one of them is one event
    of the vat, and leaves the others alone. */
module Network {
  import opened Rpc
  import opened Connections
  import opened Vats

  /** Connections that share the vat and nothing else. */
  ghost predicate Separate(conns: seq<Connection>, vat: Vat)
  {
    && (forall i :: 0 <= i < |conns| ==> conns[i].vat == vat)
    && forall i, j :: 0 <= i < j < |conns| ==>
         conns[i] != conns[j] && conns[i].exports != conns[j].exports && conns[i].answers != conns[j].answers
         && conns[i].joins != conns[j].joins
  }

  ghost function Objects(conns: seq<Connection>): set<object>
  {
    (set c: Connection | c in conns :: c as object) + (set c: Connection | c in conns :: c.exports as object)
    + (set c: Connection | c in conns :: c.answers as object) + (set c: Connection | c in conns :: c.joins as object)
  }

  /** The state of a vat with these connections. */
  ghost predicate IsWorld(w: World, conns: seq<Connection>, vat: Vat)
    reads Objects(conns), vat.provisions
  {
    && |w.conns| == |conns| && w.provisions == vat.provisions[..]
    && forall i :: 0 <= i < |conns| ==> conns[i].Valid() && w.conns[i] == conns[i].State()
  }

  /** A message arrives on connection k of a vat in state w. */
  method Deliver(conns: seq<Connection>, vat: Vat, k: nat, m: Message, ghost w: World)
    requires Separate(conns, vat) && IsWorld(w, conns, vat) && k < |conns|
    modifies Objects([conns[k]]), vat.provisions
    ensures WorldSized(w)
    ensures var next := After(w, Receive(k, m));
            IsWorld(next.world, conns, vat) && conns[k].outbox == old(conns[k].outbox) + next.effects
    ensures forall i :: 0 <= i < |conns| && i != k ==> conns[i].outbox == old(conns[i].outbox)
  {
    hide Handle, SetsOk;
    assert w.conns[k] == conns[k].State();
    conns[k].HandleMessage(m);
    forall i | 0 <= i < |conns| && i != k
      ensures conns[i].State() == w.conns[i] && conns[i].Valid()
    {
      assert conns[i] != conns[k];
    }
  }
}
