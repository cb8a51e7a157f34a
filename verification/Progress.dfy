/** A canonical body while it is being written: cells placed so far, zeros for
    the rest, and the bodies already appended behind it. */
module Progress {
  import opened WirePointer
  import opened ObjectTree
  import opened Layout

  /** A body of n words whose first |cells| are written. */
  function Partial(n: nat, cells: seq<Cell>): (ws: seq<Word>)
    requires |cells| <= n
    ensures |ws| == n + Below(cells)
  {
    Front(n, cells) + ZeroWords(n - |cells|) + Bodies(cells)
  }

  /** The words once a pointer to t is stored at `slot` and its bodies are appended. */
  function Placed(ws: seq<Word>, slot: nat, t: Tree): seq<Word>
    requires slot < |ws|
  {
    ws[slot := PointerTo(t, |ws| - slot - 1)] + Body(t)
  }

  lemma PartialAll(cells: seq<Cell>)
    ensures Partial(|cells|, cells) == Front(|cells|, cells) + Bodies(cells)
  {
  }

  lemma Extend(n: nat, cells: seq<Cell>, c: Cell)
    ensures Front(n, cells + [c]) == Front(n, cells) + [CellWord(c, n + Below(cells) - |cells| - 1)]
    ensures Bodies(cells + [c]) == Bodies(cells) + CellBody(c)
    ensures Below(cells + [c]) == Below(cells) + CellSize(c)
  {
    assert DropLast(cells + [c]) == cells;
  }

  lemma StoreData(pre: seq<Word>, n: nat, cells: seq<Cell>, w: Word)
    requires |cells| < n
    ensures (pre + Partial(n, cells))[|pre| + |cells| := w] == pre + Partial(n, cells + [W(w)])
  {
    hide Front, Bodies, Below;
    Extend(n, cells, W(w));
    assert ZeroWords(n - |cells|)[0 := w] == [w] + ZeroWords(n - |cells| - 1);
  }

  lemma StorePointer(pre: seq<Word>, n: nat, cells: seq<Cell>, t: Tree)
    requires |cells| < n
    ensures Placed(pre + Partial(n, cells), |pre| + |cells|, t) == pre + Partial(n, cells + [P(t)])
  {
    hide Front, Bodies, Below, Size, Body, PointerTo;
    Extend(n, cells, P(t));
    var w := PointerTo(t, n + Below(cells) - |cells| - 1);
    assert (pre + Partial(n, cells))[|pre| + |cells| := w]
        == pre + Front(n, cells) + [w] + ZeroWords(n - |cells| - 1) + Bodies(cells) by {
      assert ZeroWords(n - |cells|)[0 := w] == [w] + ZeroWords(n - |cells| - 1);
    }
  }
}
