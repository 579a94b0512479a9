/** Sorting by a key in few values: each item goes to the start of its key, and
    its place among the items of that key. */
module CountingSort {
  import opened Kraft
  import opened FseDist
  import opened HuffmanCodes

  /** How many of the first `k` keys are below `w`. */
  function Below(ws: seq<nat>, w: nat, k: nat): nat
    requires k <= |ws|
  {
    if w == 0 then 0 else Below(ws, w - 1, k) + Occ(ws, w - 1, k)
  }

  lemma {:induction false} BelowStep(ws: seq<nat>, w: nat, k: nat)
    requires k < |ws|
    ensures Below(ws, w, k + 1) == Below(ws, w, k) + if ws[k] < w then 1 else 0
    decreases w
  {
    if w > 0 {
      BelowStep(ws, w - 1, k);
    }
  }

  lemma {:induction false} BelowNone(ws: seq<nat>, w: nat)
    ensures Below(ws, w, 0) == 0
    decreases w
  {
    if w > 0 {
      BelowNone(ws, w - 1);
    }
  }

  lemma {:induction false} BelowAll(ws: seq<nat>, u: nat, k: nat)
    requires AtMost(ws, u) && k <= |ws|
    ensures Below(ws, u + 1, k) == k
  {
    if k == 0 {
      BelowNone(ws, u + 1);
    } else {
      BelowAll(ws, u, k - 1);
      BelowStep(ws, u + 1, k - 1);
    }
  }

  lemma {:induction false} BelowMono(ws: seq<nat>, v: nat, w: nat)
    requires v <= w
    ensures Below(ws, v, |ws|) <= Below(ws, w, |ws|)
    ensures v < w ==> Below(ws, v, |ws|) + Count(ws, v) <= Below(ws, w, |ws|)
    decreases w - v
  {
    if v < w {
      BelowMono(ws, v, w - 1);
    }
  }

  /** Where an item goes: its key's start, and its place among its key. */
  function Slot(ws: seq<nat>, s: nat): nat
    requires s < |ws|
  {
    Below(ws, ws[s], |ws|) + Occ(ws, ws[s], s)
  }

  lemma SlotInside(ws: seq<nat>, u: nat, s: nat)
    requires AtMost(ws, u) && s < |ws|
    ensures Slot(ws, s) < Below(ws, ws[s] + 1, |ws|) <= |ws|
  {
    OccMono(ws, ws[s], s, |ws|);
    BelowMono(ws, ws[s] + 1, u + 1);
    BelowAll(ws, u, |ws|);
  }

  lemma SlotDistinct(ws: seq<nat>, u: nat, r: nat, s: nat)
    requires AtMost(ws, u) && r < s < |ws|
    ensures Slot(ws, r) != Slot(ws, s)
  {
    SlotInside(ws, u, r);
    SlotInside(ws, u, s);
    if ws[r] < ws[s] {
      BelowMono(ws, ws[r] + 1, ws[s]);
    } else if ws[s] < ws[r] {
      BelowMono(ws, ws[s] + 1, ws[r]);
    } else {
      OccMono(ws, ws[r], r, s);
    }
  }

  lemma BelowStart(ws: seq<nat>)
    ensures Below(ws, 0, |ws|) == 0
  {
  }

  lemma BelowUp(ws: seq<nat>, w: nat)
    ensures Below(ws, w + 1, |ws|) == Below(ws, w, |ws|) + Count(ws, w)
  {
  }

  lemma OccNone0(ws: seq<nat>)
    ensures forall v :: Occ(ws, v, 0) == 0
  {
  }

  lemma OccNext(ws: seq<nat>, s: nat)
    requires s < |ws|
    ensures forall v :: Occ(ws, v, s + 1) == Occ(ws, v, s) + if ws[s] == v then 1 else 0
    ensures Slot(ws, s) == Below(ws, ws[s], |ws|) + Occ(ws, ws[s], s)
  {
  }

  /** The key whose items place `i` is among. */
  lemma KeyAt(ws: seq<nat>, w: nat, i: nat) returns (v: nat)
    requires i < Below(ws, w, |ws|)
    ensures v < w && Below(ws, v, |ws|) <= i < Below(ws, v, |ws|) + Count(ws, v)
  {
    if i < Below(ws, w - 1, |ws|) {
      v := KeyAt(ws, w - 1, i);
    } else {
      v := w - 1;
    }
  }

  /** Every place is some item's. */
  lemma SlotOnto(ws: seq<nat>, u: nat, i: nat) returns (s: nat)
    requires AtMost(ws, u) && i < |ws|
    ensures s < |ws| && Slot(ws, s) == i
  {
    BelowAll(ws, u, |ws|);
    var v := KeyAt(ws, u + 1, i);
    s := Select(ws, v, i - Below(ws, v, |ws|), |ws|);
  }
}
