/** Moving a selection of rows one position earlier or later. */
module MoveRows {
  import opened CycleSort
  import opened Picking

  /** The selected rows below `length`, each once, in ascending order. */
  function NormalizedIndices(indices: seq<nat>, length: nat): (r: seq<nat>)
    ensures forall i | 0 <= i < |r| :: r[i] < length
    ensures forall i, j | 0 <= i < j < |r| :: r[i] < r[j]
    ensures forall x :: x in r <==> x in indices && x < length
  {
    if length == 0 then []
    else
      var front := NormalizedIndices(indices, length - 1);
      if length - 1 in indices then front + [length - 1] else front
  }

  /** Swapping each selected row with the row before it, in ascending order. */
  function SwapEarlier<T>(s: seq<T>, selected: seq<nat>): (t: seq<T>)
    requires forall i | 0 <= i < |selected| :: 0 < selected[i] < |s|
    ensures |t| == |s|
  {
    if selected == [] then s
    else
      var last := selected[|selected| - 1];
      Swap(SwapEarlier(s, selected[..|selected| - 1]), last - 1, last)
  }

  /** Swapping each selected row with the row after it, in descending order. */
  function SwapLater<T>(s: seq<T>, selected: seq<nat>): (t: seq<T>)
    requires forall i | 0 <= i < |selected| :: selected[i] + 1 < |s|
    ensures |t| == |s|
    decreases |selected|
  {
    if selected == [] then s
    else
      var last := selected[|selected| - 1];
      SwapLater(Swap(s, last, last + 1), selected[..|selected| - 1])
  }

  function Shifted(selected: seq<nat>, offset: int): (r: seq<nat>)
    requires forall i | 0 <= i < |selected| :: selected[i] + offset >= 0
    ensures |r| == |selected| && forall i | 0 <= i < |r| :: r[i] == selected[i] + offset
  {
    seq(|selected|, i requires 0 <= i < |selected| => selected[i] + offset)
  }

  datatype Outcome<T> = Outcome(rows: seq<T>, selected: seq<nat>, changed: bool)

  /** The move command; a selection touching the first row makes it a no-op. */
  function MoveEarlier<T>(s: seq<T>, indices: seq<nat>): Outcome<T> {
    var selected := NormalizedIndices(indices, |s|);
    if selected != [] && selected[0] == 0 then Outcome(s, selected, false)
    else Outcome(SwapEarlier(s, selected), Shifted(selected, -1), selected != [])
  }

  function MoveLater<T>(s: seq<T>, indices: seq<nat>): Outcome<T> {
    var selected := NormalizedIndices(indices, |s|);
    if selected != [] && selected[|selected| - 1] + 1 == |s| then Outcome(s, selected, false)
    else Outcome(SwapLater(s, selected), Shifted(selected, 1), selected != [])
  }

  lemma {:induction false} LaterUndoesEarlier<T>(s: seq<T>, selected: seq<nat>)
    requires forall i | 0 <= i < |selected| :: 0 < selected[i] < |s|
    ensures SwapLater(SwapEarlier(s, selected), Shifted(selected, -1)) == s
  {
    if selected != [] {
      var front, last := selected[..|selected| - 1], selected[|selected| - 1];
      LaterUndoesEarlier(s, front);
      SwapTwice(SwapEarlier(s, front), last - 1, last);
      var rows := Shifted(selected, -1);
      assert rows[..|rows| - 1] == Shifted(front, -1);
    }
  }

  lemma SwapTwice<T>(s: seq<T>, i: nat, j: nat)
    requires i < |s| && j < |s|
    ensures Swap(Swap(s, i, j), i, j) == s
  {}

  lemma {:induction false} EarlierUndoesLater<T>(s: seq<T>, selected: seq<nat>)
    requires forall i | 0 <= i < |selected| :: selected[i] + 1 < |s|
    ensures SwapEarlier(SwapLater(s, selected), Shifted(selected, 1)) == s
    decreases |selected|
  {
    if selected != [] {
      var front, last := selected[..|selected| - 1], selected[|selected| - 1];
      var t := Swap(s, last, last + 1);
      EarlierUndoesLater(t, front);
      var rows := Shifted(selected, 1);
      assert rows[..|rows| - 1] == Shifted(front, 1);
      SwapTwice(s, last, last + 1);
    }
  }

  /** A normalized selection is its own normal form. */
  lemma {:induction false} NormalizedAgain(selected: seq<nat>, length: nat)
    requires Ascending(selected) && forall i | 0 <= i < |selected| :: selected[i] < length
    ensures NormalizedIndices(selected, length) == selected
  {
    SameAscending(NormalizedIndices(selected, length), selected);
  }

  ghost predicate Restores<T>(s: seq<T>, indices: seq<nat>) {
    var moved := MoveEarlier(s, indices);
    MoveLater(moved.rows, moved.selected).rows == s
  }

  /** The selection leaves the first row out, or reaches both ends of the list. */
  predicate EarlierIsReversible(indices: seq<nat>, length: nat) {
    0 !in indices || length == 0 || length - 1 in indices
  }

  /** Moving earlier and then moving the returned rows later restores every list of
      the length exactly when the selection leaves the first row out or reaches both
      ends: a selection of only the first row is not moved, but would be moved back. */
  lemma EarlierThenLater(indices: seq<nat>, length: nat)
    ensures (forall s: seq<nat> | |s| == length :: Restores(s, indices)) <==> EarlierIsReversible(indices, length)
  {
    if EarlierIsReversible(indices, length) {
      forall s: seq<nat> | |s| == length ensures Restores(s, indices) {
        ReversibleRestores(s, indices);
      }
    } else {
      var s: seq<nat> := seq(length, i => i);
      var selected := NormalizedIndices(indices, length);
      FirstSelected(indices, length);
      NormalizedAgain(selected, length);
      assert selected[|selected| - 1] in indices;
      LastSelectedMoves(s, selected);
      assert !Restores(s, indices);
    }
  }

  lemma FirstSelected(indices: seq<nat>, length: nat)
    requires 0 in indices && length > 0
    ensures var r := NormalizedIndices(indices, length); r != [] && r[0] == 0
  {
    assert 0 in NormalizedIndices(indices, length);
  }

  lemma ReversibleRestores<T>(s: seq<T>, indices: seq<nat>)
    requires EarlierIsReversible(indices, |s|)
    ensures Restores(s, indices)
  {
    hide SwapEarlier, SwapLater, NormalizedIndices;
    var selected := NormalizedIndices(indices, |s|);
    if selected != [] && selected[0] == 0 {
      assert |s| - 1 in selected;
      NormalizedAgain(selected, |s|);
      assert selected[|selected| - 1] == |s| - 1;
    } else {
      NormalizedAgain(Shifted(selected, -1), |s|);
      LaterUndoesEarlier(s, selected);
    }
  }

  lemma {:induction false} UntouchedAbove<T>(s: seq<T>, selected: seq<nat>, p: nat)
    requires forall i | 0 <= i < |selected| :: selected[i] + 1 < |s| && selected[i] + 1 < p
    requires p < |s|
    ensures SwapLater(s, selected)[p] == s[p]
    decreases |selected|
  {
    if selected != [] {
      var last := selected[|selected| - 1];
      UntouchedAbove(Swap(s, last, last + 1), selected[..|selected| - 1], p);
    }
  }

  lemma LastSelectedMoves(s: seq<nat>, selected: seq<nat>)
    requires selected != [] && Ascending(selected)
    requires forall i | 0 <= i < |selected| :: selected[i] + 1 < |s|
    requires forall i | 0 <= i < |s| :: s[i] == i
    ensures SwapLater(s, selected) != s
  {
    var last := selected[|selected| - 1];
    UntouchedAbove(Swap(s, last, last + 1), selected[..|selected| - 1], last + 1);
  }

  /** How many rows directly from `q` on are selected. */
  function RunLength(selected: seq<nat>, q: nat, length: nat): (r: nat)
    ensures q <= length ==> q + r <= length
    ensures r > 0 ==> q + r - 1 in selected
    ensures q + r < length ==> q + r !in selected
    decreases length - q
  {
    if q < length && q in selected then 1 + RunLength(selected, q + 1, length) else 0
  }

  /** Where the row at `p` ends: a selected row moves up by one, any other row is
      passed by the run of selected rows right behind it. */
  function Destination(selected: seq<nat>, p: nat, length: nat): nat {
    if p in selected then (if p == 0 then 0 else p - 1) else p + RunLength(selected, p + 1, length)
  }

  lemma {:induction false} RunGrows(front: seq<nat>, last: nat, q: nat, length: nat)
    requires forall i | 0 <= i < |front| :: front[i] < last
    requires last < length && q <= length
    ensures RunLength(front + [last], q, length)
         == RunLength(front, q, length) + if q + RunLength(front, q, length) == last then 1 else 0
    decreases length - q
  {
    if q < length && q in front {
      RunGrows(front, last, q + 1, length);
    } else if q == last {
      assert RunLength(front + [last], last + 1, length) == 0;
    }
  }

  /** Selecting one more, later row swaps the last two destinations it concerns. */
  lemma DestinationStep(front: seq<nat>, last: nat, p: nat, length: nat)
    requires forall i | 0 <= i < |front| :: 0 < front[i] < last
    requires 0 < last < length && p < length
    ensures var d := Destination(front, p, length);
            && d < length
            && Destination(front + [last], p, length) == if d == last then last - 1 else if d == last - 1 then last else d
  {
    RunGrows(front, last, p + 1, length);
    var run := RunLength(front, p + 1, length);
    assert run > 0 ==> p + run < last;
    assert p in front + [last] <==> p in front || p == last;
  }

  lemma {:induction false} EarlierPositions<T>(s: seq<T>, selected: seq<nat>, p: nat)
    requires Ascending(selected) && forall i | 0 <= i < |selected| :: 0 < selected[i] < |s|
    requires p < |s|
    ensures Destination(selected, p, |s|) < |s|
    ensures SwapEarlier(s, selected)[Destination(selected, p, |s|)] == s[p]
  {
    if selected != [] {
      var front, last := selected[..|selected| - 1], selected[|selected| - 1];
      assert selected == front + [last];
      EarlierPositions(s, front, p);
      DestinationStep(front, last, p, |s|);
      hide Destination;
      assert SwapEarlier(s, selected) == Swap(SwapEarlier(s, front), last - 1, last);
    }
  }

  /** Rows that were not selected keep their relative order. */
  lemma UnselectedKeepOrder(selected: seq<nat>, p: nat, q: nat, length: nat)
    requires p < q < length && p !in selected && q !in selected
    ensures Destination(selected, p, length) < Destination(selected, q, length)
  {
    RunStopsBefore(selected, p + 1, q, length);
  }

  lemma {:induction false} RunStopsBefore(selected: seq<nat>, from: nat, q: nat, length: nat)
    requires from <= q < length && q !in selected
    ensures from + RunLength(selected, from, length) <= q
    decreases q - from
  {
    if from < q && from in selected {
      RunStopsBefore(selected, from + 1, q, length);
    }
  }

  // ----- The later direction -----

  /** Position `q` of the list moved later holds the row that an earlier move of the
      shifted selection would take back from there. */
  lemma LaterPositions<T>(s: seq<T>, selected: seq<nat>, q: nat)
    requires Ascending(selected) && forall i | 0 <= i < |selected| :: selected[i] + 1 < |s|
    requires q < |s|
    ensures Destination(Shifted(selected, 1), q, |s|) < |s|
    ensures SwapLater(s, selected)[q] == s[Destination(Shifted(selected, 1), q, |s|)]
  {
    EarlierUndoesLater(s, selected);
    EarlierPositions(SwapLater(s, selected), Shifted(selected, 1), q);
  }

  /** Every selected row moves later by one. */
  lemma SelectedMoveLater<T>(s: seq<T>, selected: seq<nat>, k: nat)
    requires Ascending(selected) && forall i | 0 <= i < |selected| :: selected[i] + 1 < |s|
    requires k < |selected|
    ensures SwapLater(s, selected)[selected[k] + 1] == s[selected[k]]
  {
    LaterPositions(s, selected, selected[k] + 1);
    assert Shifted(selected, 1)[k] in Shifted(selected, 1);
  }

  /** The other positions take the unselected rows, in their old order. */
  lemma UnselectedKeepOrderLater(selected: seq<nat>, p: nat, q: nat, length: nat)
    requires forall i | 0 <= i < |selected| :: selected[i] + 1 < length
    requires p < q < length && p !in Shifted(selected, 1) && q !in Shifted(selected, 1)
    ensures Destination(Shifted(selected, 1), p, length) < Destination(Shifted(selected, 1), q, length)
    ensures Destination(Shifted(selected, 1), p, length) !in selected
  {
    var shifted := Shifted(selected, 1);
    UnselectedKeepOrder(shifted, p, q, length);
    assert forall i | 0 <= i < |selected| :: shifted[i] in shifted;
  }

  // ----- What a move reports -----

  /** Nothing moves, and the selected rows are reported where they are. */
  ghost predicate Stands<T>(s: seq<T>, indices: seq<nat>, o: Outcome<T>) {
    !o.changed && o.rows == s && Ascending(o.selected) && forall q: nat :: q in o.selected <==> q in indices && q < |s|
  }

  /** Every selected row moves by the offset and is reported at its new place. */
  ghost predicate Advances<T>(s: seq<T>, indices: seq<nat>, o: Outcome<T>, offset: int) {
    && o.changed && |o.rows| == |s| && Ascending(o.selected)
    && (forall k: nat | k in indices && k < |s| :: 0 <= k + offset < |s| && o.rows[k + offset] == s[k])
    && (forall q: nat :: q in o.selected <==> 0 <= q - offset < |s| && (q - offset) as nat in indices)
  }

  ghost predicate SelectsNone(indices: seq<nat>, length: nat) {
    forall k | k in indices :: k >= length
  }

  lemma ShiftedHolds(selected: seq<nat>, offset: int, q: nat)
    requires forall i | 0 <= i < |selected| :: selected[i] + offset >= 0
    ensures q in Shifted(selected, offset) <==> q - offset in selected
  {
    if q - offset in selected {
      var i :| 0 <= i < |selected| && selected[i] == q - offset;
      assert Shifted(selected, offset)[i] == q;
    }
  }

  lemma SelectedNone(indices: seq<nat>, length: nat)
    ensures NormalizedIndices(indices, length) == [] <==> SelectsNone(indices, length)
  {
    var selected := NormalizedIndices(indices, length);
    if selected != [] {
      assert selected[0] in selected;
    }
  }

  lemma AdvancesEarlier<T>(s: seq<T>, indices: seq<nat>, selected: seq<nat>)
    requires selected == NormalizedIndices(indices, |s|) && selected != [] && selected[0] > 0
    ensures Ascending(selected) && forall i | 0 <= i < |selected| :: 0 < selected[i] < |s|
    ensures Advances(s, indices, Outcome(SwapEarlier(s, selected), Shifted(selected, -1), true), -1)
  {
    hide NormalizedIndices, SwapEarlier;
    forall k: nat | k in indices && k < |s| ensures k > 0 && SwapEarlier(s, selected)[k - 1] == s[k] {
      assert k in selected;
      EarlierPositions(s, selected, k);
    }
    forall q: nat ensures q in Shifted(selected, -1) <==> q + 1 in selected {
      ShiftedHolds(selected, -1, q);
    }
  }

  lemma AdvancesLater<T>(s: seq<T>, indices: seq<nat>, selected: seq<nat>)
    requires selected == NormalizedIndices(indices, |s|) && selected != [] && selected[|selected| - 1] + 1 < |s|
    ensures Ascending(selected) && forall i | 0 <= i < |selected| :: selected[i] + 1 < |s|
    ensures Advances(s, indices, Outcome(SwapLater(s, selected), Shifted(selected, 1), true), 1)
  {
    hide NormalizedIndices, SwapLater, Destination;
    forall k: nat | k in indices && k < |s| ensures k + 1 < |s| && SwapLater(s, selected)[k + 1] == s[k] {
      assert k in selected;
      var i :| 0 <= i < |selected| && selected[i] == k;
      SelectedMoveLater(s, selected, i);
    }
    forall q: nat ensures q in Shifted(selected, 1) <==> q > 0 && q - 1 in selected {
      ShiftedHolds(selected, 1, q);
    }
  }

  /** The first row selected, or no row at all, and nothing moves; otherwise every selected
      row goes earlier by one. */
  lemma EarlierMeaning<T>(s: seq<T>, indices: seq<nat>)
    ensures if 0 in indices || SelectsNone(indices, |s|) then Stands(s, indices, MoveEarlier(s, indices))
            else Advances(s, indices, MoveEarlier(s, indices), -1)
  {
    hide NormalizedIndices, Advances;
    var selected := NormalizedIndices(indices, |s|);
    SelectedNone(indices, |s|);
    if 0 in indices && |s| > 0 {
      FirstSelected(indices, |s|);
    } else if selected != [] {
      assert selected[0] in selected;
      AdvancesEarlier(s, indices, selected);
    }
  }

  /** The same for the last row and the other direction. */
  lemma LaterMeaning<T>(s: seq<T>, indices: seq<nat>)
    ensures if (|s| > 0 && |s| - 1 in indices) || SelectsNone(indices, |s|) then Stands(s, indices, MoveLater(s, indices))
            else Advances(s, indices, MoveLater(s, indices), 1)
  {
    hide NormalizedIndices, Advances;
    var selected := NormalizedIndices(indices, |s|);
    SelectedNone(indices, |s|);
    if |s| > 0 && |s| - 1 in indices {
      assert |s| - 1 in selected;
    } else if selected != [] {
      assert selected[|selected| - 1] in selected;
      AdvancesLater(s, indices, selected);
    }
  }
}
