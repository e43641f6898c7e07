/** Applying a sort order to whole rows in place, by following its cycles. */
module CycleSort {
  import opened Orders

  function Swap<T>(s: seq<T>, i: nat, j: nat): (t: seq<T>)
    requires i < |s| && j < |s|
    ensures |t| == |s| && t[i] == s[j] && t[j] == s[i]
    ensures forall p | 0 <= p < |s| && p != i && p != j :: t[p] == s[p]
  {
    s[i := s[j]][j := s[i]]
  }

  /** A position is settled once its entry names itself. */
  predicate Settled(order: seq<nat>, p: nat)
    requires p < |order|
  {
    order[p] == p
  }

  ghost function Unsettled(order: seq<nat>): set<nat> {
    set p: nat | p < |order| && !Settled(order, p)
  }

  /** No cycle is half done: settled positions hold their final row, the others
      are untouched, and open entries lead to open positions. */
  ghost predicate Between<T>(rows: seq<T>, order: seq<nat>, now: seq<T>, left: seq<nat>) {
    && Permutes(order, |rows|) && |now| == |left| == |rows|
    && (forall p | 0 <= p < |rows| && Settled(left, p) :: now[p] == rows[order[p]])
    && (forall p | 0 <= p < |rows| && !Settled(left, p) ::
          left[p] == order[p] && now[p] == rows[p] && left[p] < |rows| && !Settled(left, left[p]))
  }

  /** In the middle of the cycle that began at `start`: the row of `start` waits at
      the open position `current`, and no open entry leads there except at the start. */
  ghost predicate Following<T>(rows: seq<T>, order: seq<nat>, now: seq<T>, left: seq<nat>, start: nat, current: nat) {
    && Permutes(order, |rows|) && |now| == |left| == |rows|
    && start < |rows| && current < |rows| && !Settled(left, current) && now[current] == rows[start]
    && (forall p | 0 <= p < |rows| && Settled(left, p) :: now[p] == rows[order[p]])
    && (forall p | 0 <= p < |rows| && !Settled(left, p) ::
          && left[p] == order[p] && left[p] < |rows| && (p != current ==> now[p] == rows[p])
          && (left[p] == start || (left[p] != current && !Settled(left, left[p]))))
  }

  /** One step settles exactly `current`, and either closes the cycle or moves on. */
  lemma FollowStep<T>(rows: seq<T>, order: seq<nat>, now: seq<T>, left: seq<nat>, start: nat, current: nat)
    requires Following(rows, order, now, left, start, current)
    ensures var next, closed := left[current], left[current := current];
            && Unsettled(closed) == Unsettled(left) - {current}
            && next < |rows| && (next != start ==> !Settled(closed, next))
            && if next == start
               then Between(rows, order, now, closed)
               else Following(rows, order, Swap(now, current, next), closed, start, next)
  {
    var next, closed := left[current], left[current := current];
    assert forall p | 0 <= p < |rows| && p != current :: Settled(closed, p) == Settled(left, p);
    forall p | 0 <= p < |rows| && !Settled(closed, p) ensures left[p] != next {
      assert order[p] != order[current];
    }
  }

  lemma FollowBegin<T>(rows: seq<T>, order: seq<nat>, now: seq<T>, left: seq<nat>, start: nat)
    requires Between(rows, order, now, left)
    requires start < |rows| && |left| == |rows| && !Settled(left, start)
    ensures Following(rows, order, now, left, start, start)
  {}

  lemma OpenIsUnsettled(left: seq<nat>, p: nat)
    requires p < |left| && !Settled(left, p)
    ensures p in Unsettled(left)
  {}

  /** The first `n` positions hold their final rows. */
  ghost predicate DoneTo<T>(rows: seq<T>, order: seq<nat>, now: seq<T>, left: seq<nat>, n: nat) {
    n <= |rows| && Between(rows, order, now, left) && forall p | 0 <= p < n :: Settled(left, p)
  }

  /** Inside the cycle of `start`, or at `start` itself when it is settled. */
  ghost predicate Cycling<T>(rows: seq<T>, order: seq<nat>, now: seq<T>, left: seq<nat>, start: nat, current: nat) {
    && start < |rows| && current < |rows| && |left| == |now| == |rows|
    && (if Settled(left, current) then Between(rows, order, now, left) else Following(rows, order, now, left, start, current))
    && (current != start ==> Settled(left, start))
    && forall p | 0 <= p < start :: Settled(left, p)
  }

  lemma CycleBegin<T>(rows: seq<T>, order: seq<nat>, now: seq<T>, left: seq<nat>, start: nat)
    requires DoneTo(rows, order, now, left, start) && start < |rows|
    ensures Cycling(rows, order, now, left, start, start)
  {
    if !Settled(left, start) {
      FollowBegin(rows, order, now, left, start);
    }
  }

  lemma CycleEnd<T>(rows: seq<T>, order: seq<nat>, now: seq<T>, left: seq<nat>, start: nat, current: nat)
    requires Cycling(rows, order, now, left, start, current) && left[current] == current
    ensures DoneTo(rows, order, now, left, start + 1)
  {
    hide Between, Following;
  }

  lemma CycleStep<T>(rows: seq<T>, order: seq<nat>, now: seq<T>, left: seq<nat>, start: nat, current: nat)
    requires Cycling(rows, order, now, left, start, current) && left[current] != current
    ensures var next, closed := left[current], left[current := current];
            && next < |rows| && Unsettled(closed) < Unsettled(left)
            && if next == start then Cycling(rows, order, now, closed, start, current)
               else Cycling(rows, order, Swap(now, current, next), closed, start, next)
  {
    hide Between, Following, Unsettled, Swap;
    FollowStep(rows, order, now, left, start, current);
    OpenIsUnsettled(left, current);
    var closed := left[current := current];
    assert Settled(closed, current);
    assert forall p | 0 <= p < |rows| && Settled(left, p) :: Settled(closed, p);
  }

  lemma Untouched<T>(rows: seq<T>, order: seq<nat>)
    requires Permutes(order, |rows|)
    ensures DoneTo(rows, order, rows, order, 0)
  {
    forall p | 0 <= p < |rows| && !Settled(order, p) ensures !Settled(order, order[p]) {
      var q := order[p];
      assert order[p] != order[q];
    }
  }

  lemma AllSettled<T>(rows: seq<T>, order: seq<nat>, now: seq<T>, left: seq<nat>)
    requires DoneTo(rows, order, now, left, |rows|)
    ensures now == Permuted(rows, order)
  {}

  /** `order[destination]` is the original position of the row that belongs there.
      Every row ends where the order says; each step settles one position for good. */
  method FollowCycles<T>(rows: seq<T>, order: seq<nat>) returns (placed: seq<T>)
    requires Permutes(order, |rows|)
    ensures placed == Permuted(rows, order)
  {
    Untouched(rows, order);
    assert InRange(order, |rows|);
    hide Permutes, DoneTo, Cycling, Unsettled, InRange;
    placed := rows;
    var left: seq<nat> := order;
    for start := 0 to |rows|
      invariant |left| == |placed| == |rows| && DoneTo(rows, order, placed, left, start)
    {
      var current: nat := start;
      CycleBegin(rows, order, placed, left, start);
      while left[current] != current
        invariant current < |rows| && |left| == |placed| == |rows|
        invariant Cycling(rows, order, placed, left, start, current)
        decreases Unsettled(left)
      {
        CycleStep(rows, order, placed, left, start, current);
        var next := left[current];
        left := left[current := current];
        if next == start {
          break;
        }
        placed := Swap(placed, current, next);
        current := next;
      }
      CycleEnd(rows, order, placed, left, start, current);
    }
    AllSettled(rows, order, placed, left);
  }

  /** What the sort command reports. For the stable order of a total preorder, the
      rows changed exactly when the order is not the identity. */
  lemma ChangedExactlyWhenReordered<T>(cmp: Comparator<T>, rows: seq<T>, order: seq<nat>)
    requires PreorderOn(cmp, rows) && IsStableOrder(cmp, rows, order)
    ensures (Permuted(rows, order) == rows) <==> (forall p | 0 <= p < |order| :: order[p] == p)
  {
    if Permuted(rows, order) == rows {
      StableSortMeaning(cmp, rows, rows, rows);
      IdentityOrderWhenSorted(cmp, rows, order);
    }
  }
}
