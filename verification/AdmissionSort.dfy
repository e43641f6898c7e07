/** The cancellable bottom-up merge sort of source admission. */
module AdmissionSort {
  import opened Orders
  import opened Machine
  import opened Polling

  /** Distinct positions, in stable order when `cmp` is a preorder. */
  ghost predicate Precedes<T>(cmp: Comparator<T>, s: seq<T>, a: nat, b: nat) {
    && a < |s| && b < |s| && a != b
    && (PreorderOn(cmp, s) ==> Before(cmp, s, a, b))
  }

  /** Slots `[lo, hi)` hold the positions `[lo, hi)` in stable order. */
  ghost predicate Run<T>(cmp: Comparator<T>, s: seq<T>, o: seq<nat>, lo: nat, hi: nat) {
    && lo <= hi <= |o| == |s|
    && (forall p | lo <= p < hi :: lo <= o[p] < hi)
    && (forall p, q | lo <= p < q < hi :: Precedes(cmp, s, o[p], o[q]))
  }

  ghost predicate RunAt<T>(cmp: Comparator<T>, s: seq<T>, o: seq<nat>, width: nat, lo: nat)
    requires lo <= |o| == |s|
  {
    Run(cmp, s, o, lo, Min(lo + width, |s|))
  }

  /** Every aligned block of `width` slots before `limit` is a run. */
  ghost predicate Runs<T>(cmp: Comparator<T>, s: seq<T>, o: seq<nat>, width: nat, limit: nat)
    requires limit <= |o| == |s|
  {
    width > 0 && forall lo | 0 <= lo < limit && lo % width == 0 :: RunAt(cmp, s, o, width, lo)
  }

  lemma PrecedesTransitive<T>(cmp: Comparator<T>, s: seq<T>, a: nat, b: nat, c: nat)
    requires Precedes(cmp, s, a, b) && Precedes(cmp, s, b, c) && a != c
    ensures Precedes(cmp, s, a, c)
  {
    if PreorderOn(cmp, s) { BeforeIsStrictOrder(cmp, s, a, b, c); }
  }

  /** The merge step's test decides stable order between a left and a right head. */
  lemma HeadOrder<T>(cmp: Comparator<T>, s: seq<T>, a: nat, b: nat)
    requires a < b < |s|
    ensures cmp(s[a], s[b]) != Greater ==> Precedes(cmp, s, a, b)
    ensures cmp(s[a], s[b]) == Greater ==> Precedes(cmp, s, b, a)
  {
    if PreorderOn(cmp, s) {
      assert cmp(s[a], s[b]) == cmp(s[b], s[a]).Reverse();
    }
  }

  /** A merge of `[start, middle)` and `[middle, end)` in progress: `done` has been
      written, and the heads `left` and `right` are still to be consumed. */
  ghost predicate Merging<T>(cmp: Comparator<T>, s: seq<T>, o: seq<nat>, done: seq<nat>,
                             start: nat, left: nat, middle: nat, right: nat, end: nat) {
    && start <= left <= middle <= right <= end && |done| == left - start + right - middle
    && Run(cmp, s, o, start, middle) && Run(cmp, s, o, middle, end)
    && (forall p | 0 <= p < |done| :: start <= done[p] < end)
    && (forall p, q | 0 <= p < q < |done| :: Precedes(cmp, s, done[p], done[q]))
    && (forall p, q | 0 <= p < |done| && left <= q < middle :: Precedes(cmp, s, done[p], o[q]))
    && (forall p, q | 0 <= p < |done| && right <= q < end :: Precedes(cmp, s, done[p], o[q]))
  }

  lemma MergeStart<T>(cmp: Comparator<T>, s: seq<T>, o: seq<nat>, start: nat, middle: nat, end: nat)
    requires Run(cmp, s, o, start, middle) && Run(cmp, s, o, middle, end)
    ensures start <= middle <= end <= |s| == |o|
    ensures forall p | start <= p < end :: o[p] < |s|
    ensures Merging(cmp, s, o, [], start, start, middle, middle, end)
  {}

  lemma TakeLeft<T>(cmp: Comparator<T>, s: seq<T>, o: seq<nat>, done: seq<nat>,
                    start: nat, left: nat, middle: nat, right: nat, end: nat)
    requires Merging(cmp, s, o, done, start, left, middle, right, end)
    requires left < middle
    requires right < end ==> cmp(s[o[left]], s[o[right]]) != Greater
    ensures Merging(cmp, s, o, done + [o[left]], start, left + 1, middle, right, end)
  {
    forall q | right <= q < end ensures Precedes(cmp, s, o[left], o[q]) {
      HeadOrder(cmp, s, o[left], o[right]);
      if q > right { PrecedesTransitive(cmp, s, o[left], o[right], o[q]); }
    }
  }

  lemma TakeRight<T>(cmp: Comparator<T>, s: seq<T>, o: seq<nat>, done: seq<nat>,
                     start: nat, left: nat, middle: nat, right: nat, end: nat)
    requires Merging(cmp, s, o, done, start, left, middle, right, end)
    requires right < end
    requires left < middle ==> cmp(s[o[left]], s[o[right]]) == Greater
    ensures Merging(cmp, s, o, done + [o[right]], start, left, middle, right + 1, end)
  {
    forall q | left <= q < middle ensures Precedes(cmp, s, o[right], o[q]) {
      HeadOrder(cmp, s, o[left], o[right]);
      if q > left { PrecedesTransitive(cmp, s, o[right], o[left], o[q]); }
    }
  }

  /** When one run is used up the rest of the other completes the merge. */
  lemma MergeDone<T>(cmp: Comparator<T>, s: seq<T>, o: seq<nat>, done: seq<nat>, merged: seq<nat>,
                     start: nat, left: nat, middle: nat, right: nat, end: nat)
    requires Merging(cmp, s, o, done, start, left, middle, right, end)
    requires left == middle || right == end
    requires |merged| == |s| && merged[start..end] == done + o[left..middle] + o[right..end]
    ensures Run(cmp, s, merged, start, end)
  {
    hide Precedes;
    var written := done + o[left..middle] + o[right..end];
    assert forall p | start <= p < end :: merged[p] == written[p - start];
  }

  /** Copies the slots `[from, to)` of `order` to `merged`, starting at `output`. */
  method Drain(order: array<nat>, merged: array<nat>, from: nat, to: nat, output: nat, probe: Probe, clock: nat)
    returns (cancelled: bool, polls: nat)
    requires order != merged && from <= to <= order.Length && output + to - from <= merged.Length
    modifies merged
    ensures Polled(probe, clock, polls, cancelled)
    ensures merged[..output] == old(merged[..output])
    ensures !cancelled ==> merged[output..output + to - from] == order[from..to]
  {
    polls, cancelled := clock, false;
    for next := from to to
      invariant merged[..output] == old(merged[..output])
      invariant merged[output..output + next - from] == order[from..next]
      invariant Polled(probe, clock, polls, false)
    {
      polls := polls + 1;
      if probe(polls - 1) {
        return true, polls;
      }
      merged[output + next - from] := order[next];
    }
  }

  /** Merges until one of the adjacent runs `[start, middle)`, `[middle, end)` is used up. */
  method MergeHeads<T>(cmp: Comparator<T>, s: seq<T>, order: array<nat>, merged: array<nat>,
                       start: nat, middle: nat, end: nat, probe: Probe, clock: nat)
    returns (cancelled: bool, polls: nat, left: nat, right: nat, ghost done: seq<nat>)
    requires order != merged && order.Length == merged.Length == |s|
    requires Run(cmp, s, order[..], start, middle) && Run(cmp, s, order[..], middle, end)
    modifies merged
    ensures Polled(probe, clock, polls, cancelled)
    ensures start <= left <= middle <= right <= end <= |s| && (!cancelled ==> left == middle || right == end)
    ensures Merging(cmp, s, order[..], done, start, left, middle, right, end)
    ensures merged[..left + right - middle] == old(merged[..start]) + done
  {
    hide Merging, Run, Precedes;
    MergeStart(cmp, s, order[..], start, middle, end);
    var output: nat := start;
    left, right, done := start, middle, [];
    polls, cancelled := clock, false;
    while left < middle && right < end
      invariant start <= left <= middle <= right <= end && output == left + right - middle
      invariant Merging(cmp, s, order[..], done, start, left, middle, right, end)
      invariant merged[..output] == old(merged[..start]) + done
      invariant Polled(probe, clock, polls, false)
    {
      polls := polls + 1;
      if probe(polls - 1) {
        cancelled := true;
        return;
      }
      if cmp(s[order[left]], s[order[right]]) != Greater {
        TakeLeft(cmp, s, order[..], done, start, left, middle, right, end);
        done := done + [order[left]];
        merged[output] := order[left];
        left := left + 1;
      } else {
        TakeRight(cmp, s, order[..], done, start, left, middle, right, end);
        done := done + [order[right]];
        merged[output] := order[right];
        right := right + 1;
      }
      output := output + 1;
    }
  }

  /** Three pieces written one after the other behind an untouched front. */
  lemma WrittenInPieces(first: seq<nat>, second: seq<nat>, front: seq<nat>, done: seq<nat>, left: seq<nat>, right: seq<nat>,
                        a: nat, b: nat, end: nat)
    requires |front| + |done| == a <= b <= end <= |first| == |second|
    requires first[..a] == front + done && first[a..b] == left
    requires second[..b] == first[..b] && second[b..end] == right
    ensures second[..|front|] == front
    ensures second[|front|..end] == done + left + right
  {
    assert second[..end] == second[..b] + second[b..end];
    assert first[..b] == first[..a] + first[a..b];
    assert second[..end] == front + (done + left + right);
    assert second[..|front|] == second[..end][..|front|];
    assert second[|front|..end] == second[..end][|front|..];
  }

  /** One merge of the adjacent runs `[start, middle)` and `[middle, end)`. */
  method MergeRuns<T>(cmp: Comparator<T>, s: seq<T>, order: array<nat>, merged: array<nat>,
                      start: nat, middle: nat, end: nat, probe: Probe, clock: nat)
    returns (cancelled: bool, polls: nat)
    requires order != merged && order.Length == merged.Length == |s|
    requires Run(cmp, s, order[..], start, middle) && Run(cmp, s, order[..], middle, end)
    modifies merged
    ensures Polled(probe, clock, polls, cancelled)
    ensures !cancelled ==> Run(cmp, s, merged[..], start, end)
    ensures !cancelled ==> start <= merged.Length && merged[..start] == old(merged[..start])
  {
    hide Merging, Run, Precedes;
    var left, right;
    ghost var done;
    cancelled, polls, left, right, done := MergeHeads(cmp, s, order, merged, start, middle, end, probe, clock);
    if cancelled {
      return;
    }
    var output := left + right - middle;
    cancelled, polls := Drain(order, merged, left, middle, output, probe, polls);
    if cancelled {
      return;
    }
    ghost var first := merged[..];
    var next := output + middle - left;
    cancelled, polls := Drain(order, merged, right, end, next, probe, polls);
    if cancelled {
      return;
    }
    assert first[..output] == old(merged[..start]) + done && first[output..next] == order[left..middle];
    WrittenInPieces(first, merged[..], old(merged[..start]), done, order[left..middle], order[right..end], output, next, end);
    MergeDone(cmp, s, order[..], done, merged[..], start, left, middle, right, end);
  }

  lemma AlignedGap(lo: nat, limit: nat, width: nat)
    requires width > 0 && lo % width == 0 && limit % width == 0 && lo < limit
    ensures lo + width <= limit
  {
    var a, b := lo / width, limit / width;
    assert lo == width * a && limit == width * b;
    assert b <= a ==> width * b <= width * a;
    assert width * (a + 1) == width * a + width;
    assert b > a ==> width * b >= width * (a + 1);
  }

  lemma AlignedDouble(lo: nat, width: nat)
    requires width > 0 && lo % (2 * width) == 0
    ensures lo % width == 0 && (lo + width) % width == 0
    ensures (lo + 2 * width) % (2 * width) == 0
  {
    var k := lo / (2 * width);
    assert lo == width * (2 * k);
    MultipleOf(lo, 2 * k, width);
    assert lo + width == width * (2 * k + 1);
    MultipleOf(lo + width, 2 * k + 1, width);
    assert lo + 2 * width == (2 * width) * (k + 1);
    MultipleOf(lo + 2 * width, k + 1, 2 * width);
  }

  lemma MultipleOf(n: nat, k: nat, width: nat)
    requires width > 0 && n == width * k
    ensures n % width == 0
  {
    var q, r := n / width, n % width;
    assert n == width * q + r;
    assert k <= q ==> width * k <= width * q;
    assert k > q ==> width * k >= width * (q + 1);
  }

  /** A pass that merged the pair of blocks at `start` has one more double block. */
  lemma RunsExtend<T>(cmp: Comparator<T>, s: seq<T>, was: seq<nat>, now: seq<nat>, width: nat, start: nat, end: nat)
    requires |was| == |now| == |s| && start < end <= |s|
    requires Runs(cmp, s, was, width, start) && start % width == 0
    requires now[..start] == was[..start]
    requires end == Min(start + width, |s|) && Run(cmp, s, now, start, end)
    ensures Runs(cmp, s, now, width, end)
  {
    forall lo | 0 <= lo < end && lo % width == 0 ensures RunAt(cmp, s, now, width, lo) {
      if lo < start {
        AlignedGap(lo, start, width);
        assert RunAt(cmp, s, was, width, lo);
        assert forall p | lo <= p < lo + width :: now[p] == now[..start][p] == was[..start][p] == was[p];
      } else if lo > start {
        AlignedGap(start, lo, width);
      }
    }
  }

  /** Doubling may saturate, but only when one block already covers everything. */
  lemma RunsAfterDoubling<T>(cmp: Comparator<T>, s: seq<T>, o: seq<nat>, width: nat)
    requires |o| == |s| <= MAX_USIZE && 0 < width
    requires Runs(cmp, s, o, 2 * width, |s|)
    ensures Runs(cmp, s, o, SaturatingMul(width, 2), |s|)
  {
    var next := SaturatingMul(width, 2);
    if 2 * width > MAX_USIZE {
      forall lo | 0 <= lo < |s| && lo % next == 0 ensures RunAt(cmp, s, o, next, lo) {
        assert lo == 0;
        assert RunAt(cmp, s, o, 2 * width, 0);
      }
    }
  }

  lemma UnitRuns<T>(cmp: Comparator<T>, s: seq<T>, o: seq<nat>)
    requires |o| == |s| && forall p | 0 <= p < |o| :: o[p] == p
    ensures Runs(cmp, s, o, 1, |s|)
  {
    forall lo | 0 <= lo < |s| && lo % 1 == 0 ensures RunAt(cmp, s, o, 1, lo) {
      assert Run(cmp, s, o, lo, lo + 1);
    }
  }

  lemma WholeRun<T>(cmp: Comparator<T>, s: seq<T>, o: seq<nat>, width: nat)
    requires 0 < |s| == |o| <= width && Runs(cmp, s, o, width, |s|)
    ensures Permutes(o, |s|)
    ensures PreorderOn(cmp, s) ==> IsStableOrder(cmp, s, o)
  {
    assert RunAt(cmp, s, o, width, 0);
  }

  /** One pass: pairs of neighbouring blocks of `order` become double blocks of `merged`. */
  method MergePass<T>(cmp: Comparator<T>, s: seq<T>, order: array<nat>, merged: array<nat>,
                      width: nat, probe: Probe, clock: nat)
    returns (cancelled: bool, polls: nat)
    requires order != merged && order.Length == merged.Length == |s| <= MAX_USIZE
    requires Runs(cmp, s, order[..], width, |s|)
    modifies merged
    ensures Polled(probe, clock, polls, cancelled)
    ensures !cancelled ==> Runs(cmp, s, merged[..], 2 * width, |s|)
  {
    hide Run;
    var len := |s|;
    polls, cancelled := clock, false;
    var start: nat := 0;
    while start < len
      invariant start <= len && (start == len || start % (2 * width) == 0)
      invariant Runs(cmp, s, order[..], width, len)
      invariant Runs(cmp, s, merged[..], 2 * width, start)
      invariant Polled(probe, clock, polls, false)
    {
      var middle := Min(SaturatingAdd(start, width), len);
      var end := Min(SaturatingAdd(middle, width), len);
      BlockPair(cmp, s, order[..], width, start, middle, end);
      ghost var was := merged[..];
      cancelled, polls := MergeRuns(cmp, s, order, merged, start, middle, end, probe, polls);
      if cancelled {
        return;
      }
      RunsExtend(cmp, s, was, merged[..], 2 * width, start, end);
      start := end;
    }
  }

  lemma BlockPair<T>(cmp: Comparator<T>, s: seq<T>, o: seq<nat>, width: nat, start: nat, middle: nat, end: nat)
    requires |o| == |s| && Runs(cmp, s, o, width, |s|)
    requires start < |s| && start % (2 * width) == 0
    requires middle == Min(start + width, |s|) && end == Min(middle + width, |s|)
    ensures Run(cmp, s, o, start, middle) && Run(cmp, s, o, middle, end)
    ensures end == Min(start + 2 * width, |s|) && (end == |s| || end % (2 * width) == 0)
  {
    AlignedDouble(start, width);
    assert RunAt(cmp, s, o, width, start);
    if middle < |s| { assert RunAt(cmp, s, o, width, middle); }
  }

  lemma AlreadyOrdered<T>(cmp: Comparator<T>, s: seq<T>)
    requires |s| < 2
    ensures StableSortOf(cmp, s, s)
    ensures exists order :: Permutes(order, |s|) && s == Permuted(s, order)
  {
    var identity := seq(|s|, p => p);
    assert IsStableOrder(cmp, s, identity) && Permutes(identity, |s|) && s == Permuted(s, identity);
  }

  datatype Slot<T> = Vacant | Held(path: T)

  /** Moves every path out of its slot in the listed order. A listed slot is
      never found vacant, so no path is filtered away. */
  method TakeInOrder<T>(paths: array<T>, order: array<nat>)
    requires Permutes(order[..], paths.Length)
    requires paths as object != order
    modifies paths
    ensures paths[..] == Permuted(old(paths[..]), order[..])
    ensures order[..] == old(order[..])
  {
    ghost var s := paths[..];
    ghost var o := order[..];
    var slots := new Slot<T>[paths.Length](i requires 0 <= i < paths.Length reads paths => Held(paths[i]));
    var moved: seq<T> := [];
    for k := 0 to order.Length
      invariant moved == Permuted(s, o[..k])
      invariant forall i | 0 <= i < slots.Length && i !in o[..k] :: slots[i] == Held(s[i])
      invariant paths[..] == s && order[..] == o
    {
      var index := order[k];
      assert index !in o[..k];
      assert o[..k + 1] == o[..k] + [index];
      if index < slots.Length && slots[index].Held? {
        moved := moved + [slots[index].path];
        slots[index] := Vacant;
      }
    }
    assert o[..|o|] == o;
    forall k | 0 <= k < paths.Length {
      paths[k] := moved[k];
    }
  }

  /** Sorts `paths` in place. Cancellation at any poll leaves it untouched;
      otherwise the outcome is a rearrangement of whole paths, and the stable
      sort whenever `cmp` is a total preorder on them. */
  method SortPathsCancellable<T>(paths: array<T>, cmp: Comparator<T>, probe: Probe, clock: nat)
    returns (cancelled: bool, polls: nat)
    requires paths.Length <= MAX_USIZE
    modifies paths
    ensures Polled(probe, clock, polls, cancelled) && polls > clock
    ensures cancelled ==> paths[..] == old(paths[..])
    ensures !cancelled ==> exists order :: Permutes(order, paths.Length) && paths[..] == Permuted(old(paths[..]), order)
    ensures !cancelled && PreorderOn(cmp, old(paths[..])) ==> StableSortOf(cmp, old(paths[..]), paths[..])
  {
    hide Runs, Permutes, PreorderOn;
    var len := paths.Length;
    var s := paths[..];
    polls := clock;
    if len < 2 {
      polls := polls + 1;
      cancelled := probe(polls - 1);
      AlreadyOrdered(cmp, s);
      return;
    }
    var order := new nat[len](p => p);
    var merged := new nat[len](_ => 0);
    var width: nat := 1;
    UnitRuns(cmp, s, order[..]);
    while width < len
      invariant width > 0 && order != merged && fresh(order) && fresh(merged)
      invariant order.Length == merged.Length == len && paths[..] == s
      invariant Runs(cmp, s, order[..], width, len)
      invariant Polled(probe, clock, polls, false)
      decreases len - width
    {
      cancelled, polls := MergePass(cmp, s, order, merged, width, probe, polls);
      if cancelled {
        return;
      }
      order, merged := merged, order;
      RunsAfterDoubling(cmp, s, order[..], width);
      width := SaturatingMul(width, 2);
    }
    polls := polls + 1;
    if probe(polls - 1) {
      return true, polls;
    }
    WholeRun(cmp, s, order[..], width);
    TakeInOrder(paths, order);
    cancelled := false;
  }
}
