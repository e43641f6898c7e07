/** The rename workbench list. Every operation states its whole new state; failing
    operations change nothing. `granted(k)` answers the `k`-th reservation of memory
    an operation makes, and `spare` is the identity a new `Arc` would get. */
module LegacyListModel {
  import opened Orders
  import opened Paths
  import opened Machine
  import opened CycleSort
  import opened MoveRows
  import opened AppendIndex
  import opened SortModes
  import opened Batch
  import opened ListState
  import opened Proposals
  import opened Replacement
  import opened ImportExport
  import opened Picking
  import opened Wrappers

  /** A staged append: the index to extend, the new rows and the new totals. */
  datatype StagedBatch = Staging(known: Chunks, tail: seq<Item>, names: nat, paths: nat, clock: nat)

  /** The index was built for this list at this source revision. */
  predicate CurrentFor(index: IndexState, list: ListState) {
    index.model == Some(list.identity) && index.revision == list.revision
  }

  /** The index holds exactly the list's source paths. */
  ghost predicate Indexes(index: IndexState, list: ListState) {
    multiset(Flatten(index.chunks)) == multiset(Sources(list.items))
  }

  /** Every appended name fits and both totals stay within budget. */
  ghost predicate BatchFits(list: ListState, tail: seq<Item>) {
    tail == [] ||
    (&& (forall i | 0 <= i < |tail| :: |tail[i].proposed| <= MAX_NAME_UNITS)
     && list.nameUnits + SumNames(tail) <= MAX_TOTAL_NAME_UNITS
     && list.pathUnits + SumPaths(tail) <= MAX_TOTAL_PATH_UNITS)
  }

  lemma FoldLength(cmp: Comparator<Text>, accepted: seq<Item>)
    requires TotalPreorder(cmp)
    ensures |LegacyFold(cmp, accepted)| == |accepted|
  {
    FoldKeepsRows(cmp, accepted);
    assert |multiset(LegacyFold(cmp, accepted))| == |LegacyFold(cmp, accepted)|;
    assert |multiset(accepted)| == |accepted|;
  }

  lemma AppendedTotals(list: ListState, tail: seq<Item>)
    ensures SumNames(list.items + tail) == SumNames(list.items) + SumNames(tail)
    ensures SumPaths(list.items + tail) == SumPaths(list.items) + SumPaths(tail)
    ensures Sources(list.items + tail) == Sources(list.items) + Sources(tail)
  {
    SumConcat(list.items, tail, NameUnits);
    SumConcat(list.items, tail, PathUnits);
  }

  lemma AppendedConsistent(before: ListState, tail: seq<Item>, after: ListState)
    requires Consistent(before) && BatchFits(before, tail) && after.revision <= MAX_U64
    requires after.items == before.items + tail
    requires after.nameUnits == before.nameUnits + SumNames(tail) && after.pathUnits == before.pathUnits + SumPaths(tail)
    ensures Consistent(after)
  {
    AppendedTotals(before, tail);
    assert tail == [] ==> after.items == before.items;
  }

  /** A fresh index of the rows' source paths. */
  method RebuildChunks(cmp: Comparator<Text>, items: seq<Item>, granted: bool) returns (r: Option<Chunks>)
    requires TotalPreorder(cmp)
    ensures r.Some? <==> granted
    ensures r.Some? ==> && Sorted(cmp, Flatten(r.value)) && Shaped(r.value)
                        && multiset(Flatten(r.value)) == multiset(Sources(items))
  {
    var sources := Sources(items);
    PreorderEverywhere(cmp, sources);
    hide TotalPreorder, PreorderOn;
    var order := StdSortBy(cmp, sources);
    var sorted := Permuted(sources, order);
    PermutedMultiset(sources, order);
    forall i, j | 0 <= i < j < |sorted| ensures cmp(sorted[i], sorted[j]) != Greater {
      assert Before(cmp, sources, order[i], order[j]);
    }
    r := TryChunkSortedSources(sorted, granted);
  }

  /** Drops the items already listed. Only rows from before the batch count. */
  method AcceptBatch(cmp: Comparator<Text>, known: Chunks, items: seq<Item>, batch: seq<Item>, granted: Reservations, clock: nat)
    returns (r: Result<seq<Item>>, next: nat)
    requires TotalPreorder(cmp) && Sorted(cmp, Flatten(known)) && Shaped(known)
    requires multiset(Flatten(known)) == multiset(Sources(items))
    ensures r.Ok? ==> r.value == Accepted(cmp, Sources(items), batch)
    ensures r.Ok? ==> exists positions: seq<nat> ::
              && PickedAt(batch, positions, r.value)
              && forall k: nat :: k in positions <==>
                                  k < |batch| && forall x | x in Sources(items) :: cmp(x, batch[k].source) != Equal
    ensures r.Err? ==> r.error == AllocationFailed && SomeRefused(granted)
  {
    hide TotalPreorder, Sorted, Shaped;
    ghost var positions := AcceptedMeaning(cmp, Sources(items), batch);
    var accepted: seq<Item> := [];
    next := clock;
    for k := 0 to |batch|
      invariant accepted == Accepted(cmp, Sources(items), batch[..k])
    {
      assert batch[..k + 1][..k] == batch[..k];
      var listed := SourceChunksContain(cmp, known, batch[k].source);
      assert forall x :: x in Flatten(known) <==> x in multiset(Flatten(known));
      assert forall x :: x in Sources(items) <==> x in multiset(Sources(items));
      if listed {
        continue;
      }
      next := next + 1;
      if !granted(next - 1) {
        return Err(AllocationFailed), next;
      }
      accepted := accepted + [batch[k]];
    }
    assert batch[..|batch|] == batch;
    r := Ok(accepted);
  }

  method SortBatch(cmp: Comparator<Text>, accepted: seq<Item>) returns (sorted: seq<Item>)
    requires TotalPreorder(cmp)
    ensures sorted == LegacyFold(cmp, accepted)
  {
    BatchPreorder(cmp, WithPositions(accepted));
    hide TotalPreorder, PreorderOn, LegacyFold;
    var order := StdSortBy(BatchComparator(cmp), WithPositions(accepted));
    StableOrderIsSorted(BatchComparator(cmp), WithPositions(accepted), order);
    SortedBatchIsLegacyFold(cmp, accepted, order);
    sorted := Permuted(accepted, order);
  }

  lemma StableOrderIsSorted<T>(cmp: Comparator<T>, s: seq<T>, order: seq<nat>)
    requires IsStableOrder(cmp, s, order)
    ensures Sorted(cmp, Permuted(s, order))
  {
    forall i, j | 0 <= i < j < |order| ensures cmp(s[order[i]], s[order[j]]) != Greater {
      assert Before(cmp, s, order[i], order[j]);
    }
  }

  /** Why an append does not fit: the first name that is too long, or a total. */
  ghost predicate BatchTrouble(listed: nat, tail: seq<Item>, names: nat, paths: nat, error: MutationError) {
    match error
    case NameBudgetExceeded(row, units) =>
      exists k: nat :: && k < |tail| && row == listed + k && units == |tail[k].proposed| > MAX_NAME_UNITS
                       && forall i | 0 <= i < k :: |tail[i].proposed| <= MAX_NAME_UNITS
    case AggregateBudgetExceeded(units) =>
      && (forall i | 0 <= i < |tail| :: |tail[i].proposed| <= MAX_NAME_UNITS)
      && units == names + SumNames(tail) > MAX_TOTAL_NAME_UNITS
    case PlannedPathBudgetExceeded(units) =>
      && (forall i | 0 <= i < |tail| :: |tail[i].proposed| <= MAX_NAME_UNITS)
      && names + SumNames(tail) <= MAX_TOTAL_NAME_UNITS && units == paths + SumPaths(tail) > MAX_TOTAL_PATH_UNITS
    case ArithmeticOverflow => names + SumNames(tail) > MAX_USIZE || paths + SumPaths(tail) > MAX_USIZE
    case _ => false
  }

  /** The budget checks of an append, row by row. */
  method CheckBatch(listed: nat, tail: seq<Item>, names: nat, paths: nat) returns (r: Result<(nat, nat)>)
    ensures r.Ok? <==> && (forall i | 0 <= i < |tail| :: |tail[i].proposed| <= MAX_NAME_UNITS)
                       && names + SumNames(tail) <= MAX_TOTAL_NAME_UNITS
                       && paths + SumPaths(tail) <= MAX_TOTAL_PATH_UNITS
    ensures r.Ok? ==> r.value == (names + SumNames(tail), paths + SumPaths(tail))
    ensures r.Err? ==> BatchTrouble(listed, tail, names, paths, r.error)
  {
    var total, totalPath := names, paths;
    assert tail[..0] == [];
    for k := 0 to |tail|
      invariant forall i | 0 <= i < k :: |tail[i].proposed| <= MAX_NAME_UNITS
      invariant total == names + SumNames(tail[..k]) && totalPath == paths + SumPaths(tail[..k])
    {
      SumStep(tail, k);
      hide SumNames, SumPaths;
      if |tail[k].proposed| > MAX_NAME_UNITS {
        return Err(NameBudgetExceeded(listed + k, |tail[k].proposed|));
      }
      total := total + |tail[k].proposed|;
      totalPath := totalPath + PlannedPathUnits(tail[k].parent, |tail[k].proposed|);
      if total > MAX_USIZE || totalPath > MAX_USIZE {
        return Err(ArithmeticOverflow);
      }
    }
    assert tail[..|tail|] == tail;
    if total > MAX_TOTAL_NAME_UNITS {
      return Err(AggregateBudgetExceeded(total));
    }
    if totalPath > MAX_TOTAL_PATH_UNITS {
      return Err(PlannedPathBudgetExceeded(totalPath));
    }
    return Ok((total, totalPath));
  }

  /** Adds the appended sources to the index one at a time. */
  method InsertSources(index: LegacyAppendIndex, sources: seq<Text>, granted: Reservations, clock: nat) returns (inserted: bool)
    requires index.WellFormed()
    modifies index`chunks
    ensures index.WellFormed()
    ensures inserted ==> multiset(Flatten(index.chunks)) == old(multiset(Flatten(index.chunks))) + multiset(sources)
    ensures !inserted ==> SomeRefused(granted)
  {
    hide TotalPreorder, Sorted, Shaped, Flatten;
    for k := 0 to |sources|
      invariant index.WellFormed()
      invariant multiset(Flatten(index.chunks)) == old(multiset(Flatten(index.chunks))) + multiset(sources[..k])
    {
      assert sources[..k + 1] == sources[..k] + [sources[k]];
      ghost var relocations;
      inserted, relocations := index.TryInsertSource(sources[k], granted(clock + k));
      if !inserted {
        return;
      }
    }
    assert sources[..|sources|] == sources;
    inserted := true;
  }

  /** The kept units, with a preserved root separator written as a backslash. */
  method RootWritten(destination: Text, length: nat, root: bool) returns (normalized: Text)
    requires (length, root) == NormalizedParentLength(destination)
    ensures normalized == NormalizedParent(destination)
  {
    normalized := destination[..length];
    if root && length > 0 {
      normalized := normalized[length - 1 := BACKSLASH];
    }
  }

  function Reparented(item: Item, parent: Text): Item {
    item.(parent := parent)
  }

  function WithParent(items: seq<Item>, parent: Text): (r: seq<Item>)
    ensures |r| == |items| && forall i | 0 <= i < |r| :: r[i] == Reparented(items[i], parent)
  {
    seq(|items|, i requires 0 <= i < |items| => Reparented(items[i], parent))
  }

  function WithSourceParents(items: seq<Item>): (r: seq<Item>)
    ensures |r| == |items| && forall i | 0 <= i < |r| :: r[i] == Reparented(items[i], SourceParent(items[i].source))
  {
    seq(|items|, i requires 0 <= i < |items| => Reparented(items[i], SourceParent(items[i].source)))
  }

  lemma {:induction false} SameNames(before: seq<Item>, after: seq<Item>)
    requires |before| == |after| && forall i | 0 <= i < |before| :: after[i].proposed == before[i].proposed
    ensures SumNames(after) == SumNames(before)
  {
    if before != [] {
      SameNames(before[..|before| - 1], after[..|after| - 1]);
    }
  }

  lemma {:induction false} UnifiedTotals(items: seq<Item>, parent: Text)
    ensures SumPaths(WithParent(items, parent))
         == (|parent| + DestinationSeparatorUnits(parent)) * |items| + SumNames(items)
    ensures SumNames(WithParent(items, parent)) == SumNames(items)
  {
    SameNames(items, WithParent(items, parent));
    if items != [] {
      var front := items[..|items| - 1];
      UnifiedTotals(front, parent);
      assert WithParent(items, parent)[..|items| - 1] == WithParent(front, parent);
      OneMore(|front|, |parent| + DestinationSeparatorUnits(parent));
    }
  }

  function WithParents(items: seq<Item>, parents: seq<Text>): (r: seq<Item>)
    requires |parents| == |items|
    ensures |r| == |items| && forall i | 0 <= i < |r| :: r[i] == Reparented(items[i], parents[i])
  {
    seq(|items|, i requires 0 <= i < |items| => Reparented(items[i], parents[i]))
  }

  /** Lists the rows whose parent differs, then writes all parents. */
  method SetParents(items: seq<Item>, parents: seq<Text>) returns (r: seq<Item>, changed: seq<nat>)
    requires |parents| == |items|
    ensures r == WithParents(items, parents) && changed == ChangedRows(items, r, |items|)
  {
    changed := RowsToReparent(items, parents);
    r := items;
    for row := 0 to |items|
      invariant |r| == |items|
      invariant forall i | 0 <= i < row :: r[i] == Reparented(items[i], parents[i])
      invariant forall i | row <= i < |items| :: r[i] == items[i]
    {
      hide Reparented;
      r := r[row := Reparented(r[row], parents[row])];
    }
    assert r == WithParents(items, parents);
  }

  method RowsToReparent(items: seq<Item>, parents: seq<Text>) returns (changed: seq<nat>)
    requires |parents| == |items|
    ensures changed == ChangedRows(items, WithParents(items, parents), |items|)
  {
    changed := [];
    ghost var next := WithParents(items, parents);
    for row := 0 to |items|
      invariant changed == ChangedRows(items, next, row)
    {
      ChangedStep(items, next, row);
      assert (items[row] == next[row]) == (items[row].parent == parents[row]);
      hide ChangedRows, Reparented;
      if items[row].parent != parents[row] {
        changed := changed + [row];
      }
    }
  }

  method RequestedPathUnits(items: seq<Item>) returns (requested: nat)
    ensures requested == SumPaths(WithSourceParents(items))
  {
    requested := 0;
    ghost var next := WithSourceParents(items);
    assert next[..0] == [];
    for row := 0 to |items|
      invariant requested == SumPaths(next[..row])
    {
      hide SumPaths, WithSourceParents;
      SumStep(next, row);
      requested := requested + PlannedPathUnits(SourceParent(items[row].source), |items[row].proposed|);
    }
    assert next[..|items|] == next;
  }

  ghost function ResetPathUnits(items: seq<Item>, row: nat): nat
    requires row <= |items|
  {
    SumPaths(WithSourceParents(items)[..row])
  }

  lemma ParentWithinPath(items: seq<Item>, row: nat)
    requires row < |items|
    ensures ResetPathUnits(items, row) + |SourceParent(items[row].source)| <= ResetPathUnits(items, row + 1)
    ensures ResetPathUnits(items, row + 1) <= SumPaths(WithSourceParents(items))
  {
    SumStep(WithSourceParents(items), row);
  }

  /** The error for a path total over its budget. */
  function PathTrouble(units: nat): MutationError {
    if units > MAX_USIZE then ArithmeticOverflow else PlannedPathBudgetExceeded(units)
  }

  /** The first source parent that is too long gives the error. */
  ghost predicate ParentTrouble(items: seq<Item>, error: MutationError) {
    exists i :: && 0 <= i < |items| && |SourceParent(items[i].source)| > MAX_PARENT_UNITS
                && error == ParentBudgetExceeded(|SourceParent(items[i].source)|)
                && forall k | 0 <= k < i :: |SourceParent(items[k].source)| <= MAX_PARENT_UNITS
  }

  /** Collects the source parents, sharing equal ones and counting each once. */
  method StageSourceParents(items: seq<Item>, granted: Reservations) returns (r: Result<seq<Text>>)
    requires SumPaths(WithSourceParents(items)) <= MAX_TOTAL_PATH_UNITS
    ensures r.Ok? ==> && |r.value| == |items|
                      && forall i | 0 <= i < |items| :: r.value[i] == SourceParent(items[i].source)
                                                        && |r.value[i]| <= MAX_PARENT_UNITS
    ensures r.Err? ==> && !r.error.AggregateBudgetExceeded?
                       && (ParentTrouble(items, r.error) || (r.error == AllocationFailed && SomeRefused(granted)))
  {
    hide SumPaths, WithSourceParents, SourceParent, ResetPathUnits;
    if !granted(0) {
      return Err(AllocationFailed);
    }
    var shared: set<Text> := {};
    var staged: seq<Text> := [];
    var aggregate: nat := 0;
    for row := 0 to |items|
      invariant |staged| == row
      invariant forall i | 0 <= i < row :: staged[i] == SourceParent(items[i].source) && |staged[i]| <= MAX_PARENT_UNITS
      invariant aggregate <= ResetPathUnits(items, row)
    {
      ParentWithinPath(items, row);
      var parent := SourceParent(items[row].source);
      if |parent| > MAX_PARENT_UNITS {
        return Err(ParentBudgetExceeded(|parent|));
      }
      if parent !in shared {
        aggregate := aggregate + |parent|;
        if aggregate > MAX_TOTAL_PARENT_UNITS {
          assert false;
        }
        if !granted(1 + |shared|) {
          return Err(AllocationFailed);
        }
        shared := shared + {parent};
      }
      staged := staged + [parent];
    }
    return Ok(staged);
  }

  /** The first rows take the lines, the others keep their name. */
  function ImportProposals(lines: seq<Text>): nat -> Proposal {
    (row: nat) => if row < |lines| then Propose(lines[row]) else Keep
  }

  lemma ExportComesBack(items: seq<Item>)
    ensures (forall i | 0 <= i < |items| :: IsLine(items[i].proposed)) ==> ParseImportLines(ExportLines(Names(items))) == Names(items)
  {
    if forall i | 0 <= i < |items| :: IsLine(items[i].proposed) {
      ParseUndoesExport(Names(items));
    }
  }

  /** Importing a list's own export is acceptable and changes no row when every
      name is a line: trimmed, not blank and without line feeds. */
  lemma ImportOwnExport(s: ListState)
    requires Consistent(s)
    requires forall i | 0 <= i < |s.items| :: IsLine(s.items[i].proposed)
    ensures var proposals := ImportProposals(ParseImportLines(ExportLines(Names(s.items))));
            Proposed(s.items, proposals) == s.items && Acceptable(s.items, proposals)
  {
    hide IsLine, SumNames, SumPaths;
    var proposals := ImportProposals(ParseImportLines(ExportLines(Names(s.items))));
    ParseUndoesExport(Names(s.items));
    assert Proposed(s.items, proposals) == s.items;
  }

  /** When the planned path of the moved row has no backslash, the cached total falls one
      short. Removing rows then takes more from it than it holds exactly when no row is
      kept. */
  lemma LostUnitUnderflows(before: ListState, after: ListState, index: nat, selection: seq<nat>)
    requires Consistent(before) && index < |before.items| && after.pathUnits == before.pathUnits
    requires after.items == before.items[index := Moved(before.items[index])]
    requires BACKSLASH !in before.items[index].PlannedPath()
    ensures SumPaths(after.items) == after.pathUnits + 1
    ensures var kept := Unselected(after.items, selection, |after.items|);
            SumPaths(after.items) - SumPaths(kept) > after.pathUnits <==> kept == []
  {
    hide Unselected;
    SumUpdate(before.items, index, Moved(before.items[index]), PathUnits);
    MovedUnits(before.items[index]);
  }

  /** What the totals say after one row took the state of a recorded move. */
  lemma MoveKeepsConsistency(before: ListState, after: ListState, index: nat)
    requires Consistent(before) && index < |before.items| && after.revision <= MAX_U64
    requires after.items == before.items[index := Moved(before.items[index])]
    requires after.nameUnits == before.nameUnits - |before.items[index].proposed| + |after.items[index].proposed|
    requires after.pathUnits == before.pathUnits
    ensures after.nameUnits == SumNames(after.items)
    ensures var item := before.items[index];
            var name := PathName(item.PlannedPath());
            Consistent(after) <==>
              && Rejoins(item.PlannedPath()) && |name| <= MAX_NAME_UNITS
              && before.nameUnits + |name| <= MAX_TOTAL_NAME_UNITS + |item.proposed|
  {
    var item := before.items[index];
    SumUpdate(before.items, index, Moved(item), NameUnits);
    SumUpdate(before.items, index, Moved(item), PathUnits);
    MovedRowIsSettled(item);
    hide Rejoins, Moved, Sum;
    assert forall i | 0 <= i < |after.items| && i != index :: after.items[i] == before.items[i];
  }

  function Names(items: seq<Item>): (names: seq<Text>)
    ensures |names| == |items| && forall i | 0 <= i < |names| :: names[i] == items[i].proposed
  {
    seq(|items|, i requires 0 <= i < |items| => items[i].proposed)
  }

  function ReplacedName(name: Text, needle: Text, replacement: Text): Text {
    if needle == [] then name else Substitute(name, needle, replacement)
  }

  /** The proposal gives the row the wanted name, or refuses one that is too long. */
  predicate Asks(item: Item, proposal: Proposal, wanted: Text) {
    if proposal.Refuse? then |wanted| > MAX_NAME_UNITS else NextName(item, proposal) == wanted
  }

  lemma LongNeedle(name: Text, needle: Text, replacement: Text)
    ensures needle != [] && |needle| > |name| ==> Substitute(name, needle, replacement) == name
  {
    if needle != [] && |needle| > |name| {
      UnchangedExactly(name, needle, replacement);
    }
  }

  lemma {:induction false} ShorterNames(before: seq<Item>, after: seq<Item>)
    requires |before| == |after| && forall i | 0 <= i < |before| :: |after[i].proposed| <= |before[i].proposed|
    ensures SumNames(after) <= SumNames(before)
  {
    if before != [] {
      ShorterNames(before[..|before| - 1], after[..|after| - 1]);
    }
  }

  /** With the same parents, path total and name total move together. */
  lemma {:induction false} SameParents(before: seq<Item>, after: seq<Item>)
    requires |before| == |after| && forall i | 0 <= i < |before| :: after[i].parent == before[i].parent
    ensures SumPaths(before) + SumNames(after) == SumPaths(after) + SumNames(before)
  {
    if before != [] {
      SameParents(before[..|before| - 1], after[..|after| - 1]);
    }
  }

  method SwapAllEarlier<T>(s: seq<T>, selected: seq<nat>) returns (t: seq<T>)
    requires forall i | 0 <= i < |selected| :: 0 < selected[i] < |s|
    ensures t == SwapEarlier(s, selected) && multiset(t) == multiset(s)
  {
    t := s;
    for k := 0 to |selected|
      invariant |t| == |s| && t == SwapEarlier(s, selected[..k]) && multiset(t) == multiset(s)
    {
      assert selected[..k + 1][..k] == selected[..k];
      SwapKeepsRows(t, selected[k] - 1, selected[k]);
      t := Swap(t, selected[k] - 1, selected[k]);
    }
    assert selected[..|selected|] == selected;
  }

  method SwapAllLater<T>(s: seq<T>, selected: seq<nat>) returns (t: seq<T>)
    requires forall i | 0 <= i < |selected| :: selected[i] + 1 < |s|
    ensures t == SwapLater(s, selected) && multiset(t) == multiset(s)
  {
    t := s;
    assert selected[..|selected|] == selected;
    for k := |selected| downto 0
      invariant |t| == |s| && multiset(t) == multiset(s)
      invariant SwapLater(t, selected[..k]) == SwapLater(s, selected)
    {
      assert selected[..k + 1][..k] == selected[..k];
      SwapKeepsRows(t, selected[k], selected[k] + 1);
      t := Swap(t, selected[k], selected[k] + 1);
    }
  }

  /** Walks the rows once beside the selection, keeping the rows it skips and
      adding up the units of the others. */
  method RetainUnselected(items: seq<Item>, selection: seq<nat>, selected: seq<nat>)
    returns (kept: seq<Item>, removedUnits: nat, removedPathUnits: nat)
    requires selected == NormalizedIndices(selection, |items|)
    requires SumPaths(items) <= MAX_USIZE
    ensures kept == Unselected(items, selection, |items|)
    ensures removedUnits + SumNames(kept) == SumNames(items)
    ensures removedPathUnits + SumPaths(kept) == SumPaths(items)
  {
    NothingSummed(items, selection);
    hide NormalizedIndices, Unselected, SumNames, SumPaths;
    kept := [];
    var next: nat := 0;
    removedUnits, removedPathUnits := 0, 0;
    for row := 0 to |items|
      invariant 0 <= next <= |selected|
      invariant forall i | 0 <= i < next :: selected[i] < row
      invariant forall i | next <= i < |selected| :: selected[i] >= row
      invariant kept == Unselected(items, selection, row)
      invariant removedUnits + SumNames(kept) == SumNames(items[..row])
      invariant removedPathUnits + SumPaths(kept) == SumPaths(items[..row])
    {
      UnselectedStep(items, selection, row);
      var item := items[row];
      if next < |selected| && selected[next] == row {
        assert row in selected;
        next := next + 1;
        removedUnits := removedUnits + |item.proposed|;
        removedPathUnits := SaturatingAdd(removedPathUnits,
          SaturatingAdd(SaturatingAdd(|item.parent|, DestinationSeparatorUnits(item.parent)), |item.proposed|));
      } else {
        assert row !in selected;
        kept := kept + [item];
      }
    }
    assert items[..|items|] == items;
  }

  lemma NothingSummed(items: seq<Item>, selection: seq<nat>)
    ensures SumNames([]) == SumPaths([]) == 0
    ensures items[..0] == [] && Unselected(items, selection, 0) == []
  {}

  lemma UnselectedStep(items: seq<Item>, selection: seq<nat>, row: nat)
    requires row < |items|
    ensures var front := Unselected(items, selection, row);
            && Unselected(items, selection, row + 1) == (if row in selection then front else front + [items[row]])
            && SumNames(front + [items[row]]) == SumNames(front) + NameUnits(items[row])
            && SumPaths(front + [items[row]]) == SumPaths(front) + PathUnits(items[row])
    ensures SumNames(items[..row + 1]) == SumNames(items[..row]) + NameUnits(items[row])
    ensures SumPaths(items[..row + 1]) == SumPaths(items[..row]) + PathUnits(items[row]) <= SumPaths(items)
  {
    SumStep(items, row);
    hide Sum;
    var front := Unselected(items, selection, row);
    SumConcat(front, [items[row]], NameUnits);
    SumConcat(front, [items[row]], PathUnits);
    SumOne(items[row], NameUnits);
    SumOne(items[row], PathUnits);
  }

  /** The rows below `n` that are not selected. */
  function Unselected(items: seq<Item>, selection: seq<nat>, n: nat): seq<Item>
    requires n <= |items|
  {
    if n == 0 then []
    else
      var front := Unselected(items, selection, n - 1);
      if n - 1 in selection then front else front + [items[n - 1]]
  }

  /** They are the rows at exactly the positions outside the selection, in their order. */
  lemma {:induction false} UnselectedMeaning(items: seq<Item>, selection: seq<nat>, n: nat) returns (positions: seq<nat>)
    requires n <= |items|
    ensures PickedAt(items[..n], positions, Unselected(items, selection, n))
    ensures forall k: nat :: k in positions <==> k < n && k !in selection
  {
    positions := [];
    if n > 0 {
      positions := UnselectedMeaning(items, selection, n - 1);
      assert items[..n] == items[..n - 1] + [items[n - 1]];
      PickNext(items[..n - 1], items[n - 1], positions, Unselected(items, selection, n - 1));
      if n - 1 !in selection {
        positions := positions + [n - 1];
      }
    }
  }

  /** What stays of the rows when those selected go. */
  ghost predicate KeepsOutside(items: seq<Item>, selection: seq<nat>, kept: seq<Item>) {
    exists positions: seq<nat> ::
      && PickedAt(items, positions, kept)
      && forall k: nat :: k in positions <==> k < |items| && k !in selection
  }

  lemma UnselectedKeepsOutside(items: seq<Item>, selection: seq<nat>)
    ensures KeepsOutside(items, selection, Unselected(items, selection, |items|))
  {
    var positions := UnselectedMeaning(items, selection, |items|);
    assert items[..|items|] == items;
  }

  lemma {:induction false} NothingSelected(items: seq<Item>, selection: seq<nat>, n: nat)
    requires n <= |items| && forall k: nat :: k in selection ==> k >= n
    ensures Unselected(items, selection, n) == items[..n]
  {
    if n > 0 {
      NothingSelected(items, selection, n - 1);
      assert items[..n] == items[..n - 1] + [items[n - 1]];
    }
  }

  lemma {:induction false} UnselectedRows(items: seq<Item>, selection: seq<nat>, n: nat)
    requires n <= |items|
    ensures forall i | 0 <= i < |Unselected(items, selection, n)| :: Unselected(items, selection, n)[i] in items
  {
    if n > 0 {
      UnselectedRows(items, selection, n - 1);
    }
  }

  lemma SwapKeepsRows<T>(s: seq<T>, i: nat, j: nat)
    requires i < j < |s|
    ensures multiset(Swap(s, i, j)) == multiset(s)
  {
    var t := Swap(s, i, j);
    assert s == s[..i] + [s[i]] + s[i + 1..j] + [s[j]] + s[j + 1..];
    assert t == s[..i] + [s[j]] + s[i + 1..j] + [s[i]] + s[j + 1..];
  }

  /** Rows with other parents keep the name total; the path total is their own. */
  lemma ReparentedIsConsistent(before: ListState, next: seq<Item>)
    requires Consistent(before) && |next| == |before.items|
    requires forall i | 0 <= i < |next| :: next[i].proposed == before.items[i].proposed
    ensures SumPaths(next) <= MAX_TOTAL_PATH_UNITS ==> Consistent(before.(items := next, pathUnits := SumPaths(next)))
  {
    SameNames(before.items, next);
  }

  /** The totals when one row takes another name. */
  lemma NamedTotals(before: ListState, index: nat, name: Text)
    requires Consistent(before) && index < |before.items|
    ensures var item := before.items[index];
            var next := before.items[index := WithName(item, name)];
            && SumNames(next) == before.nameUnits - |item.proposed| + |name|
            && SumPaths(next) == before.pathUnits - item.PlannedUnits() + PlannedPathUnits(item.parent, |name|)
            && (|name| <= MAX_NAME_UNITS && SumNames(next) <= MAX_TOTAL_NAME_UNITS && SumPaths(next) <= MAX_TOTAL_PATH_UNITS ==>
                  Consistent(before.(items := next, nameUnits := SumNames(next), pathUnits := SumPaths(next))))
  {
    SumUpdate(before.items, index, WithName(before.items[index], name), NameUnits);
    SumUpdate(before.items, index, WithName(before.items[index], name), PathUnits);
    hide Sum;
  }

  class LegacyList {
    var items: seq<Item>
    var nameUnits: nat
    var pathUnits: nat
    var identity: Token
    var sourceRevision: nat

    constructor (spare: Token)
      ensures State() == ListState([], 0, 0, spare, 0) && Consistent(State())
    {
      items, nameUnits, pathUnits, identity, sourceRevision := [], 0, 0, spare, 0;
    }

    function State(): ListState
      reads this
    {
      ListState(items, nameUnits, pathUnits, identity, sourceRevision)
    }

    /** A clone has the rows and totals, and an identity of its own. */
    method Clone(spare: Token) returns (copy: LegacyList)
      ensures fresh(copy) && copy.State() == State().(identity := spare, revision := 0)
    {
      copy := new LegacyList(spare);
      copy.items, copy.nameUnits, copy.pathUnits := items, nameUnits, pathUnits;
    }

    method InvalidateSourceIndex(spare: Token)
      modifies this`identity, this`sourceRevision
      ensures (identity, sourceRevision) == Bumped(old(identity), old(sourceRevision), spare)
    {
      if sourceRevision < MAX_U64 {
        sourceRevision := sourceRevision + 1;
      } else {
        identity, sourceRevision := spare, 0;
      }
    }

    method Clear(spare: Token) returns (changed: bool)
      requires Consistent(State())
      modifies this
      ensures Consistent(State()) && items == []
      ensures changed <==> old(items) != []
      ensures if changed then IsInvalidated(old(State()), State(), spare) else State() == old(State())
    {
      changed := items != [];
      items, nameUnits, pathUnits := [], 0, 0;
      if changed {
        InvalidateSourceIndex(spare);
      }
    }

    /** Removes the selected rows; the rest keep their order. */
    method RemoveRows(selection: seq<nat>, spare: Token) returns (removed: nat)
      requires Consistent(State())
      modifies this
      ensures Consistent(State())
      ensures removed == |NormalizedIndices(selection, |old(items)|)|
      ensures items == Unselected(old(items), selection, |old(items)|)
      ensures KeepsOutside(old(items), selection, items)
      ensures if removed == 0 then State() == old(State()) else IsInvalidated(old(State()), State(), spare)
    {
      hide KeepsOutside;
      UnselectedKeepsOutside(items, selection);
      var selected := NormalizedIndices(selection, |items|);
      removed := |selected|;
      if removed == 0 {
        NothingSelected(items, selection, |items|);
        return;
      }
      var kept, removedUnits, removedPathUnits := RetainUnselected(items, selection, selected);
      UnselectedRows(items, selection, |items|);
      forall i | 0 <= i < |kept| ensures |kept[i].proposed| <= MAX_NAME_UNITS {
        var k :| 0 <= k < |items| && items[k] == kept[i];
      }
      items := kept;
      nameUnits := nameUnits - removedUnits;
      pathUnits := pathUnits - removedPathUnits;
      InvalidateSourceIndex(spare);
    }

    method MoveRowsEarlier(selection: seq<nat>) returns (rows: seq<nat>, changed: bool)
      requires Consistent(State())
      modifies this`items
      ensures Outcome(items, rows, changed) == MoveEarlier(old(items), selection)
      ensures multiset(items) == multiset(old(items)) && Consistent(State())
    {
      var selected := NormalizedIndices(selection, |items|);
      if selected != [] && selected[0] == 0 {
        return selected, false;
      }
      hide Consistent, NormalizedIndices;
      ghost var before := State();
      var moved := SwapAllEarlier(items, selected);
      ReorderedIsConsistent(before, moved);
      items := moved;
      return Shifted(selected, -1), selected != [];
    }

    method MoveRowsLater(selection: seq<nat>) returns (rows: seq<nat>, changed: bool)
      requires Consistent(State())
      modifies this`items
      ensures Outcome(items, rows, changed) == MoveLater(old(items), selection)
      ensures multiset(items) == multiset(old(items)) && Consistent(State())
    {
      var selected := NormalizedIndices(selection, |items|);
      if selected != [] && selected[|selected| - 1] + 1 == |items| {
        return selected, false;
      }
      hide Consistent, NormalizedIndices;
      ghost var before := State();
      var moved := SwapAllLater(items, selected);
      ReorderedIsConsistent(before, moved);
      items := moved;
      return Shifted(selected, 1), selected != [];
    }

    /** Sorts whole rows. For a total preorder the rows end as the stable sort, and
        the result says exactly whether any row moved. */
    method SortBy(compare: Comparator<Item>) returns (changed: bool)
      requires Consistent(State())
      modifies this`items
      ensures Consistent(State()) && multiset(items) == multiset(old(items))
      ensures !changed ==> items == old(items)
      ensures PreorderOn(compare, old(items)) ==>
                StableSortOf(compare, old(items), items) && (changed <==> items != old(items))
    {
      hide Consistent, PreorderOn;
      ghost var before := State();
      var order := StdSortBy(compare, items);
      PermutedMultiset(items, order);
      ReorderedIsConsistent(before, Permuted(items, order));
      if PreorderOn(compare, items) {
        ChangedExactlyWhenReordered(compare, items, order);
      }
      if forall p | 0 <= p < |order| :: order[p] == p {
        assert Permuted(items, order) == items;
        return false;
      }
      items := FollowCycles(items, order);
      changed := true;
    }

    /** The sort command. Every mode gives the stable sort; the legacy size policy
        does when all sizes lie on one half turn of the 32-bit circle. */
    method SortByWithSemantics(mode: SortMode, semantics: SortSemantics, compareText: Comparator<Text>) returns (changed: bool)
      requires Consistent(State()) && TotalPreorder(compareText)
      modifies this`items
      ensures Consistent(State()) && multiset(items) == multiset(old(items))
      ensures !changed ==> items == old(items)
      ensures (ComparesLegacySizes(mode, semantics) ==> OnHalfTurn(old(items))) ==>
                && StableSortOf(SortComparator(mode, semantics, compareText), old(items), items)
                && (changed <==> items != old(items))
    {
      ModesArePreorders(mode, semantics, compareText, items);
      hide TotalPreorder, Consistent, OnHalfTurn;
      changed := SortBy(SortComparator(mode, semantics, compareText));
    }

    /** Sets one proposed name; out-of-range rows are ignored, and the only refusals
        are the three budgets. */
    method SetManualProposal(index: nat, name: Text) returns (r: Result<Option<bool>>)
      requires Consistent(State())
      modifies this
      ensures Consistent(State()) && KeepsBinding(old(State()), State())
      ensures index >= |old(items)| ==> r == Ok(None) && State() == old(State())
      ensures index < |old(items)| ==>
                var next := old(items)[index := WithName(old(items)[index], name)];
                && (r.Ok? <==> |name| <= MAX_NAME_UNITS && SumNames(next) <= MAX_TOTAL_NAME_UNITS
                                && SumPaths(next) <= MAX_TOTAL_PATH_UNITS)
                && (r.Ok? ==> items == next && r.value == Some(old(items)[index].proposed != name))
                && (r.Err? ==> r.error == if |name| > MAX_NAME_UNITS then NameBudgetExceeded(index, |name|)
                                          else if SumNames(next) > MAX_TOTAL_NAME_UNITS then AggregateBudgetExceeded(SumNames(next))
                                          else PlannedPathBudgetExceeded(SumPaths(next)))
      ensures r.Err? ==> State() == old(State())
    {
      if index >= |items| {
        return Ok(None);
      }
      var current := items[index];
      NamedTotals(State(), index, name);
      hide Consistent, SumNames, SumPaths;
      if |name| > MAX_NAME_UNITS {
        return Err(NameBudgetExceeded(index, |name|));
      }
      var total := nameUnits - |current.proposed| + |name|;
      if total > MAX_TOTAL_NAME_UNITS {
        return Err(AggregateBudgetExceeded(total));
      }
      var totalPath := pathUnits - PlannedPathUnits(current.parent, |current.proposed|)
                       + PlannedPathUnits(current.parent, |name|);
      if totalPath > MAX_TOTAL_PATH_UNITS {
        return Err(PlannedPathBudgetExceeded(totalPath));
      }
      var changed := current.proposed != name;
      items := items[index := WithName(current, name)];
      nameUnits, pathUnits := total, totalPath;
      return Ok(Some(changed));
    }

    /** Records one successful move. The name total is always exact; the list stays
        consistent exactly when the path it moved to rejoins and its last component
        is within the name budgets. */
    method RecordMoveSuccess(index: nat, spare: Token) returns (found: bool)
      requires Consistent(State())
      modifies this
      ensures found <==> index < |old(items)|
      ensures !found ==> State() == old(State())
      ensures found ==>
                && items == old(items)[index := Moved(old(items)[index])]
                && nameUnits == SumNames(items)
                && IsInvalidated(old(State()), State(), spare)
                && (Consistent(State()) <==>
                      var item := old(items)[index];
                      var name := PathName(item.PlannedPath());
                      && Rejoins(item.PlannedPath()) && |name| <= MAX_NAME_UNITS
                      && old(nameUnits) + |name| <= MAX_TOTAL_NAME_UNITS + |item.proposed|)
    {
      hide Rejoins, Moved;
      if index >= |items| {
        return false;
      }
      ghost var before := State();
      var item := items[index];
      SumUpdate(items, index, item, NameUnits);
      items := items[index := Moved(item)];
      nameUnits := nameUnits - |item.proposed| + |Moved(item).proposed|;
      InvalidateSourceIndex(spare);
      MoveKeepsConsistency(before, State(), index);
      return true;
    }

    /** The staged edit of all rows. It commits exactly the acceptable batches,
        reports exactly the rows that changed, and is otherwise a no-op. */
    method TryChangeProposals(proposals: nat -> Proposal, granted: Reservations) returns (r: Result<seq<nat>>)
      requires Consistent(State())
      modifies this
      ensures Consistent(State()) && KeepsBinding(old(State()), State())
      ensures r.Ok? ==> Acceptable(old(items), proposals) && items == Proposed(old(items), proposals)
                        && r.value == ChangedRows(old(items), items, |items|)
      ensures r.Err? ==> State() == old(State())
      ensures r.Err? ==> || (!Acceptable(old(items), proposals) && RefusedFor(old(items), proposals, r.error))
                         || (r.error == AllocationFailed && SomeRefused(granted))
    {
      hide RefusedFor;
      var staged := StageProposals(items, proposals, granted);
      if staged.Err? {
        return Err(staged.error);
      }
      ghost var next := Proposed(items, proposals);
      CommitBegin(items, next, staged.value.updates);
      var renamed, changed := CommitProposals(items, next, staged.value.updates);
      items := renamed;
      nameUnits, pathUnits := staged.value.nameUnits, staged.value.pathUnits;
      return Ok(changed);
    }

    /** The in-place edit of all rows, for transforms that never lengthen a name. */
    method ChangeProposals(transform: Item -> Text) returns (changed: seq<nat>)
      requires Consistent(State())
      requires forall item :: |transform(item)| <= |item.proposed|
      modifies this
      ensures Consistent(State()) && KeepsBinding(old(State()), State())
      ensures items == Mapped(old(items), transform) && changed == ChangedRows(old(items), items, |items|)
    {
      var renamed, rows, total := TransformNames(items, transform);
      ShorterNames(items, renamed);
      SameParents(items, renamed);
      hide SumNames, SumPaths;
      var removed := SaturatingSub(nameUnits, total);
      items := renamed;
      nameUnits := total;
      pathUnits := pathUnits - removed;
      return rows;
    }

    method ClearName() returns (changed: seq<nat>)
      requires Consistent(State())
      modifies this
      ensures Consistent(State()) && KeepsBinding(old(State()), State())
      ensures items == Mapped(old(items), (item: Item) => StemExtension(item).1)
      ensures changed == ChangedRows(old(items), items, |items|)
    {
      changed := ChangeProposals((item: Item) => StemExtension(item).1);
    }

    method DeleteExtension() returns (changed: seq<nat>)
      requires Consistent(State())
      modifies this
      ensures Consistent(State()) && KeepsBinding(old(State()), State())
      ensures items == Mapped(old(items), (item: Item) => StemExtension(item).0)
      ensures changed == ChangedRows(old(items), items, |items|)
    {
      changed := ChangeProposals((item: Item) => StemExtension(item).0);
    }

    method ResetProposals(granted: Reservations) returns (r: Result<seq<nat>>)
      requires Consistent(State())
      modifies this
      ensures Consistent(State()) && KeepsBinding(old(State()), State())
      ensures var next := Mapped(old(items), (item: Item) => item.current);
              && (r.Ok? ==> Fits(next) && items == next && r.value == ChangedRows(old(items), next, |next|))
              && (r.Err? ==> && State() == old(State())
                             && (|| (!Fits(next) && FirstTrouble(next, r.error))
                                 || (r.error == AllocationFailed && SomeRefused(granted))))
    {
      hide Fits, Acceptable, Proposed, ChangedRows, Consistent, RefusedFor, FirstTrouble;
      var rows := items;
      var proposals := (row: nat) => if row < |rows| then Propose(rows[row].current) else Keep;
      ghost var wanted := Mapped(items, (item: Item) => item.current);
      AcceptableWhenFits(items, proposals, wanted);
      r := TryChangeProposals(proposals, granted);
      if r.Err? && RefusedFor(rows, proposals, r.error) {
        SameTrouble(rows, proposals, wanted, r.error);
      }
    }

    /** Replaces an occurring text in every proposed name, all rows or none. */
    method ReplaceComplete(needle: Text, replacement: Text, granted: Reservations) returns (r: Result<seq<nat>>)
      requires Consistent(State())
      modifies this
      ensures Consistent(State()) && KeepsBinding(old(State()), State())
      ensures var next := Mapped(old(items), (item: Item) => ReplacedName(item.proposed, needle, replacement));
              && (r.Ok? ==> Fits(next) && items == next && r.value == ChangedRows(old(items), next, |next|))
              && (r.Err? ==> && State() == old(State())
                             && (|| (!Fits(next) && FirstTrouble(next, r.error))
                                 || (r.error == AllocationFailed && SomeRefused(granted))))
      ensures needle == [] && r.Ok? ==> items == old(items)
    {
      hide Fits, Acceptable, Proposed, ChangedRows, Consistent, Substitute, RefusedFor, FirstTrouble;
      var proposals: seq<Proposal> := [];
      for row := 0 to |items|
        invariant |proposals| == row && State() == old(State()) && Consistent(State())
        invariant forall i | 0 <= i < row :: Asks(items[i], proposals[i], ReplacedName(items[i].proposed, needle, replacement))
        invariant forall i: nat | i < row && proposals[i].Refuse? :: RefusesLong(i, proposals[i].error)
      {
        var replaced := ReplacedUnits(items[row].proposed, needle, replacement);
        LongNeedle(items[row].proposed, needle, replacement);
        proposals := proposals + [match replaced
                                  case Unchanged => Keep
                                  case Changed(value) => Propose(value)
                                  case TooLong(units) => Refuse(NameBudgetExceeded(row, units))];
      }
      var asked := (row: nat) => if row < |proposals| then proposals[row] else Keep;
      ghost var was, wanted := items, Mapped(items, (item: Item) => ReplacedName(item.proposed, needle, replacement));
      AcceptableWhenFits(items, asked, wanted);
      r := TryChangeProposals(asked, granted);
      if r.Err? && RefusedFor(was, asked, r.error) {
        SameTrouble(was, asked, wanted, r.error);
      }
    }

    /** Sets the first names from the nonblank lines of a text. */
    method ImportNames(text: Text, granted: Reservations) returns (r: Result<seq<nat>>)
      requires Consistent(State())
      modifies this
      ensures Consistent(State()) && KeepsBinding(old(State()), State())
      ensures r.Ok? ==>
                var lines := ParseImportLines(text);
                && |items| == |old(items)|
                && (forall i | 0 <= i < |items| ::
                      items[i] == WithName(old(items)[i], if i < |lines| then lines[i] else old(items)[i].proposed))
                && r.value == ChangedRows(old(items), items, |items|)
      ensures r.Err? ==> State() == old(State())
      ensures r.Err? ==> var proposals := ImportProposals(ParseImportLines(text));
                         || (!Acceptable(old(items), proposals) && RefusedFor(old(items), proposals, r.error))
                         || (r.error == AllocationFailed && SomeRefused(granted))
    {
      hide RefusedFor;
      var lines := ParseImportLines(text);
      r := TryChangeProposals(ImportProposals(lines), granted);
    }

    /** What importing this text would bring back. */
    function ExportNames(): (text: Text)
      reads this
      ensures (forall i | 0 <= i < |items| :: IsLine(items[i].proposed)) ==> ParseImportLines(text) == Names(items)
    {
      ExportComesBack(items);
      ExportLines(Names(items))
    }

    /** Proposes one tidy destination parent for every row, or refuses without
        touching one. */
    method UnifyDestinationParent(destination: Text, granted: Reservations) returns (r: Result<seq<nat>>)
      requires Consistent(State())
      modifies this
      ensures Consistent(State()) && KeepsBinding(old(State()), State())
      ensures var next := WithParent(old(items), NormalizedParent(destination));
              && (r.Ok? ==> && |NormalizedParent(destination)| <= MAX_PARENT_UNITS && SumPaths(next) <= MAX_TOTAL_PATH_UNITS
                            && items == next && r.value == ChangedRows(old(items), next, |next|))
              && (r.Err? ==> && State() == old(State())
                             && (|| (&& |NormalizedParent(destination)| > MAX_PARENT_UNITS
                                     && r.error == ParentBudgetExceeded(|NormalizedParent(destination)|))
                                 || (SumPaths(next) > MAX_TOTAL_PATH_UNITS && r.error == PathTrouble(SumPaths(next)))
                                 || (r.error == AllocationFailed && SomeRefused(granted))))
      ensures r.Ok? ==> forall i | 0 <= i < |items| :: TidyParent(items[i].parent)
      ensures r.Ok? ==> exists normal :: && IsNormalForm(destination, normal) && |items| == |old(items)|
                                         && forall i | 0 <= i < |items| :: items[i] == old(items)[i].(parent := normal)
    {
      var (length, root) := NormalizedParentLength(destination);
      NormalizedParentIsTidy(destination);
      NormalizedParentIsNormal(destination);
      hide TidyParent, IsNormalForm, NormalizedParent, SumPaths, SumNames, ChangedRows, NormalizedParentLength;
      if length > MAX_PARENT_UNITS {
        return Err(ParentBudgetExceeded(length));
      }
      var perRow := length + DestinationSeparatorUnits(destination[..length]);
      var requested := perRow * |items| + nameUnits;
      ghost var next := WithParent(items, NormalizedParent(destination));
      UnifiedTotals(items, NormalizedParent(destination));
      if requested > MAX_USIZE {
        return Err(ArithmeticOverflow);
      }
      if requested > MAX_TOTAL_PATH_UNITS {
        return Err(PlannedPathBudgetExceeded(requested));
      }
      if !granted(0) || !granted(1) {
        return Err(AllocationFailed);
      }
      var normalized := RootWritten(destination, length, root);
      var renamed, changed := SetParents(items, seq(|items|, _ => normalized));
      assert renamed == next;
      items := renamed;
      pathUnits := requested;
      return Ok(changed);
    }

    /** Gives every row its source parent back. The budget for distinct parents can
        never be the one that refuses: every parent is part of a counted path. */
    method ResetDestinationParents(granted: Reservations) returns (r: Result<seq<nat>>)
      requires Consistent(State())
      modifies this
      ensures Consistent(State()) && KeepsBinding(old(State()), State())
      ensures var next := WithSourceParents(old(items));
              && (r.Ok? ==> && SumPaths(next) <= MAX_TOTAL_PATH_UNITS
                            && (forall i | 0 <= i < |next| :: |next[i].parent| <= MAX_PARENT_UNITS)
                            && items == next && r.value == ChangedRows(old(items), next, |next|))
              && (r.Err? ==> && State() == old(State()) && !r.error.AggregateBudgetExceeded?
                             && (|| (SumPaths(next) > MAX_TOTAL_PATH_UNITS && r.error == PathTrouble(SumPaths(next)))
                                 || (SumPaths(next) <= MAX_TOTAL_PATH_UNITS && ParentTrouble(old(items), r.error))
                                 || (r.error == AllocationFailed && SomeRefused(granted))))
      ensures r.Ok? ==> && |items| == |old(items)|
                        && forall i | 0 <= i < |items| ::
                             items[i] == old(items)[i].(parent := SourceParent(old(items)[i].source))
    {
      hide Consistent, SumNames, SumPaths, ChangedRows, SourceParent, ParentTrouble;
      ghost var next := WithSourceParents(items);
      ReparentedIsConsistent(State(), next);
      var requested := RequestedPathUnits(items);
      if requested > MAX_USIZE {
        return Err(ArithmeticOverflow);
      }
      if requested > MAX_TOTAL_PATH_UNITS {
        return Err(PlannedPathBudgetExceeded(requested));
      }
      var staged := StageSourceParents(items, granted);
      if staged.Err? {
        return Err(staged.error);
      }
      var renamed, changed := SetParents(items, staged.value);
      assert renamed == next;
      items := renamed;
      pathUnits := requested;
      return Ok(changed);
    }

    /** Appends a batch through a reusable index. The new rows are those the original
        one-at-a-time insertion would append, and the index follows the list. On any
        error the list is unchanged and the index is unchanged or cleared. */
    method AppendBatchIndexed(index: LegacyAppendIndex, batch: seq<Item>, granted: Reservations, spare: Token)
      returns (r: Result<nat>)
      requires Consistent(State()) && index.WellFormed()
      requires CurrentFor(index.State(), State()) ==> Indexes(index.State(), State())
      modifies this, index
      ensures Consistent(State()) && index.WellFormed()
      ensures var tail := LegacyFold(index.compareText, Accepted(index.compareText, Sources(old(items)), batch));
              && AddsNew(index.compareText, Sources(old(items)), batch, tail)
              && (r.Ok? ==> && r.value == |tail| && items == old(items) + tail && BatchFits(old(State()), tail)
                            && (if tail == [] then State() == old(State()) else IsInvalidated(old(State()), State(), spare))
                            && CurrentFor(index.State(), State()) && Indexes(index.State(), State()))
              && (r.Err? ==> && State() == old(State())
                             && (index.State() == old(index.State()) || index.State() == Cleared)
                             && (|| (!BatchFits(old(State()), tail)
                                     && BatchTrouble(|old(items)|, tail, old(nameUnits), old(pathUnits), r.error))
                                 || (r.error == AllocationFailed && SomeRefused(granted))))
    {
      hide TotalPreorder, Shaped, Sorted, Flatten, Accepted, LegacyFold, AddsNew, BatchTrouble, SumNames, SumPaths;
      TailAddsNew(index.compareText, Sources(items), batch);
      var staged := StageBatch(index, batch, granted);
      if staged.Err? {
        return Err(staged.error);
      }
      var Staging(known, sorted, names, paths, clock) := staged.value;
      ghost var before := State();
      AppendedTotals(before, sorted);
      hide BatchFits;
      if sorted == [] {
        assert items + sorted == items;
        index.chunks := known;
        index.BindTo(identity, sourceRevision);
        return Ok(0);
      }
      index.chunks := known;
      var inserted := InsertSources(index, Sources(sorted), granted, clock);
      if !inserted {
        index.ClearBinding();
        return Err(AllocationFailed);
      }
      InvalidateSourceIndex(spare);
      items := items + sorted;
      nameUnits, pathUnits := names, paths;
      AppendedConsistent(before, sorted, State());
      index.BindTo(identity, sourceRevision);
      return Ok(|sorted|);
    }

    /** Everything that can be refused before list or index change. */
    method StageBatch(index: LegacyAppendIndex, batch: seq<Item>, granted: Reservations) returns (r: Result<StagedBatch>)
      requires Consistent(State()) && index.WellFormed()
      requires CurrentFor(index.State(), State()) ==> Indexes(index.State(), State())
      ensures r.Ok? ==>
                && var cmp := index.compareText;
                && Sorted(cmp, Flatten(r.value.known)) && Shaped(r.value.known)
                && multiset(Flatten(r.value.known)) == multiset(Sources(items))
                && r.value.tail == LegacyFold(cmp, Accepted(cmp, Sources(items), batch))
                && BatchFits(State(), r.value.tail)
                && r.value.names == nameUnits + SumNames(r.value.tail) && r.value.paths == pathUnits + SumPaths(r.value.tail)
      ensures r.Err? ==>
                var tail := LegacyFold(index.compareText, Accepted(index.compareText, Sources(items), batch));
                || (!BatchFits(State(), tail) && BatchTrouble(|items|, tail, nameUnits, pathUnits, r.error))
                || (r.error == AllocationFailed && SomeRefused(granted))
    {
      hide TotalPreorder, Shaped, Sorted, Flatten, Accepted, LegacyFold, BatchTrouble, Consistent;
      var cmp := index.compareText;
      var clock: nat := 0;
      var current := index.modelIdentity == Some(identity) && index.sourceRevision == sourceRevision;
      var known := index.chunks;
      if !current {
        var rebuilt := RebuildChunks(cmp, items, granted(0) && granted(1));
        clock := 2;
        if rebuilt.None? {
          return Err(AllocationFailed);
        }
        known := rebuilt.value;
      }
      var accepted;
      accepted, clock := AcceptBatch(cmp, known, items, batch, granted, clock);
      if accepted.Err? {
        return Err(accepted.error);
      }
      var tail := SortBatch(cmp, accepted.value);
      FoldLength(cmp, accepted.value);
      if accepted.value == [] {
        assert tail == [];
        return Ok(StagedBatch.Staging(known, tail, nameUnits, pathUnits, clock));
      }
      var totals := CheckBatch(|items|, tail, nameUnits, pathUnits);
      if totals.Err? {
        return Err(totals.error);
      }
      if !granted(clock) || !granted(clock + 1) {
        return Err(AllocationFailed);
      }
      return Ok(StagedBatch.Staging(known, tail, totals.value.0, totals.value.1, clock + 2));
    }
  }
}
