/** Whole runs of the rename workbench: every operation of the list class is a step, and
    the totals stay exact over a run precisely when each recorded move is safe. */
module ListRuns {
  import opened Orders
  import opened Paths
  import opened LeafName
  import opened Machine
  import opened AppendIndex
  import opened SortModes
  import opened Batch
  import opened ListState
  import opened Proposals
  import opened LegacyListModel
  import opened Wrappers

  datatype Arrangement =
    | Earlier(selection: seq<nat>)
    | Later(selection: seq<nat>)
    | ByMode(mode: SortMode, semantics: SortSemantics, compareText: Comparator<Text>)

  datatype Renaming =
    | SetOne(index: nat, name: Text)
    | KeepExtension
    | DeleteExtension
    | BackToCurrent
    | Replace(needle: Text, replacement: Text)
    | Import(text: Text)

  datatype Operation =
    | Append(batch: seq<Item>)
    | Clear
    | Remove(selection: seq<nat>)
    | Arrange(arrangement: Arrangement)
    | Rename(renaming: Renaming)
    | Unify(destination: Text)
    | ResetParents
    | RecordMove(index: nat)

  /** The rows differ in their proposed names only. */
  ghost predicate SameButNames(before: seq<Item>, after: seq<Item>) {
    && |after| == |before|
    && forall i | 0 <= i < |before| :: after[i] == WithName(before[i], after[i].proposed)
  }

  ghost predicate Extends(before: seq<Item>, batch: seq<Item>, after: seq<Item>) {
    before <= after && forall i | |before| <= i < |after| :: after[i] in batch
  }

  /** What an operation may do to the rows. */
  ghost predicate Effect(before: seq<Item>, op: Operation, after: seq<Item>) {
    match op
    case Append(batch) => Extends(before, batch, after)
    case Clear => after == []
    case Remove(selection) => after == Unselected(before, selection, |before|)
    case Arrange(_) => multiset(after) == multiset(before)
    case Rename(_) => SameButNames(before, after)
    case Unify(destination) => after == before || after == WithParent(before, NormalizedParent(destination))
    case ResetParents => after == before || after == WithSourceParents(before)
    case RecordMove(index) => after == if index < |before| then before[index := Moved(before[index])] else before
  }

  /** The totals after a recorded move are right under a condition on the path moved to. */
  ghost predicate MoveFits(s: ListState, index: nat) {
    index < |s.items| ==>
      var item := s.items[index];
      var name := PathName(item.PlannedPath());
      && Rejoins(item.PlannedPath()) && |name| <= MAX_NAME_UNITS
      && s.nameUnits + |name| <= MAX_TOTAL_NAME_UNITS + |item.proposed|
  }

  /** What the contracts of the list class say about one operation. */
  ghost predicate ListStep(s: ListState, op: Operation, s': ListState) {
    && Effect(s.items, op, s'.items)
    && (Consistent(s') <==> (op.RecordMove? ==> MoveFits(s, op.index)))
  }

  /** Each operation of the class is such a step. */
  method Perform(list: LegacyList, index: LegacyAppendIndex, op: Operation, granted: Reservations, spare: Token)
    requires Consistent(list.State())
    requires op.Append? ==>
               && index.WellFormed()
               && (CurrentFor(index.State(), list.State()) ==> Indexes(index.State(), list.State()))
    requires op.Arrange? && op.arrangement.ByMode? ==> TotalPreorder(op.arrangement.compareText)
    modifies list, index
    ensures ListStep(old(list.State()), op, list.State())
  {
    hide Consistent, TotalPreorder, OnHalfTurn, Sorted, Shaped, BatchFits, Moved, SumNames, SumPaths, Acceptable;
    match op
    case Append(batch) => PerformAppend(list, index, batch, granted, spare);
    case Clear => var _ := list.Clear(spare);
    case Remove(selection) => var _ := list.RemoveRows(selection, spare);
    case Arrange(arrangement) => PerformArrange(list, arrangement);
    case Rename(renaming) => PerformRename(list, renaming, granted);
    case Unify(destination) => var _ := list.UnifyDestinationParent(destination, granted);
    case ResetParents => var _ := list.ResetDestinationParents(granted);
    case RecordMove(row) => var _ := list.RecordMoveSuccess(row, spare);
  }

  method PerformAppend(list: LegacyList, index: LegacyAppendIndex, batch: seq<Item>, granted: Reservations, spare: Token)
    requires Consistent(list.State()) && index.WellFormed()
    requires CurrentFor(index.State(), list.State()) ==> Indexes(index.State(), list.State())
    modifies list, index
    ensures Consistent(list.State()) && Extends(old(list.items), batch, list.items)
  {
    ghost var was := list.items;
    hide Consistent, TotalPreorder, Sorted, Shaped, BatchFits, Batch.Accepted, LegacyFold, AddsNew;
    var r := list.AppendBatchIndexed(index, batch, granted, spare);
    ghost var tail := LegacyFold(index.compareText, Batch.Accepted(index.compareText, Sources(was), batch));
    AddedAreFromBatch(index.compareText, Sources(was), batch, tail);
  }

  method PerformArrange(list: LegacyList, arrangement: Arrangement)
    requires Consistent(list.State()) && (arrangement.ByMode? ==> TotalPreorder(arrangement.compareText))
    modifies list
    ensures Consistent(list.State()) && multiset(list.items) == multiset(old(list.items))
  {
    hide Consistent, TotalPreorder, OnHalfTurn, StableSortOf;
    match arrangement
    case Earlier(selection) => var _, _ := list.MoveRowsEarlier(selection);
    case Later(selection) => var _, _ := list.MoveRowsLater(selection);
    case ByMode(mode, semantics, compareText) => var _ := list.SortByWithSemantics(mode, semantics, compareText);
  }

  method PerformRename(list: LegacyList, renaming: Renaming, granted: Reservations)
    requires Consistent(list.State())
    modifies list
    ensures Consistent(list.State()) && SameButNames(old(list.items), list.items)
  {
    hide Consistent, Acceptable, Fits;
    match renaming
    case SetOne(row, name) => var _ := list.SetManualProposal(row, name);
    case KeepExtension => var _ := list.ClearName();
    case DeleteExtension => var _ := list.DeleteExtension();
    case BackToCurrent => var _ := list.ResetProposals(granted);
    case Replace(needle, replacement) => var _ := list.ReplaceComplete(needle, replacement, granted);
    case Import(text) => var _ := list.ImportNames(text, granted);
  }

  // ----- What the run keeps -----

  /** A row whose next move can keep the totals: its parent is tidy, and so is the parent
      it would be reset to. */
  predicate Settling(item: Item) {
    TidyParent(item.parent) && Rejoins(item.source)
  }

  ghost predicate AllSettling(items: seq<Item>) {
    forall i | 0 <= i < |items| :: Settling(items[i])
  }

  ghost predicate WellKept(s: ListState) {
    Consistent(s) && AllSettling(s.items)
  }

  /** A name that may be moved to below a tidy parent: any backslash in it comes after
      something that is no separator. */
  predicate SafeName(name: Text) {
    BACKSLASH !in name || (LastIndex(name, BACKSLASH) > 0 && Rejoins(name))
  }

  /** What a tidy parent puts before the name. */
  lemma TidyHead(parent: Text, name: Text) returns (head: Text)
    requires TidyParent(parent)
    ensures Join(parent, name) == head + name && head != []
    ensures head[|head| - 1] == BACKSLASH && LastIndex(head, BACKSLASH) == |head| - 1
    ensures |head| > 1 ==> !IsSeparator(head[|head| - 2])
  {
    head := if DestinationSeparatorUnits(parent) != 0 then parent + [BACKSLASH] else parent;
    LastIndexUnique(head, BACKSLASH, |head| - 1);
  }

  /** Below a tidy parent the name alone decides whether a move keeps the planned length,
      and the name it leaves is no longer than before. */
  lemma SafeNameDecides(parent: Text, name: Text)
    requires TidyParent(parent)
    ensures Rejoins(Join(parent, name)) <==> SafeName(name)
    ensures SafeName(name) ==> |PathName(Join(parent, name))| <= |name|
  {
    var head := TidyHead(parent, name);
    LastIndexAppend(head, name);
    hide LastIndex, TidyParent;
    var at := LastIndex(name, BACKSLASH);
    if at > 0 {
      assert (head + name)[|head| + at - 1] == name[at - 1];
    }
  }

  lemma AcceptedNameIsSafe(name: Text)
    requires ValidateLeafName(name).Accepted?
    ensures SafeName(name)
  {
  }

  /** New rows rejoin and have the parent of their source, as `NewItem` makes them. */
  ghost predicate FedWell(op: Operation) {
    op.Append? ==> forall item | item in op.batch :: Rejoins(item.source) && item.parent == SourceParent(item.source)
  }

  ghost predicate MovesSafely(s: ListState, op: Operation) {
    op.RecordMove? && op.index < |s.items| ==> SafeName(s.items[op.index].proposed)
  }

  /** A recorded move in a well-kept list keeps the totals exactly when the name is safe. */
  lemma SafeMoveFits(s: ListState, index: nat)
    requires WellKept(s)
    ensures MoveFits(s, index) <==> MovesSafely(s, RecordMove(index))
  {
    hide SafeName, Rejoins, SumNames, SumPaths, PathName, Join, TidyParent;
    if index < |s.items| {
      var item := s.items[index];
      assert Settling(item);
      SafeNameDecides(item.parent, item.proposed);
    }
  }

  lemma MovedSettles(item: Item)
    requires Rejoins(item.PlannedPath())
    ensures Settling(Moved(item))
  {
    RejoiningParentIsTidy(item.PlannedPath());
  }

  lemma MembersSettle(before: seq<Item>, after: seq<Item>)
    requires AllSettling(before) && forall item | item in after :: item in before
    ensures AllSettling(after)
  {
    hide Settling;
    forall i | 0 <= i < |after| ensures Settling(after[i]) {
      assert after[i] in before;
    }
  }

  lemma EffectKeepsSettling(s: ListState, op: Operation, after: seq<Item>)
    requires AllSettling(s.items) && FedWell(op) && Effect(s.items, op, after)
    requires op.RecordMove? ==> MoveFits(s, op.index)
    ensures AllSettling(after)
  {
    hide Rejoins, TidyParent, Unselected, Moved, NormalizedParent, SourceParent, LastIndex;
    match op
    case Append(batch) => AppendedSettle(s.items, batch, after);
    case Remove(selection) =>
      UnselectedRows(s.items, selection, |s.items|);
      MembersSettle(s.items, after);
    case Unify(destination) => NormalizedParentIsTidy(destination);
    case ResetParents =>
      forall i | 0 <= i < |after| ensures Settling(after[i]) {
        assert Settling(s.items[i]);
        RejoiningParentIsTidy(s.items[i].source);
      }
    case RecordMove(index) => if index < |after| { MovedSettles(s.items[index]); }
    case Arrange(_) =>
      forall item | item in after ensures item in s.items { assert item in multiset(after); }
      MembersSettle(s.items, after);
    case Rename(_) =>
      assert forall i | 0 <= i < |after| :: Settling(s.items[i]);
    case Clear =>
  }

  lemma AppendedSettle(before: seq<Item>, batch: seq<Item>, after: seq<Item>)
    requires AllSettling(before) && FedWell(Append(batch)) && Extends(before, batch, after)
    ensures AllSettling(after)
  {
    hide Rejoins, TidyParent, SourceParent;
    forall i | 0 <= i < |after| ensures Settling(after[i]) {
      if i < |before| {
        assert after[i] == before[i];
      } else {
        RejoiningParentIsTidy(after[i].source);
      }
    }
  }

  /** One step leads from a well-kept list to a well-kept one, or breaks the totals,
      precisely by an unsafe move. */
  lemma StepIsExact(s: ListState, op: Operation, s': ListState)
    requires WellKept(s) && FedWell(op) && ListStep(s, op, s')
    ensures Consistent(s') <==> MovesSafely(s, op)
    ensures Consistent(s') ==> WellKept(s')
  {
    hide Effect, Consistent, MoveFits, AllSettling, SafeName, FedWell;
    if op.RecordMove? {
      SafeMoveFits(s, op.index);
    }
    if Consistent(s') {
      EffectKeepsSettling(s, op, s'.items);
    }
  }

  // ----- Runs -----

  /** A consistent list takes a step of the class; nothing is promised about any other. */
  ghost predicate ListRun(states: seq<ListState>, ops: seq<Operation>) {
    && |states| == |ops| + 1
    && forall k | 0 <= k < |ops| :: Consistent(states[k]) ==> ListStep(states[k], ops[k], states[k + 1])
  }

  lemma {:induction false} WellKeptSoFar(states: seq<ListState>, ops: seq<Operation>, k: nat)
    requires ListRun(states, ops) && WellKept(states[0]) && k < |states|
    requires forall j | 0 <= j < k :: FedWell(ops[j])
    requires forall j | 0 <= j <= k :: Consistent(states[j])
    ensures WellKept(states[k])
  {
    hide Consistent, AllSettling, ListStep, FedWell;
    if k > 0 {
      WellKeptSoFar(states, ops, k - 1);
      StepIsExact(states[k - 1], ops[k - 1], states[k]);
    }
  }

  lemma {:induction false} SafeSoFar(states: seq<ListState>, ops: seq<Operation>, k: nat)
    requires ListRun(states, ops) && WellKept(states[0]) && k < |states|
    requires forall j | 0 <= j < k :: FedWell(ops[j]) && MovesSafely(states[j], ops[j])
    ensures WellKept(states[k])
  {
    hide Consistent, AllSettling, ListStep, FedWell, MovesSafely;
    if k > 0 {
      SafeSoFar(states, ops, k - 1);
      StepIsExact(states[k - 1], ops[k - 1], states[k]);
    }
  }

  /** Over a run fed with sources that rejoin, from an empty or any well-kept list: all
      totals are exact and within budget, in every state, if and only if every recorded
      move has a safe name. */
  lemma RunStaysExactly(states: seq<ListState>, ops: seq<Operation>)
    requires ListRun(states, ops) && WellKept(states[0]) && forall op | op in ops :: FedWell(op)
    ensures (forall k | 0 <= k < |states| :: Consistent(states[k]))
       <==> (forall k | 0 <= k < |ops| :: MovesSafely(states[k], ops[k]))
  {
    hide Consistent, AllSettling, ListStep, FedWell, MovesSafely;
    if forall k | 0 <= k < |states| :: Consistent(states[k]) {
      forall k | 0 <= k < |ops| ensures MovesSafely(states[k], ops[k]) {
        WellKeptSoFar(states, ops, k);
        assert Consistent(states[k + 1]);
        StepIsExact(states[k], ops[k], states[k + 1]);
      }
    } else if forall k | 0 <= k < |ops| :: MovesSafely(states[k], ops[k]) {
      forall k | 0 <= k < |states| ensures Consistent(states[k]) {
        SafeSoFar(states, ops, k);
      }
    }
  }
}
