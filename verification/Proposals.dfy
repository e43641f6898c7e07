/** Proposed-name transforms: what a batch of edits asks for, and when it fits. */
module Proposals {
  import opened Paths
  import opened Machine
  import opened ListState

  /** `granted(k)` answers the `k`-th reservation of memory an operation makes. */
  type Reservations = nat -> bool

  ghost predicate SomeRefused(granted: Reservations) {
    exists k: nat :: !granted(k)
  }

  /** What an edit asks for one row: keep the name, set it, or refuse the edit. */
  datatype Proposal = Keep | Propose(value: Text) | Refuse(error: MutationError)

  function NextName(item: Item, proposal: Proposal): Text {
    if proposal.Propose? then proposal.value else item.proposed
  }

  function WithName(item: Item, name: Text): Item {
    item.(proposed := name)
  }

  function Renamed(item: Item, proposal: Proposal): Item {
    WithName(item, NextName(item, proposal))
  }

  function Proposed(items: seq<Item>, proposals: nat -> Proposal): (r: seq<Item>)
    ensures |r| == |items| && forall i | 0 <= i < |r| :: r[i] == Renamed(items[i], proposals(i))
  {
    seq(|items|, i requires 0 <= i < |items| => Renamed(items[i], proposals(i)))
  }

  /** No row refuses, every name fits, and both totals fit. */
  ghost predicate Acceptable(items: seq<Item>, proposals: nat -> Proposal) {
    var next := Proposed(items, proposals);
    && (forall i: nat | i < |items| :: !proposals(i).Refuse? && |next[i].proposed| <= MAX_NAME_UNITS)
    && SumNames(next) <= MAX_TOTAL_NAME_UNITS
    && SumPaths(next) <= MAX_TOTAL_PATH_UNITS
  }

  /** Every name and both totals are within their limits. */
  ghost predicate Fits(items: seq<Item>) {
    && (forall i | 0 <= i < |items| :: |items[i].proposed| <= MAX_NAME_UNITS)
    && SumNames(items) <= MAX_TOTAL_NAME_UNITS
    && SumPaths(items) <= MAX_TOTAL_PATH_UNITS
  }

  /** Proposals that give every row its wanted name, or refuse a name that is too long
      anyway, are acceptable exactly when the wanted rows fit. */
  lemma AcceptableWhenFits(items: seq<Item>, proposals: nat -> Proposal, wanted: seq<Item>)
    requires |wanted| == |items|
    requires forall i: nat | i < |items| :: if proposals(i).Refuse? then |wanted[i].proposed| > MAX_NAME_UNITS
                                            else Renamed(items[i], proposals(i)) == wanted[i]
    ensures Acceptable(items, proposals) <==> Fits(wanted)
    ensures Acceptable(items, proposals) ==> Proposed(items, proposals) == wanted
  {
    if forall i: nat | i < |items| :: !proposals(i).Refuse? {
      assert Proposed(items, proposals) == wanted;
    }
  }

  // ----- Which error a refused batch gives -----

  /** The rows before `row` are within their budgets. */
  ghost predicate FitsBefore(next: seq<Item>, row: nat) {
    && row <= |next| && (forall i | 0 <= i < row :: |next[i].proposed| <= MAX_NAME_UNITS)
    && SumNames(next[..row]) <= MAX_TOTAL_NAME_UNITS
  }

  /** The first row that cannot be staged gives its own refusal, the length of its name, or
      the total up to it. */
  ghost predicate FailsAt(items: seq<Item>, proposals: nat -> Proposal, row: nat, error: MutationError) {
    var next := Proposed(items, proposals);
    && row < |items| && (forall i: nat | i < row :: !proposals(i).Refuse?) && FitsBefore(next, row)
    && if proposals(row).Refuse? then error == proposals(row).error
       else if |next[row].proposed| > MAX_NAME_UNITS then error == NameBudgetExceeded(row, |next[row].proposed|)
       else if SumNames(next[..row + 1]) > MAX_TOTAL_NAME_UNITS then error == AggregateBudgetExceeded(SumNames(next[..row + 1]))
       else SumPaths(next[..row + 1]) > MAX_USIZE && error == ArithmeticOverflow
  }

  ghost predicate RefusedFor(items: seq<Item>, proposals: nat -> Proposal, error: MutationError) {
    var next := Proposed(items, proposals);
    || (exists row :: FailsAt(items, proposals, row, error))
    || (&& (forall i: nat | i < |items| :: !proposals(i).Refuse?) && FitsBefore(next, |next|)
        && SumPaths(next) > MAX_TOTAL_PATH_UNITS && error == PlannedPathBudgetExceeded(SumPaths(next)))
  }

  /** The first budget that the wanted rows break, row by row and the path total last. */
  ghost predicate FirstTrouble(wanted: seq<Item>, error: MutationError) {
    match error
    case NameBudgetExceeded(row, units) =>
      row < |wanted| && FitsBefore(wanted, row) && |wanted[row].proposed| > MAX_NAME_UNITS && units > MAX_NAME_UNITS
    case AggregateBudgetExceeded(units) =>
      exists row: nat :: && row < |wanted| && FitsBefore(wanted, row) && |wanted[row].proposed| <= MAX_NAME_UNITS
                         && units == SumNames(wanted[..row + 1]) > MAX_TOTAL_NAME_UNITS
    case ArithmeticOverflow =>
      exists row: nat :: row < |wanted| && FitsBefore(wanted, row) && SumPaths(wanted[..row + 1]) > MAX_USIZE
    case PlannedPathBudgetExceeded(units) => FitsBefore(wanted, |wanted|) && units == SumPaths(wanted) > MAX_TOTAL_PATH_UNITS
    case _ => false
  }

  /** The refusal of a name that is too long. */
  predicate RefusesLong(row: nat, error: MutationError) {
    error.NameBudgetExceeded? && error.row == row && error.requestedUnits > MAX_NAME_UNITS
  }

  lemma SameTrouble(items: seq<Item>, proposals: nat -> Proposal, wanted: seq<Item>, error: MutationError)
    requires |wanted| == |items| && RefusedFor(items, proposals, error)
    requires forall i: nat | i < |items| ::
      if proposals(i).Refuse? then |wanted[i].proposed| > MAX_NAME_UNITS && RefusesLong(i, proposals(i).error)
      else Renamed(items[i], proposals(i)) == wanted[i]
    ensures FirstTrouble(wanted, error)
  {
    var next := Proposed(items, proposals);
    hide SumNames, SumPaths;
    if row: nat :| FailsAt(items, proposals, row, error) {
      assert forall i: nat | i < row :: next[i] == wanted[i];
      assert next[..row] == wanted[..row];
      assert FitsBefore(wanted, row);
      if !proposals(row).Refuse? {
        assert next[..row + 1] == wanted[..row + 1];
      }
    } else {
      assert next == wanted;
    }
  }

  function Mapped(items: seq<Item>, transform: Item -> Text): (r: seq<Item>)
    ensures |r| == |items| && forall i | 0 <= i < |r| :: r[i] == WithName(items[i], transform(items[i]))
  {
    seq(|items|, i requires 0 <= i < |items| => WithName(items[i], transform(items[i])))
  }

  /** The editable stem and the extension of a proposed name. */
  function StemExtension(item: Item): (r: (Text, Text))
    ensures |r.0| + |r.1| <= |item.proposed|
  {
    var name := item.proposed;
    var start := LastIndex(name, BACKSLASH) + 1;
    if item.isDirectory then (name[start..], [])
    else
      var dot := LastIndex(name, DOT);
      if dot < 0 then (name[start..], [])
      else (name[start..if dot < start then start else dot], name[dot..])
  }

  /** On a separator-free name the two parts are the whole name, and the extension
      is empty or the suffix from the last dot. */
  lemma StemExtensionMeaning(item: Item)
    requires SeparatorFree(item.proposed)
    ensures var (stem, extension) := StemExtension(item);
            && stem + extension == item.proposed
            && (extension == [] || (extension[0] == DOT && DOT !in extension[1..]))
  {
    var name := item.proposed;
    var start, dot := LastIndex(name, BACKSLASH) + 1, LastIndex(name, DOT);
    assert start == 0;
    if dot >= 0 && !item.isDirectory {
      assert name[..dot] + name[dot..] == name;
      assert forall i | 0 <= i < |name[dot..][1..]| :: name[dot..][1..][i] == name[dot + 1 + i];
    }
  }

  /** Neither a directory nor a name without a dot has an extension; the stem is what
      follows the last backslash. */
  lemma NoExtension(item: Item, head: Text, leaf: Text)
    requires item.proposed == head + leaf && 0x5C !in leaf && (head == [] || head[|head| - 1] == 0x5C)
    requires item.isDirectory || 0x2E !in item.proposed
    ensures StemExtension(item) == (leaf, [])
  {
    LeafBegins(head, leaf);
    assert item.proposed[|head|..] == leaf;
  }

  /** The extension of a file begins at the last dot. */
  lemma LeafExtension(item: Item, head: Text, stem: Text, extension: Text)
    requires !item.isDirectory && item.proposed == head + (stem + [0x2E] + extension)
    requires 0x5C !in stem && 0x5C !in extension && (head == [] || head[|head| - 1] == 0x5C) && 0x2E !in extension
    ensures StemExtension(item) == (stem, [0x2E] + extension)
  {
    LeafBegins(head, stem + [0x2E] + extension);
    assert item.proposed == head + stem + [0x2E] + extension;
    DotStands(item.proposed, head + stem, extension);
    assert item.proposed[|head|..|head + stem|] == stem;
  }

  /** So it does when that dot stands before the last backslash, and no stem is left. */
  lemma HeadExtension(item: Item, head: Text, leaf: Text, before: Text, extension: Text)
    requires !item.isDirectory && item.proposed == head + leaf == before + [0x2E] + extension && |before| < |head|
    requires 0x5C !in leaf && (head == [] || head[|head| - 1] == 0x5C) && 0x2E !in extension
    ensures StemExtension(item) == ([], [0x2E] + extension)
  {
    LeafBegins(head, leaf);
    DotStands(item.proposed, before, extension);
  }

  lemma LeafBegins(head: Text, leaf: Text)
    requires 0x5C !in leaf && (head == [] || head[|head| - 1] == 0x5C)
    ensures LastIndex(head + leaf, BACKSLASH) + 1 == |head|
  {
    LastIndexAppend(head, leaf);
    if head != [] {
      LastIndexUnique(head, BACKSLASH, |head| - 1);
    }
  }

  lemma DotStands(name: Text, before: Text, extension: Text)
    requires name == before + [0x2E] + extension && 0x2E !in extension
    ensures LastIndex(name, DOT) == |before| && name[|before|..] == [0x2E] + extension
  {
    assert forall k | |before| < k < |name| :: name[k] == extension[k - |before| - 1];
    LastIndexUnique(name, DOT, |before|);
  }

  datatype Update = Update(row: nat, value: Text)

  datatype Staged = Staged(updates: seq<Update>, nameUnits: nat, pathUnits: nat)

  function UpdateRows(updates: seq<Update>): (rows: seq<nat>)
    ensures |rows| == |updates| && forall k | 0 <= k < |rows| :: rows[k] == updates[k].row
  {
    seq(|updates|, k requires 0 <= k < |updates| => updates[k].row)
  }

  /** The staged updates are the rows below `n` that `next` changes, with their new names. */
  ghost predicate Stages(items: seq<Item>, next: seq<Item>, updates: seq<Update>, n: nat) {
    && n <= |items| == |next|
    && UpdateRows(updates) == ChangedRows(items, next, n)
    && (forall k | 0 <= k < |updates| :: updates[k].row < n && updates[k].value == next[updates[k].row].proposed)
  }

  lemma SumStep(next: seq<Item>, row: nat)
    requires row < |next|
    ensures SumNames(next[..row + 1]) == SumNames(next[..row]) + |next[row].proposed| <= SumNames(next)
    ensures SumPaths(next[..row + 1]) == SumPaths(next[..row]) + next[row].PlannedUnits() <= SumPaths(next)
  {
    assert next[..row + 1][..row] == next[..row];
    SumBounds(next, row + 1, NameUnits);
    SumBounds(next, row + 1, PathUnits);
  }

  lemma StageStep(items: seq<Item>, next: seq<Item>, updates: seq<Update>, row: nat, name: Text)
    requires Stages(items, next, updates, row) && row < |items| && next[row] == WithName(items[row], name)
    ensures Stages(items, next, if name != items[row].proposed then updates + [Update(row, name)] else updates, row + 1)
  {
    hide UpdateRows;
    var more := updates + [Update(row, name)];
    OneMoreUpdate(updates, row, name);
    assert (next[row] != items[row]) == (name != items[row].proposed);
    forall k | 0 <= k < |more|
      ensures more[k].row < row + 1 && (name != items[row].proposed ==> more[k].value == next[more[k].row].proposed)
    {
      if k < |updates| { assert more[k] == updates[k]; }
    }
  }

  lemma OneMoreUpdate(updates: seq<Update>, row: nat, name: Text)
    ensures UpdateRows(updates + [Update(row, name)]) == UpdateRows(updates) + [row]
  {}

  datatype Totals = Totals(name: Text, names: nat, paths: nat)

  /** The checks on one row, added to the totals of the rows before it. */
  method CheckRow(row: nat, item: Item, proposal: Proposal, names: nat, paths: nat) returns (r: Result<Totals>)
    ensures r.Ok? <==> RowFits(item, proposal, names, paths)
    ensures r.Ok? ==> r.value == Totals(NextName(item, proposal), names + |r.value.name|,
                                        paths + Renamed(item, proposal).PlannedUnits())
    ensures r.Err? ==>
              var name := NextName(item, proposal);
              r.error == if proposal.Refuse? then proposal.error
                         else if |name| > MAX_NAME_UNITS then NameBudgetExceeded(row, |name|)
                         else if names + |name| > MAX_TOTAL_NAME_UNITS then AggregateBudgetExceeded(names + |name|)
                         else ArithmeticOverflow
  {
    if proposal.Refuse? {
      return Err(proposal.error);
    }
    var name := NextName(item, proposal);
    if |name| > MAX_NAME_UNITS {
      return Err(NameBudgetExceeded(row, |name|));
    }
    if names + |name| > MAX_TOTAL_NAME_UNITS {
      return Err(AggregateBudgetExceeded(names + |name|));
    }
    var units := PlannedPathUnits(item.parent, |name|);
    if paths + units > MAX_USIZE {
      return Err(ArithmeticOverflow);
    }
    return Ok(Totals(name, names + |name|, paths + units));
  }

  predicate RowFits(item: Item, proposal: Proposal, names: nat, paths: nat) {
    && !proposal.Refuse? && |NextName(item, proposal)| <= MAX_NAME_UNITS
    && names + |NextName(item, proposal)| <= MAX_TOTAL_NAME_UNITS
    && paths + Renamed(item, proposal).PlannedUnits() <= MAX_USIZE
  }

  /** The first `row` rows are checked, summed and staged. */
  ghost predicate Staging(items: seq<Item>, proposals: nat -> Proposal, updates: seq<Update>, row: nat, names: nat, paths: nat) {
    var next := Proposed(items, proposals);
    && row <= |items| && Stages(items, next, updates, row)
    && (forall i: nat | i < row :: !proposals(i).Refuse? && |next[i].proposed| <= MAX_NAME_UNITS)
    && names == SumNames(next[..row]) <= MAX_TOTAL_NAME_UNITS
    && paths == SumPaths(next[..row])
  }

  lemma StagingStep(items: seq<Item>, proposals: nat -> Proposal, updates: seq<Update>, row: nat, names: nat, paths: nat)
    requires Staging(items, proposals, updates, row, names, paths) && row < |items|
    ensures var name := NextName(items[row], proposals(row));
            if RowFits(items[row], proposals(row), names, paths)
            then Staging(items, proposals, if name != items[row].proposed then updates + [Update(row, name)] else updates,
                         row + 1, names + |name|, paths + Renamed(items[row], proposals(row)).PlannedUnits())
            else !Acceptable(items, proposals)
                 && FailsAt(items, proposals, row,
                            if proposals(row).Refuse? then proposals(row).error
                            else if |name| > MAX_NAME_UNITS then NameBudgetExceeded(row, |name|)
                            else if names + |name| > MAX_TOTAL_NAME_UNITS then AggregateBudgetExceeded(names + |name|)
                            else ArithmeticOverflow)
  {
    hide Stages, SumNames, SumPaths;
    var next := Proposed(items, proposals);
    SumStep(next, row);
    StageStep(items, next, updates, row, NextName(items[row], proposals(row)));
  }

  lemma StagingBounds(items: seq<Item>, proposals: nat -> Proposal)
    ensures Staging(items, proposals, [], 0, 0, 0)
    ensures forall updates, names: nat, paths: nat | Staging(items, proposals, updates, |items|, names, paths) ::
              && Stages(items, Proposed(items, proposals), updates, |items|)
              && names == SumNames(Proposed(items, proposals)) && paths == SumPaths(Proposed(items, proposals))
              && (paths > MAX_TOTAL_PATH_UNITS ==> RefusedFor(items, proposals, PlannedPathBudgetExceeded(paths)))
              && (Acceptable(items, proposals) <==> paths <= MAX_TOTAL_PATH_UNITS)
  {
    var next := Proposed(items, proposals);
    assert next[..0] == [] && next[..|items|] == next;
    assert SumNames([]) == SumPaths([]) == 0;
  }

  /** Stages a batch of edits without touching a row. It succeeds exactly when the
      batch is acceptable, unless memory runs out. */
  method StageProposals(items: seq<Item>, proposals: nat -> Proposal, granted: Reservations) returns (r: Result<Staged>)
    ensures r.Ok? ==>
              var next := Proposed(items, proposals);
              && Acceptable(items, proposals)
              && Stages(items, next, r.value.updates, |items|)
              && r.value.nameUnits == SumNames(next) && r.value.pathUnits == SumPaths(next)
    ensures r.Err? ==> || (!Acceptable(items, proposals) && RefusedFor(items, proposals, r.error))
                       || (r.error == AllocationFailed && SomeRefused(granted))
  {
    hide Staging, Stages, SumNames, SumPaths, Acceptable, Proposed, FailsAt, FitsBefore;
    StagingBounds(items, proposals);
    var updates: seq<Update> := [];
    var total, totalPath: nat := 0, 0;
    var clock: nat := 0;
    for row := 0 to |items|
      invariant Staging(items, proposals, updates, row, total, totalPath)
    {
      StagingStep(items, proposals, updates, row, total, totalPath);
      var checked := CheckRow(row, items[row], proposals(row), total, totalPath);
      if checked.Err? {
        return Err(checked.error);
      }
      var name := checked.value.name;
      total, totalPath := checked.value.names, checked.value.paths;
      if name != items[row].proposed {
        clock := clock + 1;
        if !granted(clock - 1) {
          return Err(AllocationFailed);
        }
        updates := updates + [Update(row, name)];
      }
    }
    if totalPath > MAX_TOTAL_PATH_UNITS {
      return Err(PlannedPathBudgetExceeded(totalPath));
    }
    if !granted(clock) {
      return Err(AllocationFailed);
    }
    return Ok(Staged(updates, total, totalPath));
  }

  /** The rows listed from `k` on still hold their old item, all others their next. */
  ghost predicate Committed(items: seq<Item>, next: seq<Item>, rows: seq<nat>, k: nat, r: seq<Item>) {
    && k <= |rows| && |r| == |items| == |next|
    && (forall j | k <= j < |rows| :: rows[j] < |r| && r[rows[j]] == items[rows[j]])
    && (forall i: nat | i < |r| && i !in rows[k..] :: r[i] == next[i])
  }

  lemma CommitDone(items: seq<Item>, next: seq<Item>, rows: seq<nat>, k: nat, r: seq<Item>)
    requires Committed(items, next, rows, k, r)
    ensures k == |rows| ==> r == next
    ensures k < |rows| ==> |r| == |items| && rows[k] < |r| && r[rows[k]] == items[rows[k]]
  {
    if k == |rows| { assert rows[k..] == []; }
  }

  lemma CommitStep(items: seq<Item>, next: seq<Item>, rows: seq<nat>, k: nat, r: seq<Item>)
    requires Committed(items, next, rows, k, r) && k < |rows|
    requires forall i, j | 0 <= i < j < |rows| :: rows[i] < rows[j]
    ensures Committed(items, next, rows, k + 1, r[rows[k] := next[rows[k]]])
  {
    assert rows[k..] == [rows[k]] + rows[k + 1..];
  }

  lemma CommitBegin(items: seq<Item>, next: seq<Item>, updates: seq<Update>)
    requires Stages(items, next, updates, |items|)
    requires forall i | 0 <= i < |items| :: next[i] == WithName(items[i], next[i].proposed)
    ensures Committed(items, next, ChangedRows(items, next, |items|), 0, items)
    ensures forall k | 0 <= k < |updates| ::
              updates[k].row < |items| && next[updates[k].row] == WithName(items[updates[k].row], updates[k].value)
  {
    var rows := ChangedRows(items, next, |items|);
    assert rows[0..] == rows;
  }

  /** Writes staged names into their rows. */
  method CommitProposals(items: seq<Item>, ghost next: seq<Item>, updates: seq<Update>) returns (r: seq<Item>, changed: seq<nat>)
    requires |items| == |next| && Committed(items, next, UpdateRows(updates), 0, items)
    requires forall i, j | 0 <= i < j < |updates| :: updates[i].row < updates[j].row
    requires forall k | 0 <= k < |updates| ::
               updates[k].row < |items| && next[updates[k].row] == WithName(items[updates[k].row], updates[k].value)
    ensures r == next && changed == UpdateRows(updates)
  {
    hide WithName, Committed;
    r, changed := items, [];
    ghost var rows := UpdateRows(updates);
    for k := 0 to |updates|
      invariant Committed(items, next, rows, k, r) && changed == rows[..k]
    {
      CommitDone(items, next, rows, k, r);
      CommitStep(items, next, rows, k, r);
      var row := updates[k].row;
      r := r[row := WithName(r[row], updates[k].value)];
      changed := changed + [row];
    }
    CommitDone(items, next, rows, |rows|, r);
  }

  lemma ChangedStep(before: seq<Item>, after: seq<Item>, n: nat)
    requires n < |before| && n < |after|
    ensures ChangedRows(before, after, n + 1)
         == ChangedRows(before, after, n) + if before[n] != after[n] then [n] else []
  {}

  lemma NothingStaged(items: seq<Item>, next: seq<Item>)
    ensures ChangedRows(items, next, 0) == [] && SumNames(next[..0]) == 0
  {
    assert next[..0] == [];
  }

  /** The in-place transform used by edits that never lengthen a name. */
  method TransformNames(items: seq<Item>, transform: Item -> Text) returns (r: seq<Item>, changed: seq<nat>, total: nat)
    ensures r == Mapped(items, transform) && changed == ChangedRows(items, r, |items|)
    ensures total == SumNames(r)
  {
    r, changed, total := items, [], 0;
    ghost var next := Mapped(items, transform);
    NothingStaged(items, next);
    hide SumNames, Mapped, ChangedRows;
    for row := 0 to |items|
      invariant |r| == |items| && forall i | 0 <= i < |items| :: r[i] == if i < row then next[i] else items[i]
      invariant changed == ChangedRows(items, next, row)
      invariant total == SumNames(next[..row])
    {
      assert next[row] == WithName(items[row], transform(items[row]));
      assert (next[row] == items[row]) == (transform(items[row]) == items[row].proposed);
      hide WithName;
      SumStep(next, row);
      ChangedStep(items, next, row);
      var name := transform(items[row]);
      total := total + |name|;
      if items[row].proposed != name {
        r := r[row := WithName(r[row], name)];
        changed := changed + [row];
      }
    }
    assert r == next && next[..|items|] == next;
  }
}
