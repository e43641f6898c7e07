/** The preview caches of the workbench: refreshed from scratch, or row by row. */
module PreviewCache {
  import opened Machine
  import opened Paths
  import opened PreviewModel
  import opened Wrappers

  /** What one edit did: every row to repaint, and the change flags for the counts. */
  datatype IssueUpdate = IssueUpdate(affectedRows: seq<nat>, previousChanged: bool, currentChanged: bool)

  /** The rows of a set in ascending order. */
  function AscendingRows(rows: set<nat>, n: nat): (r: seq<nat>)
    ensures forall i :: i in r <==> i in rows && i < n
    ensures forall i, j | 0 <= i < j < |r| :: r[i] < r[j]
  {
    if n == 0 then []
    else
      var front := AscendingRows(rows, n - 1);
      assert forall i | 0 <= i < |front| :: front[i] in front;
      if n - 1 in rows then front + [n - 1] else front
  }

  function One(b: bool): nat { if b then 1 else 0 }

  lemma SetSizeStep(s: set<nat>, row: nat)
    ensures |s + {row}| == |s| + One(row !in s)
    ensures |s - {row}| == |s| - One(row in s)
  {
    if row in s { assert s + {row} == s; } else { assert s - {row} == s; }
  }

  function Replaced<Key>(rows: seq<CachedRow<Key>>, row: nat, issue: RowIssue): (r: seq<CachedRow<Key>>)
    requires row < |rows|
    ensures |r| == |rows|
    ensures forall i: nat | i < |r| :: r[i] == if i == row then rows[i].(issue := issue) else rows[i]
  {
    rows[row := rows[row].(issue := issue)]
  }

  /** How a count moves when one issue is replaced. */
  lemma CountAfterReplace<Key>(rows: seq<CachedRow<Key>>, row: nat, issue: RowIssue, test: IssueTest)
    requires row < |rows|
    ensures |RowsWith(Replaced(rows, row, issue), test)|
         == |RowsWith(rows, test)| - One(test(rows[row].issue)) + One(test(issue))
    ensures test(rows[row].issue) ==> |RowsWith(rows, test)| > 0
  {
    var s, t := RowsWith(rows, test), RowsWith(Replaced(rows, row, issue), test);
    SetSizeStep(s, row);
    assert test(rows[row].issue) <==> row in s;
    if test(issue) { assert t == s + {row}; } else { assert t == s - {row}; }
  }

  /** Resolving one more row counts exactly its issue. */
  lemma CountAfterResolve<Key>(rows: seq<CachedRow<Key>>, row: nat, issue: RowIssue, visited: set<nat>, test: IssueTest)
    requires row < |rows| && row !in visited
    ensures |RowsWith(Replaced(rows, row, issue), test) * (visited + {row})|
         == |RowsWith(rows, test) * visited| + One(test(issue))
  {
    var s, t := RowsWith(rows, test), RowsWith(Replaced(rows, row, issue), test);
    assert t * (visited + {row}) == if test(issue) then s * visited + {row} else s * visited;
  }

  ghost predicate CountersExact<Key>(s: PreviewState<Key>) {
    && s.warningRows == |RowsWith(s.rows, IsWarning)|
    && s.invalidNameRows == |RowsWith(s.rows, IsInvalid)|
    && s.duplicateRows == |RowsWith(s.rows, IsDuplicate)|
  }

  lemma MembersOf<Key>(keys: seq<Key>, key: Key)
    ensures forall i: nat :: i in Members(keys, key) <==> i < |keys| && keys[i] == key
  {}

  lemma GroupKeys<Key>(keys: seq<Key>)
    ensures forall i: nat | i < |keys| :: keys[i] in Groups(keys)
  {}

  lemma GroupOf<Key>(keys: seq<Key>, key: Key)
    requires key in Groups(keys)
    ensures Groups(keys)[key] == Members(keys, key)
    ensures forall i: nat :: i in Members(keys, key) <==> i < |keys| && keys[i] == key
  {}

  /** The rows that share the old or the new destination of an edited row. */
  function Affected<Key(==)>(inputs: seq<RowInput>, keyOf: KeyOf<Key>, row: nat, values: RowInput): set<nat>
    requires row < |inputs|
  {
    var keys, newKey := Keys(inputs, keyOf), keyOf(values.parent, values.proposed);
    Members(keys, keys[row]) + Members(keys[row := newKey], newKey)
  }

  /** Everything but the issues fits the model, and so do the issues of the rows
      that are not affected or come before `done`; the counters fit the issues. */
  ghost predicate Repairing<Key>(model: seq<RowInput>, keyOf: KeyOf<Key>, affected: set<nat>, done: nat, s: PreviewState<Key>) {
    && |s.rows| == |model| && s.groups == Groups(Keys(model, keyOf)) && CountersExact(s)
    && (forall i: nat | i < |model| :: s.rows[i] == FullRow(model, keyOf, i).(issue := s.rows[i].issue))
    && (forall i: nat | i < |model| && (i !in affected || i < done) :: s.rows[i] == FullRow(model, keyOf, i))
  }

  lemma RepairSize<Key>(model: seq<RowInput>, keyOf: KeyOf<Key>, affected: set<nat>, done: nat, s: PreviewState<Key>)
    requires Repairing(model, keyOf, affected, done, s)
    ensures |s.rows| == |model| && CountersExact(s)
  {}

  lemma SkipUnaffected<Key>(model: seq<RowInput>, keyOf: KeyOf<Key>, affected: set<nat>, done: nat, row: nat, s: PreviewState<Key>)
    requires Repairing(model, keyOf, affected, done, s) && done <= row <= |model|
    requires forall i | done <= i < row :: i !in affected
    ensures Repairing(model, keyOf, affected, row, s)
  {
    hide FullRow, Groups, Keys, CountersExact;
  }

  lemma RepairStep<Key>(model: seq<RowInput>, keyOf: KeyOf<Key>, affected: set<nat>, row: nat, s: PreviewState<Key>)
    requires Repairing(model, keyOf, affected, row, s) && row < |model|
    ensures row < |s.rows| && CountersExact(s)
    ensures var cached := s.rows[row];
            var issue := ResolvedIssue(cached.base, cached.change, cached.key in s.groups && |s.groups[cached.key]| > 1);
            forall t: PreviewState<Key> ::
              t.rows == Replaced(s.rows, row, issue) && t.groups == s.groups && CountersExact(t) ==>
                Repairing(model, keyOf, affected, row + 1, t)
  {
    hide RowsWith, ResolvedIssue, BaseIssue;
    var keys := Keys(model, keyOf);
    assert keys[row] in Groups(keys);
  }

  lemma RepairDone<Key>(model: seq<RowInput>, keyOf: KeyOf<Key>, affected: set<nat>, s: PreviewState<Key>)
    requires Repairing(model, keyOf, affected, |model|, s)
    ensures s.(blockerRows := s.invalidNameRows + s.duplicateRows) == Full(model, keyOf)
  {
    assert s.rows == FullRows(model, keyOf);
  }

  lemma FullFacts<Key>(model: seq<RowInput>, keyOf: KeyOf<Key>, row: nat)
    requires row < |model|
    ensures var s := Full(model, keyOf);
            && |s.rows| == |model| && s.rows == FullRows(model, keyOf) && s.groups == Groups(Keys(model, keyOf))
            && s.rows[row].key == KeyAt(model, keyOf, row) && s.rows[row].change == model[row].change
    ensures var keys := Keys(model, keyOf);
            keys[row] in Groups(keys) && Groups(keys)[keys[row]] == Members(keys, keys[row]) && row in Members(keys, keys[row])
  {}

  lemma GroupsOfEdited<Key>(was: seq<RowInput>, keyOf: KeyOf<Key>, row: nat, values: RowInput)
    requires row < |was|
    ensures var (keys, newKey) := (Keys(was, keyOf), keyOf(values.parent, values.proposed));
            var now := keys[row := newKey];
            && Keys(was[row := values], keyOf) == now
            && keys[row] in Groups(keys) && Groups(now) == MovedGroups(Groups(keys), keys[row], newKey, row)
            && newKey in Groups(now) && Groups(now)[newKey] == Members(now, newKey)
            && Affected(was, keyOf, row, values)
                 == if keys[row] == newKey then Groups(keys)[newKey] else Groups(keys)[keys[row]] + Groups(now)[newKey]
  {
    var keys, newKey := Keys(was, keyOf), keyOf(values.parent, values.proposed);
    GroupsAfterEdit(keys, row, newKey);
    assert keys[row := newKey][row] == newKey;
    if keys[row] == newKey { assert keys[row := newKey] == keys; }
  }

  /** The cache with one row's new key, base issue and change, and its old issue. */
  ghost function Patched<Key>(before: PreviewState<Key>, was: seq<RowInput>, keyOf: KeyOf<Key>, row: nat, values: RowInput): PreviewState<Key>
    requires row < |was| && row < |before.rows|
  {
    before.(rows := before.rows[row := CachedRow(keyOf(values.parent, values.proposed), BaseIssue(values), before.rows[row].issue, values.change)],
            groups := Groups(Keys(was[row := values], keyOf)))
  }

  /** After that patch only issues of affected rows are out of date. */
  lemma PatchBegins<Key>(was: seq<RowInput>, keyOf: KeyOf<Key>, row: nat, values: RowInput)
    requires row < |was|
    ensures Repairing(was[row := values], keyOf, Affected(was, keyOf, row, values), 0,
                      Patched(Full(was, keyOf), was, keyOf, row, values))
  {
    var now, affected := was[row := values], Affected(was, keyOf, row, values);
    var before := Full(was, keyOf);
    var after := Patched(before, was, keyOf, row, values);
    hide RowsWith, BaseIssue, ResolvedIssue, Groups, Members, Affected;
    IssuesUnchanged(before.rows, after.rows, IsWarning);
    IssuesUnchanged(before.rows, after.rows, IsInvalid);
    IssuesUnchanged(before.rows, after.rows, IsDuplicate);
    forall i: nat | i < |now| && i !in affected ensures after.rows[i] == FullRow(now, keyOf, i) {
      AffectedCovers(was, keyOf, row, values, i);
      EditIsLocal(was, keyOf, row, values, i);
    }
  }

  lemma IssuesUnchanged<Key>(a: seq<CachedRow<Key>>, b: seq<CachedRow<Key>>, test: IssueTest)
    requires |a| == |b| && forall i: nat | i < |a| :: a[i].issue == b[i].issue
    ensures RowsWith(a, test) == RowsWith(b, test)
  {}

  lemma AffectedCovers<Key>(inputs: seq<RowInput>, keyOf: KeyOf<Key>, row: nat, values: RowInput, i: nat)
    requires row < |inputs| && i < |inputs| && i !in Affected(inputs, keyOf, row, values)
    ensures i != row
    ensures KeyAt(inputs, keyOf, i) != KeyAt(inputs, keyOf, row)
    ensures KeyAt(inputs, keyOf, i) != keyOf(values.parent, values.proposed)
  {}

  /** What an edit of one row reports. */
  function UpdateFor<Key(==)>(inputs: seq<RowInput>, keyOf: KeyOf<Key>, row: nat, values: RowInput): IssueUpdate
    requires row < |inputs|
  {
    IssueUpdate(AscendingRows(Affected(inputs, keyOf, row, values), |inputs|),
                inputs[row].change.IsChanged(), values.change.IsChanged())
  }

  /** The reported rows are exactly those that go, after the edit or before, to the old
      or the new place of the edited row. */
  lemma AffectedMeaning<Key>(inputs: seq<RowInput>, keyOf: KeyOf<Key>, row: nat, values: RowInput)
    requires row < |inputs|
    ensures var (update, was, goes) := (UpdateFor(inputs, keyOf, row, values),
                                        keyOf(inputs[row].parent, inputs[row].proposed), keyOf(values.parent, values.proposed));
      && (forall r: nat :: r in update.affectedRows <==>
            r < |inputs| && (r == row || keyOf(inputs[r].parent, inputs[r].proposed) in {was, goes}))
      && update.previousChanged == !inputs[row].change.NoChange? && update.currentChanged == !values.change.NoChange?
  {
    var keys, newKey := Keys(inputs, keyOf), keyOf(values.parent, values.proposed);
    MembersOf(keys, keys[row]);
    MembersOf(keys[row := newKey], newKey);
    hide Members, Keys, AscendingRows;
    forall r: nat | r < |inputs|
      ensures r in Affected(inputs, keyOf, row, values) <==> r == row || keys[r] == keys[row] || keys[r] == newKey
    {
    }
  }

  /** Every row whose diagnosis differs is listed. */
  ghost predicate IssueChangesAmong<Key>(was: PreviewState<Key>, now: PreviewState<Key>, listed: seq<nat>) {
    && |was.rows| == |now.rows|
    && (forall i: nat | i < |now.rows| && now.rows[i].issue != was.rows[i].issue :: i in listed)
  }

  /** No row outside the affected ones changes its diagnosis. */
  lemma OnlyAffectedChange<Key>(inputs: seq<RowInput>, keyOf: KeyOf<Key>, row: nat, values: RowInput)
    requires row < |inputs|
    ensures IssueChangesAmong(Full(inputs, keyOf), Full(inputs[row := values], keyOf),
                              AscendingRows(Affected(inputs, keyOf, row, values), |inputs|))
  {
    hide Affected, FullRow;
    forall i: nat | i < |inputs| && i !in Affected(inputs, keyOf, row, values)
      ensures FullRow(inputs[row := values], keyOf, i) == FullRow(inputs, keyOf, i)
    {
      AffectedCovers(inputs, keyOf, row, values, i);
      EditIsLocal(inputs, keyOf, row, values, i);
    }
  }

  function FirstBuilt<Key>(model: seq<RowInput>, keyOf: KeyOf<Key>, i: nat): CachedRow<Key>
    requires i < |model|
  {
    CachedRow(KeyAt(model, keyOf, i), BaseIssue(model[i]), BaseIssue(model[i]), model[i].change)
  }

  /** The state with one more row resolved and counted. */
  function ResolveOne<Key>(s: PreviewState<Key>, row: nat, colliding: bool): PreviewState<Key>
    requires row < |s.rows|
  {
    var issue := ResolvedIssue(s.rows[row].base, s.rows[row].change, colliding);
    s.(rows := Replaced(s.rows, row, issue),
       warningRows := s.warningRows + One(IsWarning(issue)),
       invalidNameRows := s.invalidNameRows + One(IsInvalid(issue)),
       duplicateRows := s.duplicateRows + One(IsDuplicate(issue)))
  }

  /** The visited rows are resolved and counted; the others are as first built. */
  ghost predicate Resolving<Key>(model: seq<RowInput>, keyOf: KeyOf<Key>, visited: set<nat>, s: PreviewState<Key>) {
    && |s.rows| == |model|
    && (forall i: nat | i < |model| ::
          s.rows[i] == if i in visited then FullRow(model, keyOf, i) else FirstBuilt(model, keyOf, i))
    && s.warningRows == |RowsWith(s.rows, IsWarning) * visited|
    && s.invalidNameRows == |RowsWith(s.rows, IsInvalid) * visited|
    && s.duplicateRows == |RowsWith(s.rows, IsDuplicate) * visited|
  }

  lemma ResolvingStep<Key>(model: seq<RowInput>, keyOf: KeyOf<Key>, visited: set<nat>, s: PreviewState<Key>, row: nat, colliding: bool)
    requires Resolving(model, keyOf, visited, s)
    requires row < |model| && row !in visited
    requires colliding <==> |Members(Keys(model, keyOf), KeyAt(model, keyOf, row))| > 1
    ensures row < |s.rows| && Resolving(model, keyOf, visited + {row}, ResolveOne(s, row, colliding))
  {
    hide RowsWith, Members, Keys, ResolvedIssue, BaseIssue, FirstBuilt;
    var issue := ResolvedIssue(s.rows[row].base, s.rows[row].change, colliding);
    assert s.rows[row] == FirstBuilt(model, keyOf, row);
    ResolvedRow(model, keyOf, row, colliding);
    hide FullRow;
    CountAfterResolve(s.rows, row, issue, visited, IsWarning);
    CountAfterResolve(s.rows, row, issue, visited, IsInvalid);
    CountAfterResolve(s.rows, row, issue, visited, IsDuplicate);
  }

  lemma ResolvedRow<Key>(model: seq<RowInput>, keyOf: KeyOf<Key>, row: nat, colliding: bool)
    requires row < |model|
    requires colliding <==> |Members(Keys(model, keyOf), KeyAt(model, keyOf, row))| > 1
    ensures var first := FirstBuilt(model, keyOf, row);
            FullRow(model, keyOf, row) == first.(issue := ResolvedIssue(first.base, first.change, colliding))
  {
    hide Members, Keys, ResolvedIssue, BaseIssue;
  }

  lemma ResolvingDone<Key>(model: seq<RowInput>, keyOf: KeyOf<Key>, visited: set<nat>, s: PreviewState<Key>)
    requires Resolving(model, keyOf, visited, s)
    requires forall i: nat | i < |model| :: i in visited
    ensures s.rows == FullRows(model, keyOf) && CountersExact(s)
  {
    assert RowsWith(s.rows, IsWarning) * visited == RowsWith(s.rows, IsWarning);
    assert RowsWith(s.rows, IsInvalid) * visited == RowsWith(s.rows, IsInvalid);
    assert RowsWith(s.rows, IsDuplicate) * visited == RowsWith(s.rows, IsDuplicate);
  }

  lemma ResolvingBegin<Key>(model: seq<RowInput>, keyOf: KeyOf<Key>, s: PreviewState<Key>)
    requires |s.rows| == |model| && s.warningRows == s.invalidNameRows == s.duplicateRows == 0
    requires forall i: nat | i < |model| :: s.rows[i] == FirstBuilt(model, keyOf, i)
    ensures Resolving(model, keyOf, {}, s)
  {
    forall test: IssueTest ensures |RowsWith(s.rows, test) * {}| == 0 {
      assert RowsWith(s.rows, test) * {} == {};
    }
  }

  lemma GroupsAfterAppend<Key>(keys: seq<Key>, row: nat, groups: map<Key, set<nat>>)
    requires row < |keys| && groups == Groups(keys[..row])
    ensures Groups(keys[..row + 1])
         == groups[keys[row] := if keys[row] in groups then groups[keys[row]] + {row} else {row}]
  {
    var front, now := keys[..row], keys[..row + 1];
    assert now == front + [keys[row]];
    var more := groups[keys[row] := if keys[row] in groups then groups[keys[row]] + {row} else {row}];
    assert keys[row] !in front ==> Members(front, keys[row]) == {};
    forall key
      ensures key in now <==> key in more
      ensures key in more ==> Members(now, key) == more[key]
    {
      assert Members(now, key) == if key == keys[row] then Members(front, key) + {row} else Members(front, key);
      assert key in now <==> key in front || key == keys[row];
    }
  }

  class PreviewIssueCache<Key(==)> {
    const keyOf: KeyOf<Key>
    var initialized: bool
    var rows: seq<CachedRow<Key>>
    var destinationRows: map<Key, set<nat>>
    var warningRows: nat
    var invalidNameRows: nat
    var duplicateRows: nat
    var blockerRows: nat
    /** The model rows the cache was last brought up to date with. */
    ghost var model: seq<RowInput>

    constructor (keyOf: KeyOf<Key>)
      ensures this.keyOf == keyOf && !initialized && Valid()
    {
      this.keyOf := keyOf;
      initialized, rows, destinationRows := false, [], map[];
      warningRows, invalidNameRows, duplicateRows, blockerRows := 0, 0, 0, 0;
      model := [];
    }

    function State(): PreviewState<Key>
      reads this
    {
      PreviewState(rows, destinationRows, warningRows, invalidNameRows, duplicateRows, blockerRows)
    }

    /** An initialized cache equals the full rebuild of its model. */
    ghost predicate Valid()
      reads this
    {
      initialized ==> State() == Full(model, keyOf)
    }

    /** Replaces one issue and moves the row between the counters. No counter is
        ever decremented at zero. */
    method ReplaceIssue(row: nat, issue: RowIssue)
      requires CountersExact(State()) && row < |rows|
      modifies this`rows, this`warningRows, this`invalidNameRows, this`duplicateRows
      ensures CountersExact(State())
      ensures rows == Replaced(old(rows), row, issue)
    {
      CountAfterReplace(rows, row, issue, IsWarning);
      CountAfterReplace(rows, row, issue, IsInvalid);
      CountAfterReplace(rows, row, issue, IsDuplicate);
      hide RowsWith, Replaced;
      var previous := rows[row].issue;
      assert previous == issue ==> Replaced(rows, row, issue) == rows;
      if previous == issue {
        return;
      }
      match previous {
        case NoIssue =>
        case EmptyStem =>
          assert warningRows > 0;
          warningRows := SaturatingSub(warningRows, 1);
        case InvalidName(_) =>
          assert invalidNameRows > 0;
          invalidNameRows := SaturatingSub(invalidNameRows, 1);
        case DuplicateDestination =>
          assert duplicateRows > 0;
          duplicateRows := SaturatingSub(duplicateRows, 1);
      }
      match issue {
        case NoIssue =>
        case EmptyStem => warningRows := warningRows + 1;
        case InvalidName(_) => invalidNameRows := invalidNameRows + 1;
        case DuplicateDestination => duplicateRows := duplicateRows + 1;
      }
      rows := Replaced(rows, row, issue);
    }

    /** Brings the cache up to date with one edited row. It refuses, and changes
        nothing, exactly when cache and model do not line up; otherwise the cache
        equals the full rebuild of the edited model, and every row whose diagnosis
        changed is among the rows to repaint: those that share the row's old or new
        destination. */
    method RefreshOne(modelLen: nat, row: nat, values: RowInput) returns (r: Option<IssueUpdate>)
      requires Valid()
      modifies this
      ensures Valid() && initialized == old(initialized)
      ensures r.None? <==> !old(initialized) || |old(rows)| != modelLen || row >= modelLen
      ensures r.None? ==> State() == old(State()) && model == old(model)
      ensures r.Some? ==> row < |old(model)| && model == old(model)[row := values]
      ensures r.Some? ==> r.value == UpdateFor(old(model), keyOf, row, values)
      ensures r.Some? ==> IssueChangesAmong(old(State()), State(), r.value.affectedRows) && RowsAre(model, keyOf, rows)
    {
      if !initialized || |rows| != modelLen || row >= modelLen {
        return None;
      }
      assert |rows| == |model|;
      hide UpdateFor, IssueChangesAmong, Full, RowsAre;
      var update := RefreshKnownRow(row, values);
      FullRowsAre(model, keyOf);
      r := Some(update);
    }

    method RefreshKnownRow(row: nat, values: RowInput) returns (update: IssueUpdate)
      requires initialized && State() == Full(model, keyOf) && row < |model|
      modifies this`rows, this`destinationRows, this`model, this`warningRows, this`invalidNameRows, this`duplicateRows, this`blockerRows
      ensures model == old(model)[row := values] && State() == Full(model, keyOf)
      ensures update == UpdateFor(old(model), keyOf, row, values)
      ensures IssueChangesAmong(old(State()), State(), update.affectedRows)
    {
      hide Affected, AscendingRows, Repairing, Full, FullRow, Groups, RowsWith, Members, Keys, CountersExact, IssueChangesAmong;
      FullFacts(model, keyOf, row);
      OnlyAffectedChange(model, keyOf, row, values);
      var previousChanged := rows[row].change.IsChanged();
      var affected := PatchRow(row, values);
      RepairIssues(affected);
      RepairDone(model, keyOf, affected, State());
      blockerRows := invalidNameRows + duplicateRows;
      update := IssueUpdate(AscendingRows(affected, |rows|), previousChanged, values.change.IsChanged());
    }

    /** Moves the edited row to its new destination group and stores its new key, base
        issue and change. What remains to repair are the issues of the affected rows. */
    method PatchRow(row: nat, values: RowInput) returns (affected: set<nat>)
      requires State() == Full(model, keyOf) && row < |model|
      modifies this`rows, this`destinationRows, this`model
      ensures model == old(model)[row := values] && affected == Affected(old(model), keyOf, row, values)
      ensures Repairing(model, keyOf, affected, 0, State())
    {
      hide RowsWith, Members, Groups, BaseIssue, ResolvedIssue, FullRow, MovedGroups, Affected, Repairing, Full;
      ghost var before, was := State(), model;
      FullFacts(model, keyOf, row);
      GroupsOfEdited(model, keyOf, row, values);
      PatchBegins(model, keyOf, row, values);
      var oldKey, newKey := rows[row].key, keyOf(values.parent, values.proposed);
      if oldKey !in destinationRows || row !in destinationRows[oldKey] {
        assert false;
      }
      affected := destinationRows[oldKey];
      destinationRows := MovedGroups(destinationRows, oldKey, newKey, row);
      if oldKey != newKey {
        affected := affected + destinationRows[newKey];
      }
      rows := rows[row := CachedRow(newKey, BaseIssue(values), rows[row].issue, values.change)];
      model := model[row := values];
      assert State() == Patched(before, was, keyOf, row, values);
    }

    /** Resolves the affected rows again, in ascending order. */
    method RepairIssues(affected: set<nat>)
      requires Repairing(model, keyOf, affected, 0, State())
      modifies this`rows, this`warningRows, this`invalidNameRows, this`duplicateRows
      ensures |rows| == |model| && Repairing(model, keyOf, affected, |model|, State())
    {
      hide Repairing, RowsWith, Members, Groups, ResolvedIssue, AscendingRows;
      RepairSize(model, keyOf, affected, 0, State());
      var listed := AscendingRows(affected, |rows|);
      ghost var done: nat := 0;
      for k := 0 to |listed|
        invariant |rows| == |model| && done <= |model|
        invariant done == if k == 0 then 0 else listed[k - 1] + 1
        invariant Repairing(model, keyOf, affected, done, State())
      {
        var row := listed[k];
        assert row in listed;
        SkipUnaffected(model, keyOf, affected, done, row, State());
        RepairStep(model, keyOf, affected, row, State());
        var cached := rows[row];
        var colliding := cached.key in destinationRows && |destinationRows[cached.key]| > 1;
        ReplaceIssue(row, ResolvedIssue(cached.base, cached.change, colliding));
        done := row + 1;
        RepairSize(model, keyOf, affected, done, State());
      }
      SkipUnaffected(model, keyOf, affected, done, |model|, State());
    }

    /** Rebuilds everything from the model. */
    method Refresh(inputs: seq<RowInput>)
      modifies this
      ensures initialized && model == inputs && Valid() && RowsAre(inputs, keyOf, rows)
    {
      hide Groups, RowsWith, FullRow, Members, Resolving, FirstBuilt, RowsAre;
      FullRowsAre(inputs, keyOf);
      var collected, groups := CollectRows(inputs);
      initialized, rows, destinationRows := true, collected, groups;
      warningRows, invalidNameRows, duplicateRows, blockerRows := 0, 0, 0, 0;
      model := inputs;
      ResolvingBegin(inputs, keyOf, State());
      ResolveGroups();
      blockerRows := invalidNameRows + duplicateRows;
    }

    /** The rows with their base issues, and the rows of every destination. */
    method CollectRows(inputs: seq<RowInput>) returns (collected: seq<CachedRow<Key>>, groups: map<Key, set<nat>>)
      ensures |collected| == |inputs| && groups == Groups(Keys(inputs, keyOf))
      ensures forall i: nat | i < |inputs| :: collected[i] == FirstBuilt(inputs, keyOf, i)
    {
      collected, groups := [], map[];
      ghost var keys := Keys(inputs, keyOf);
      for row := 0 to |inputs|
        invariant |collected| == row && groups == Groups(keys[..row])
        invariant forall i: nat | i < row :: collected[i] == FirstBuilt(inputs, keyOf, i)
      {
        hide Groups, BaseIssue, KeyAt;
        var base := BaseIssue(inputs[row]);
        var key := keyOf(inputs[row].parent, inputs[row].proposed);
        GroupsAfterAppend(keys, row, groups);
        groups := groups[key := if key in groups then groups[key] + {row} else {row}];
        collected := collected + [CachedRow(key, base, base, inputs[row].change)];
      }
      assert keys[..|inputs|] == keys;
    }

    /** Resolves and counts every row, one destination group after the other. */
    method ResolveGroups()
      requires destinationRows == Groups(Keys(model, keyOf))
      requires Resolving(model, keyOf, {}, State())
      modifies this`rows, this`warningRows, this`invalidNameRows, this`duplicateRows
      ensures rows == FullRows(model, keyOf) && CountersExact(State())
    {
      hide Resolving, Members, FullRow, RowsWith, Groups;
      GroupKeys(Keys(model, keyOf));
      ghost var keys, visited: set<nat> := Keys(model, keyOf), {};
      var pending := destinationRows.Keys;
      assert forall i: nat | i < |keys| :: keys[i] in pending;
      while pending != {}
        invariant pending <= destinationRows.Keys
        invariant forall i: nat | i < |keys| :: i in visited <==> keys[i] !in pending
        invariant Resolving(model, keyOf, visited, State())
        decreases pending
      {
        var key :| key in pending;
        GroupOf(keys, key);
        ResolveGroup(destinationRows[key], visited, key);
        visited := visited + destinationRows[key];
        pending := pending - {key};
      }
      ResolvingDone(model, keyOf, visited, State());
    }

    method ResolveGroup(group: set<nat>, ghost visited: set<nat>, ghost key: Key)
      requires group == Members(Keys(model, keyOf), key) && group !! visited
      requires Resolving(model, keyOf, visited, State())
      modifies this`rows, this`warningRows, this`invalidNameRows, this`duplicateRows
      ensures Resolving(model, keyOf, visited + group, State())
    {
      MembersOf(Keys(model, keyOf), key);
      hide Resolving, Members, FullRow, RowsWith, ResolveOne;
      var colliding := |group| > 1;
      var todo := group;
      ghost var seen := visited;
      while todo != {}
        invariant todo <= group && todo !! seen && seen + todo == visited + group
        invariant Resolving(model, keyOf, seen, State())
        decreases todo
      {
        var row :| row in todo;
        ResolvingStep(model, keyOf, seen, State(), row, colliding);
        CountResolved(row, colliding);
        todo, seen := todo - {row}, seen + {row};
      }
      assert seen == visited + group;
    }

    method CountResolved(row: nat, colliding: bool)
      requires row < |rows|
      modifies this`rows, this`warningRows, this`invalidNameRows, this`duplicateRows
      ensures State() == ResolveOne(old(State()), row, colliding)
    {
      var issue := ResolvedIssue(rows[row].base, rows[row].change, colliding);
      rows := Replaced(rows, row, issue);
      match issue {
        case NoIssue =>
        case EmptyStem => warningRows := warningRows + 1;
        case InvalidName(_) => invalidNameRows := invalidNameRows + 1;
        case DuplicateDestination => duplicateRows := duplicateRows + 1;
      }
    }
  }

  function Changes(inputs: seq<RowInput>): (r: seq<ChangeKind>)
    ensures |r| == |inputs| && forall i: nat | i < |r| :: r[i] == inputs[i].change
  {
    seq(|inputs|, i requires 0 <= i < |inputs| => inputs[i].change)
  }

  function CountChanged(changes: seq<ChangeKind>): (count: nat)
    ensures count <= |changes|
  {
    if changes == [] then 0
    else CountChanged(changes[..|changes| - 1]) + One(changes[|changes| - 1].IsChanged())
  }

  /** The count is the number of rows that plan a change. */
  lemma {:induction false} CountChangedMeaning(changes: seq<ChangeKind>)
    ensures CountChanged(changes) == |set k: nat | k < |changes| && !changes[k].NoChange?|
  {
    var now := set k: nat | k < |changes| && !changes[k].NoChange?;
    if changes == [] {
      assert now == {};
    } else {
      var front := changes[..|changes| - 1];
      CountChangedMeaning(front);
      var before := set k: nat | k < |front| && !front[k].NoChange?;
      assert now == if changes[|front|].NoChange? then before else before + {|front|};
    }
  }

  /** One edit moves the count by its two flags, and never out of range. */
  lemma {:induction false} CountAfterEdit(changes: seq<ChangeKind>, row: nat, change: ChangeKind)
    requires row < |changes|
    ensures CountChanged(changes[row := change])
         == CountChanged(changes) - One(changes[row].IsChanged()) + One(change.IsChanged())
    ensures changes[row].IsChanged() ==> CountChanged(changes) > 0
    ensures !changes[row].IsChanged() ==> CountChanged(changes) < |changes|
  {
    var last, now := |changes| - 1, changes[row := change];
    if row < last {
      CountAfterEdit(changes[..last], row, change);
      assert now[..last] == changes[..last][row := change];
    } else {
      assert now[..last] == changes[..last];
    }
  }

  class PreviewCountCache {
    var total: nat
    var changed: nat

    constructor ()
      ensures total == changed == 0
    {
      total, changed := 0, 0;
    }

    method Refresh(changes: seq<ChangeKind>)
      modifies this
      ensures total == Min(|changes|, MAX_USIZE) && changed == Min(CountChanged(changes), MAX_USIZE)
    {
      total, changed := 0, 0;
      for k := 0 to |changes|
        invariant total == Min(k, MAX_USIZE) && changed == Min(CountChanged(changes[..k]), MAX_USIZE)
      {
        assert changes[..k + 1][..k] == changes[..k];
        total := SaturatingAdd(total, 1);
        changed := SaturatingAdd(changed, One(changes[k].IsChanged()));
      }
      assert changes[..|changes|] == changes;
    }

    /** Rejects, unchanged, exactly when the length differs or the count would leave
        its range. */
    method RefreshOne(modelLen: nat, previousChanged: bool, currentChanged: bool) returns (ok: bool)
      requires total <= MAX_USIZE
      modifies this
      ensures total == old(total)
      ensures var next := old(changed) - One(previousChanged && !currentChanged) + One(currentChanged && !previousChanged);
              && (ok <==> old(total) == modelLen && 0 <= next <= old(total))
              && changed == if ok then next else old(changed)
    {
      if total != modelLen {
        return false;
      }
      var next := changed;
      if !previousChanged && currentChanged {
        if changed == MAX_USIZE { return false; }
        next := changed + 1;
      } else if previousChanged && !currentChanged {
        if changed == 0 { return false; }
        next := changed - 1;
      }
      if next > total {
        return false;
      }
      changed := next;
      ok := true;
    }
  }

  type Edit = (nat, RowInput)

  /** The model after a run of one-row edits. */
  function ApplyEdits(inputs: seq<RowInput>, edits: seq<Edit>): (r: seq<RowInput>)
    requires forall k | 0 <= k < |edits| :: edits[k].0 < |inputs|
    ensures |r| == |inputs|
  {
    if edits == [] then inputs
    else
      var front := ApplyEdits(inputs, edits[..|edits| - 1]);
      front[edits[|edits| - 1].0 := edits[|edits| - 1].1]
  }

  /** Both caches agree with a full refresh of the model. */
  ghost predicate InStep<Key>(issues: PreviewIssueCache<Key>, counts: PreviewCountCache)
    reads issues, counts
  {
    && issues.initialized && issues.State() == Full(issues.model, issues.keyOf)
    && counts.total == |issues.model| <= MAX_USIZE
    && counts.changed == CountChanged(Changes(issues.model))
  }

  /** Over any run of one-row edits neither cache falls back to a full refresh, and
      both end equal to one. */
  method ReplayEdits<Key(==)>(issues: PreviewIssueCache<Key>, counts: PreviewCountCache, edits: seq<Edit>) returns (fellBack: bool)
    requires InStep(issues, counts)
    requires forall k | 0 <= k < |edits| :: edits[k].0 < |issues.model|
    modifies issues, counts
    ensures !fellBack && InStep(issues, counts)
    ensures issues.model == ApplyEdits(old(issues.model), edits)
  {
    ghost var before := issues.model;
    assert edits[..0] == [];
    for k := 0 to |edits|
      invariant InStep(issues, counts) && issues.model == ApplyEdits(before, edits[..k])
    {
      assert edits[..k + 1][..k] == edits[..k];
      fellBack := ReplayEdit(issues, counts, edits[k].0, edits[k].1);
      if fellBack {
        return;
      }
    }
    assert edits[..|edits|] == edits;
    fellBack := false;
  }

  lemma CountsAfterEdit(was: seq<RowInput>, row: nat, values: RowInput)
    requires row < |was|
    ensures var (before, after) := (CountChanged(Changes(was)), CountChanged(Changes(was[row := values])));
            && after == before - One(was[row].change.IsChanged()) + One(values.change.IsChanged())
            && after <= |was|
  {
    CountAfterEdit(Changes(was), row, values.change);
    assert Changes(was[row := values]) == Changes(was)[row := values.change];
  }

  method ReplayEdit<Key(==)>(issues: PreviewIssueCache<Key>, counts: PreviewCountCache, row: nat, values: RowInput) returns (fellBack: bool)
    requires InStep(issues, counts) && row < |issues.model|
    modifies issues, counts
    ensures !fellBack && InStep(issues, counts) && issues.model == old(issues.model)[row := values]
  {
    hide Full, CountChanged, Changes, Groups, Members, Keys, FullRows, IssueChangesAmong, AscendingRows, Affected, RowsWith;
    ghost var was := issues.model;
    FullFacts(was, issues.keyOf, row);
    CountsAfterEdit(was, row, values);
    var update := issues.RefreshOne(|issues.rows|, row, values);
    if update.None? {
      return true;
    }
    var ok := counts.RefreshOne(|issues.rows|, update.value.previousChanged, update.value.currentChanged);
    FullFacts(issues.model, issues.keyOf, row);
    fellBack := !ok;
  }
}
