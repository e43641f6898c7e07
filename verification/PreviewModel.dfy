/** The preview diagnosis of every row, computed from scratch: what the cache must
    equal after any run of one-row edits. Destination keys are opaque values that
    can be compared for equality. */
module PreviewModel {
  import opened Paths
  import opened LeafName

  datatype RowIssue = NoIssue | EmptyStem | InvalidName(error: LeafNameError) | DuplicateDestination

  datatype RowInput = RowInput(parent: Text, current: Text, proposed: Text, isDirectory: bool, change: ChangeKind)

  type KeyOf<!Key> = (Text, Text) -> Key

  predicate HasEmptyStem(name: Text, isDirectory: bool) {
    if isDirectory then name == [] else LastIndex(name, DOT) == 0
  }

  function BaseIssue(input: RowInput): RowIssue {
    if !input.change.Renames() then NoIssue
    else match ValidateLeafName(input.proposed)
      case Rejected(error) => InvalidName(error)
      case Accepted => if HasEmptyStem(input.proposed, input.isDirectory) then EmptyStem else NoIssue
  }

  function ResolvedIssue(base: RowIssue, change: ChangeKind, colliding: bool): RowIssue {
    if base.InvalidName? then base
    else if change.IsChanged() && colliding then DuplicateDestination
    else base
  }

  datatype CachedRow<Key> = CachedRow(key: Key, base: RowIssue, issue: RowIssue, change: ChangeKind)

  datatype PreviewState<Key> = PreviewState(
    rows: seq<CachedRow<Key>>,
    groups: map<Key, set<nat>>,
    warningRows: nat,
    invalidNameRows: nat,
    duplicateRows: nat,
    blockerRows: nat)

  function KeyAt<Key>(inputs: seq<RowInput>, keyOf: KeyOf<Key>, i: nat): Key
    requires i < |inputs|
  {
    keyOf(inputs[i].parent, inputs[i].proposed)
  }

  function Keys<Key>(inputs: seq<RowInput>, keyOf: KeyOf<Key>): (keys: seq<Key>)
    ensures |keys| == |inputs| && forall i: nat | i < |keys| :: keys[i] == KeyAt(inputs, keyOf, i)
  {
    seq(|inputs|, i requires 0 <= i < |inputs| => KeyAt(inputs, keyOf, i))
  }

  /** The rows planned to go to `key`. */
  function Members<Key(==)>(keys: seq<Key>, key: Key): set<nat> {
    set i: nat | i < |keys| && keys[i] == key
  }

  function Groups<Key(==)>(keys: seq<Key>): map<Key, set<nat>> {
    map key | key in keys :: Members(keys, key)
  }

  function FullRow<Key(==)>(inputs: seq<RowInput>, keyOf: KeyOf<Key>, i: nat): CachedRow<Key>
    requires i < |inputs|
  {
    var key, base := KeyAt(inputs, keyOf, i), BaseIssue(inputs[i]);
    var colliding := |Members(Keys(inputs, keyOf), key)| > 1;
    CachedRow(key, base, ResolvedIssue(base, inputs[i].change, colliding), inputs[i].change)
  }

  function FullRows<Key(==)>(inputs: seq<RowInput>, keyOf: KeyOf<Key>): (rows: seq<CachedRow<Key>>)
    ensures |rows| == |inputs| && forall i: nat | i < |rows| :: rows[i] == FullRow(inputs, keyOf, i)
  {
    seq(|inputs|, i requires 0 <= i < |inputs| => FullRow(inputs, keyOf, i))
  }

  type IssueTest = RowIssue -> bool

  predicate IsWarning(issue: RowIssue) { issue.EmptyStem? }
  predicate IsInvalid(issue: RowIssue) { issue.InvalidName? }
  predicate IsDuplicate(issue: RowIssue) { issue.DuplicateDestination? }

  /** The rows whose issue passes the test. */
  function RowsWith<Key>(rows: seq<CachedRow<Key>>, test: IssueTest): set<nat> {
    set i: nat | i < |rows| && test(rows[i].issue)
  }

  /** The full rebuild. */
  function Full<Key(==)>(inputs: seq<RowInput>, keyOf: KeyOf<Key>): PreviewState<Key> {
    var rows := FullRows(inputs, keyOf);
    var (invalid, duplicate) := (|RowsWith(rows, IsInvalid)|, |RowsWith(rows, IsDuplicate)|);
    PreviewState(rows, Groups(Keys(inputs, keyOf)), |RowsWith(rows, IsWarning)|, invalid, duplicate, invalid + duplicate)
  }

  lemma TwoMembers<Key>(keys: seq<Key>, key: Key, i: nat)
    requires i < |keys| && keys[i] == key
    ensures |Members(keys, key)| > 1 <==> exists j: nat :: j < |keys| && j != i && keys[j] == key
  {
    var members := Members(keys, key);
    assert i in members;
    assert |members - {i}| == |members| - 1;
    if j: nat :| j < |keys| && j != i && keys[j] == key {
      assert j in members - {i};
    }
    if |members| > 1 {
      var j :| j in members - {i};
    }
  }

  /** Another row goes to the same place. */
  ghost predicate Shares<Key>(inputs: seq<RowInput>, keyOf: KeyOf<Key>, i: nat)
    requires i < |inputs|
  {
    exists j: nat :: j < |inputs| && j != i
                     && keyOf(inputs[j].parent, inputs[j].proposed) == keyOf(inputs[i].parent, inputs[i].proposed)
  }

  /** The plan gives the row another name. */
  predicate TakesName(input: RowInput) {
    input.change.Rename? || input.change.MoveAndRename?
  }

  /** The only dot of the name is its first unit. */
  predicate DotLeads(name: Text) {
    name != [] && name[0] == DOT && DOT !in name[1..]
  }

  /** When a row is marked a duplicate: another row goes to the same place, this row's plan
      changes something, and its name is not rejected. */
  lemma DuplicateMeaning<Key>(inputs: seq<RowInput>, keyOf: KeyOf<Key>, i: nat)
    requires i < |inputs|
    ensures FullRow(inputs, keyOf, i).issue.DuplicateDestination? <==>
              && !inputs[i].change.NoChange? && Shares(inputs, keyOf, i)
              && !(TakesName(inputs[i]) && ValidateLeafName(inputs[i].proposed).Rejected?)
  {
    hide ValidateLeafName;
    var keys := Keys(inputs, keyOf);
    TwoMembers(keys, keys[i], i);
    assert forall j: nat | j < |inputs| :: keys[j] == keyOf(inputs[j].parent, inputs[j].proposed);
  }

  /** What every diagnosis means in terms of the row. */
  ghost predicate IssueIs<Key>(inputs: seq<RowInput>, keyOf: KeyOf<Key>, i: nat, issue: RowIssue)
    requires i < |inputs|
  {
    var (input, verdict) := (inputs[i], ValidateLeafName(inputs[i].proposed));
    var duplicate := !input.change.NoChange? && Shares(inputs, keyOf, i) && !(TakesName(input) && verdict.Rejected?);
    var emptyStem := TakesName(input) && verdict.Accepted? && !input.isDirectory && DotLeads(input.proposed) && !duplicate;
    && (forall error :: issue == InvalidName(error) <==> TakesName(input) && verdict == Rejected(error))
    && (issue.DuplicateDestination? <==> duplicate)
    && (issue.EmptyStem? <==> emptyStem)
    && (issue.NoIssue? <==> !duplicate && !emptyStem && !(TakesName(input) && verdict.Rejected?))
  }

  /** Rows with their place, their change and the right diagnosis. */
  ghost predicate RowsAre<Key>(inputs: seq<RowInput>, keyOf: KeyOf<Key>, rows: seq<CachedRow<Key>>) {
    && |rows| == |inputs|
    && forall i: nat | i < |inputs| ::
         && rows[i].key == keyOf(inputs[i].parent, inputs[i].proposed) && rows[i].change == inputs[i].change
         && IssueIs(inputs, keyOf, i, rows[i].issue)
  }

  lemma FullRowsAre<Key>(inputs: seq<RowInput>, keyOf: KeyOf<Key>)
    ensures RowsAre(inputs, keyOf, Full(inputs, keyOf).rows)
  {
    hide IssueIs;
    forall i: nat | i < |inputs| ensures IssueIs(inputs, keyOf, i, FullRow(inputs, keyOf, i).issue) {
      IssueMeaning(inputs, keyOf, i);
    }
  }

  lemma DotLeadsMeaning(name: Text)
    ensures LastIndex(name, DOT) == 0 <==> DotLeads(name)
  {
    if DotLeads(name) {
      assert forall k | 0 < k < |name| :: name[k] == name[1..][k - 1];
      LastIndexUnique(name, DOT, 0);
    }
  }

  lemma IssueMeaning<Key>(inputs: seq<RowInput>, keyOf: KeyOf<Key>, i: nat)
    requires i < |inputs|
    ensures IssueIs(inputs, keyOf, i, FullRow(inputs, keyOf, i).issue)
  {
    hide ValidateLeafName, Members, Keys, Shares;
    DuplicateMeaning(inputs, keyOf, i);
    DotLeadsMeaning(inputs[i].proposed);
    AcceptedIsNotEmpty(inputs[i].proposed);
  }

  lemma AcceptedIsNotEmpty(name: Text)
    ensures ValidateLeafName(name).Accepted? ==> name != []
  {
  }

  /** The counters of a full rebuild count rows, and a blocker is an invalid name or a
      duplicate. */
  lemma CountersMeaning<Key>(inputs: seq<RowInput>, keyOf: KeyOf<Key>)
    ensures var (rows, full) := (FullRows(inputs, keyOf), Full(inputs, keyOf));
      && full.rows == rows
      && full.warningRows == |set i: nat | i < |rows| && rows[i].issue.EmptyStem?|
      && full.invalidNameRows == |set i: nat | i < |rows| && rows[i].issue.InvalidName?|
      && full.duplicateRows == |set i: nat | i < |rows| && rows[i].issue.DuplicateDestination?|
      && full.blockerRows == |set i: nat | i < |rows| && (rows[i].issue.InvalidName? || rows[i].issue.DuplicateDestination?)|
  {
    var rows := FullRows(inputs, keyOf);
    hide FullRow;
    var (invalid, duplicate) := (RowsWith(rows, IsInvalid), RowsWith(rows, IsDuplicate));
    assert (set i: nat | i < |rows| && rows[i].issue.EmptyStem?) == RowsWith(rows, IsWarning);
    assert (set i: nat | i < |rows| && rows[i].issue.InvalidName?) == invalid;
    assert (set i: nat | i < |rows| && rows[i].issue.DuplicateDestination?) == duplicate;
    assert (set i: nat | i < |rows| && (rows[i].issue.InvalidName? || rows[i].issue.DuplicateDestination?)) == invalid + duplicate;
    assert invalid !! duplicate;
  }

  /** A group holds exactly the rows that go to its place. */
  lemma GroupsMeaning<Key>(inputs: seq<RowInput>, keyOf: KeyOf<Key>, key: Key)
    ensures var groups := Full(inputs, keyOf).groups;
      && (key in groups <==> exists i: nat :: i < |inputs| && keyOf(inputs[i].parent, inputs[i].proposed) == key)
      && (key in groups ==>
            forall i: nat :: i in groups[key] <==> i < |inputs| && keyOf(inputs[i].parent, inputs[i].proposed) == key)
  {
    var keys := Keys(inputs, keyOf);
    assert forall i: nat | i < |inputs| :: keys[i] == keyOf(inputs[i].parent, inputs[i].proposed);
    assert key in keys <==> exists i: nat :: i < |keys| && keys[i] == key;
  }

  /** The groups after one row moved from one key to another. */
  function MovedGroups<Key(==)>(groups: map<Key, set<nat>>, oldKey: Key, newKey: Key, row: nat): map<Key, set<nat>>
    requires oldKey in groups
  {
    if oldKey == newKey then groups
    else
      var left := groups[oldKey] - {row};
      var without := if left == {} then groups - {oldKey} else groups[oldKey := left];
      without[newKey := if newKey in without then without[newKey] + {row} else {row}]
  }

  lemma MembersAfterEdit<Key>(keys: seq<Key>, row: nat, newKey: Key, key: Key)
    requires row < |keys|
    ensures Members(keys[row := newKey], key)
         == if key == newKey then Members(keys, key) + {row} else Members(keys, key) - {row}
  {}

  /** Moving one row between groups is the regrouping of the edited keys. */
  lemma GroupsAfterEdit<Key>(keys: seq<Key>, row: nat, newKey: Key)
    requires row < |keys|
    ensures Groups(keys[row := newKey]) == MovedGroups(Groups(keys), keys[row], newKey, row)
  {
    var now, oldKey := keys[row := newKey], keys[row];
    var moved := MovedGroups(Groups(keys), oldKey, newKey, row);
    if oldKey == newKey {
      assert now == keys;
    } else {
      forall key ensures key in now <==> key in moved {
        MembersAfterEdit(keys, row, newKey, key);
        assert now[row] == newKey;
        assert key in now <==> exists i: nat :: i < |now| && now[i] == key;
        assert key in now <==> Members(now, key) != {} by {
          if i: nat :| i < |now| && now[i] == key { assert i in Members(now, key); }
        }
        assert key in keys <==> Members(keys, key) != {} by {
          if i: nat :| i < |keys| && keys[i] == key { assert i in Members(keys, key); }
        }
      }
      forall key | key in moved ensures moved[key] == Members(now, key) {
        MembersAfterEdit(keys, row, newKey, key);
        if key !in keys { assert Members(keys, key) == {}; }
      }
    }
  }

  /** A row outside both groups keeps its diagnosis. */
  lemma EditIsLocal<Key>(inputs: seq<RowInput>, keyOf: KeyOf<Key>, row: nat, input: RowInput, i: nat)
    requires row < |inputs| && i < |inputs| && i != row
    requires var key := KeyAt(inputs, keyOf, i);
             key != KeyAt(inputs, keyOf, row) && key != keyOf(input.parent, input.proposed)
    ensures FullRow(inputs[row := input], keyOf, i) == FullRow(inputs, keyOf, i)
  {
    var now := inputs[row := input];
    assert Keys(now, keyOf) == Keys(inputs, keyOf)[row := keyOf(input.parent, input.proposed)];
    MembersAfterEdit(Keys(inputs, keyOf), row, keyOf(input.parent, input.proposed), KeyAt(inputs, keyOf, i));
  }
}
