/** The abstract value of the rename workbench list and its two cached totals. */
module ListState {
  import opened Orders
  import opened Paths
  import opened Machine
  import opened AppendIndex

  const MAX_TOTAL_NAME_UNITS: nat := 2 * 1024 * 1024
  const MAX_TOTAL_PATH_UNITS: nat := 2 * 1024 * 1024
  const MAX_PARENT_UNITS: nat := 32_767
  const MAX_TOTAL_PARENT_UNITS: nat := 2 * 1024 * 1024

  datatype MutationError =
    | NameBudgetExceeded(row: nat, requestedUnits: nat)
    | ParentBudgetExceeded(requestedUnits: nat)
    | AggregateBudgetExceeded(requestedUnits: nat)
    | PlannedPathBudgetExceeded(requestedUnits: nat)
    | ArithmeticOverflow
    | AllocationFailed

  datatype Result<T> = Ok(value: T) | Err(error: MutationError)

  function Sum(items: seq<Item>, units: Item -> nat): nat {
    if items == [] then 0 else Sum(items[..|items| - 1], units) + units(items[|items| - 1])
  }

  function NameUnits(item: Item): nat { |item.proposed| }
  function PathUnits(item: Item): nat { item.PlannedUnits() }

  function SumNames(items: seq<Item>): nat { Sum(items, NameUnits) }
  function SumPaths(items: seq<Item>): nat { Sum(items, PathUnits) }

  function Sources(items: seq<Item>): (s: seq<Text>)
    ensures |s| == |items| && forall i | 0 <= i < |s| :: s[i] == items[i].source
  {
    seq(|items|, i requires 0 <= i < |items| => items[i].source)
  }

  datatype ListState = ListState(
    items: seq<Item>,
    nameUnits: nat,
    pathUnits: nat,
    identity: Token,
    revision: nat)

  /** The state every operation keeps: exact totals, every budget respected. */
  ghost predicate Consistent(s: ListState) {
    && s.nameUnits == SumNames(s.items) <= MAX_TOTAL_NAME_UNITS
    && s.pathUnits == SumPaths(s.items) <= MAX_TOTAL_PATH_UNITS
    && (forall i | 0 <= i < |s.items| :: |s.items[i].proposed| <= MAX_NAME_UNITS)
    && s.revision <= MAX_U64
  }

  /** The next source revision; running out of revisions takes a fresh identity. */
  function Bumped(identity: Token, revision: nat, spare: Token): (Token, nat) {
    if revision < MAX_U64 then (identity, revision + 1) else (spare, 0)
  }

  predicate IsInvalidated(before: ListState, after: ListState, spare: Token) {
    (after.identity, after.revision) == Bumped(before.identity, before.revision, spare)
  }

  predicate KeepsBinding(before: ListState, after: ListState) {
    after.identity == before.identity && after.revision == before.revision
  }

  lemma {:induction false} SumConcat(a: seq<Item>, b: seq<Item>, units: Item -> nat)
    ensures Sum(a + b, units) == Sum(a, units) + Sum(b, units)
  {
    if b == [] {
      assert a + b == a;
    } else {
      assert (a + b)[..|a + b| - 1] == a + b[..|b| - 1];
      SumConcat(a, b[..|b| - 1], units);
    }
  }

  lemma SumOne(item: Item, units: Item -> nat)
    ensures Sum([item], units) == units(item)
  {
    assert [item][..0] == [];
  }

  lemma SumAround(items: seq<Item>, at: nat, units: Item -> nat)
    requires at < |items|
    ensures Sum(items, units) == Sum(items[..at], units) + units(items[at]) + Sum(items[at + 1..], units)
  {
    assert items == items[..at] + [items[at]] + items[at + 1..];
    SumConcat(items[..at] + [items[at]], items[at + 1..], units);
    SumConcat(items[..at], [items[at]], units);
    SumOne(items[at], units);
  }

  lemma SumUpdate(items: seq<Item>, at: nat, item: Item, units: Item -> nat)
    requires at < |items|
    ensures Sum(items[at := item], units) == Sum(items, units) - units(items[at]) + units(item)
    ensures units(items[at]) <= Sum(items, units)
  {
    SumAround(items, at, units);
    SumAround(items[at := item], at, units);
    assert items[at := item][..at] == items[..at] && items[at := item][at + 1..] == items[at + 1..];
  }

  /** Takes the last row of `a` out of both listings of the same rows. */
  lemma MatchLast<T>(a: seq<T>, b: seq<T>) returns (at: nat)
    requires multiset(a) == multiset(b) && a != []
    ensures at < |b| && b[at] == a[|a| - 1]
    ensures multiset(a[..|a| - 1]) == multiset(b[..at] + b[at + 1..])
  {
    var last := |a| - 1;
    assert a[last] in multiset(b);
    at :| 0 <= at < |b| && b[at] == a[last];
    TakenOut(b, at);
    assert a == a[..last] + [a[last]];
    assert multiset(a[..last]) == multiset(a) - multiset{a[last]};
    assert multiset(b[..at] + b[at + 1..]) == multiset(b) - multiset{b[at]};
  }

  lemma EmptyListing<T>(b: seq<T>)
    requires multiset(b) == multiset([])
    ensures b == []
  {
    assert |multiset(b)| == |b|;
  }

  /** The totals do not depend on row order. */
  lemma {:induction false} SumOfSameRows(a: seq<Item>, b: seq<Item>, units: Item -> nat)
    requires multiset(a) == multiset(b)
    ensures Sum(a, units) == Sum(b, units)
    decreases |a|
  {
    if a == [] {
      EmptyListing(b);
    } else {
      var at := MatchLast(a, b);
      SumOfSameRows(a[..|a| - 1], b[..at] + b[at + 1..], units);
      SumAround(b, at, units);
      SumConcat(b[..at], b[at + 1..], units);
    }
  }

  lemma {:induction false} SumBounds(items: seq<Item>, k: nat, units: Item -> nat)
    requires k <= |items|
    ensures Sum(items[..k], units) <= Sum(items, units)
  {
    assert items == items[..k] + items[k..];
    SumConcat(items[..k], items[k..], units);
  }

  /** The rows below `n` whose item differs, in ascending order. */
  function ChangedRows(before: seq<Item>, after: seq<Item>, n: nat): (rows: seq<nat>)
    requires n <= |before| && n <= |after|
    ensures forall r: nat :: r in rows <==> r < n && before[r] != after[r]
    ensures forall i | 0 <= i < |rows| :: rows[i] < n
    ensures forall i, j | 0 <= i < j < |rows| :: rows[i] < rows[j]
  {
    if n == 0 then []
    else
      var front := ChangedRows(before, after, n - 1);
      if before[n - 1] != after[n - 1] then front + [n - 1] else front
  }

  /** Reordering the rows keeps a consistent list consistent. */
  lemma ReorderedIsConsistent(before: ListState, items: seq<Item>)
    requires Consistent(before) && multiset(items) == multiset(before.items)
    ensures Consistent(before.(items := items))
    ensures multiset(Sources(items)) == multiset(Sources(before.items))
  {
    SumOfSameRows(items, before.items, NameUnits);
    SumOfSameRows(items, before.items, PathUnits);
    forall i | 0 <= i < |items| ensures |items[i].proposed| <= MAX_NAME_UNITS {
      assert items[i] in multiset(before.items);
    }
    SourcesOfSameRows(items, before.items);
  }

  lemma {:induction false} SourcesOfSameRows(a: seq<Item>, b: seq<Item>)
    requires multiset(a) == multiset(b)
    ensures multiset(Sources(a)) == multiset(Sources(b))
    decreases |a|
  {
    if a == [] {
      EmptyListing(b);
    } else {
      var last := |a| - 1;
      var at := MatchLast(a, b);
      var rest := b[..at] + b[at + 1..];
      SourcesOfSameRows(a[..last], rest);
      TakenOut(Sources(b), at);
      assert Sources(b)[..at] + Sources(b)[at + 1..] == Sources(rest);
      assert Sources(a) == Sources(a[..last]) + [a[last].source];
    }
  }
}
