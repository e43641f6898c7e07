/** The order in which an accepted batch joins the list. The original application
    inserted one item at a time, before the first item that is not smaller; the
    list sorts the batch once and must give the same rows. */
module Batch {
  import opened Orders
  import opened Paths
  import opened Picking

  ghost predicate Duplicate(cmp: Comparator<Text>, sources: seq<Text>, source: Text) {
    exists x :: x in sources && cmp(x, source) == Equal
  }

  /** The batch items whose path equals no path that was already listed. */
  ghost function Accepted(cmp: Comparator<Text>, sources: seq<Text>, items: seq<Item>): seq<Item> {
    if items == [] then []
    else
      var front := Accepted(cmp, sources, items[..|items| - 1]);
      var last := items[|items| - 1];
      if Duplicate(cmp, sources, last.source) then front else front + [last]
  }

  /** The accepted items stand at exactly the positions whose path compares equal to no
      source, in the order of the batch. */
  lemma {:induction false} AcceptedMeaning(cmp: Comparator<Text>, sources: seq<Text>, batch: seq<Item>)
    returns (positions: seq<nat>)
    ensures PickedAt(batch, positions, Accepted(cmp, sources, batch))
    ensures forall k: nat :: k in positions <==> k < |batch| && forall x | x in sources :: cmp(x, batch[k].source) != Equal
  {
    positions := [];
    if batch != [] {
      var n := |batch| - 1;
      assert batch == batch[..n] + [batch[n]];
      positions := AcceptedMeaning(cmp, sources, batch[..n]);
      PickNext(batch[..n], batch[n], positions, Accepted(cmp, sources, batch[..n]));
      if !Duplicate(cmp, sources, batch[n].source) {
        positions := positions + [n];
      }
    }
  }

  /** How often an item is accepted: never when it is listed, and otherwise as often as
      the batch holds it. */
  lemma {:induction false} AcceptedCount(cmp: Comparator<Text>, sources: seq<Text>, batch: seq<Item>, item: Item)
    ensures multiset(Accepted(cmp, sources, batch))[item]
         == if exists x :: x in sources && cmp(x, item.source) == Equal then 0 else multiset(batch)[item]
  {
    if batch != [] {
      var n := |batch| - 1;
      assert batch == batch[..n] + [batch[n]];
      AcceptedCount(cmp, sources, batch[..n], item);
    }
  }

  /** The first row that is not smaller than the key. */
  function InsertionPlace(cmp: Comparator<Text>, rows: seq<Item>, key: Text): (k: nat)
    ensures k <= |rows|
    ensures forall i | 0 <= i < k :: cmp(rows[i].source, key) == Less
    ensures k < |rows| ==> cmp(rows[k].source, key) != Less
  {
    if rows == [] || cmp(rows[0].source, key) != Less then 0
    else 1 + InsertionPlace(cmp, rows[1..], key)
  }

  function LegacyInsert(cmp: Comparator<Text>, rows: seq<Item>, item: Item): seq<Item> {
    var k := InsertionPlace(cmp, rows, item.source);
    rows[..k] + [item] + rows[k..]
  }

  /** The original one-at-a-time insertion of a batch. */
  function LegacyFold(cmp: Comparator<Text>, items: seq<Item>): seq<Item> {
    if items == [] then []
    else LegacyInsert(cmp, LegacyFold(cmp, items[..|items| - 1]), items[|items| - 1])
  }

  type Positioned = (nat, Item)

  /** The comparison the list sorts a batch with: path order, then later position first. */
  function CompareBatch(cmp: Comparator<Text>, left: Positioned, right: Positioned): Ordering {
    var byPath := cmp(left.1.source, right.1.source);
    if byPath != Equal then byPath
    else if right.0 < left.0 then Less
    else if right.0 == left.0 then Equal
    else Greater
  }

  function BatchComparator(cmp: Comparator<Text>): Comparator<Positioned> {
    (left, right) => CompareBatch(cmp, left, right)
  }

  function WithPositions(items: seq<Item>): (pairs: seq<Positioned>)
    ensures |pairs| == |items| && forall i | 0 <= i < |items| :: pairs[i] == (i, items[i])
  {
    seq(|items|, i requires 0 <= i < |items| => (i, items[i]))
  }

  lemma CompareBatchLaws(cmp: Comparator<Text>, a: Positioned, b: Positioned, c: Positioned)
    requires TotalPreorder(cmp)
    ensures CompareBatch(cmp, a, b) == CompareBatch(cmp, b, a).Reverse()
    ensures CompareBatch(cmp, a, b) != Greater && CompareBatch(cmp, b, c) != Greater ==> CompareBatch(cmp, a, c) != Greater
  {
    Chain(cmp, a.1.source, b.1.source, c.1.source);
    Chain(cmp, c.1.source, b.1.source, a.1.source);
    Chain(cmp, b.1.source, c.1.source, a.1.source);
    Chain(cmp, a.1.source, c.1.source, b.1.source);
  }

  lemma BatchPreorder(cmp: Comparator<Text>, pairs: seq<Positioned>)
    requires TotalPreorder(cmp)
    ensures PreorderOn(BatchComparator(cmp), pairs)
  {
    forall i, j, k | 0 <= i < |pairs| && 0 <= j < |pairs| && 0 <= k < |pairs|
      ensures var c := BatchComparator(cmp);
              && c(pairs[i], pairs[j]) == c(pairs[j], pairs[i]).Reverse()
              && (c(pairs[i], pairs[j]) != Greater && c(pairs[j], pairs[k]) != Greater ==> c(pairs[i], pairs[k]) != Greater)
    {
      CompareBatchLaws(cmp, pairs[i], pairs[j], pairs[k]);
    }
  }

  /** The positions of the first `n` items in the order the fold leaves them. */
  ghost function FoldOrder(cmp: Comparator<Text>, items: seq<Item>, n: nat): seq<nat>
    requires n <= |items|
  {
    if n == 0 then []
    else
      var k := InsertionPlace(cmp, LegacyFold(cmp, items[..n - 1]), items[n - 1].source);
      var front := FoldOrder(cmp, items, n - 1);
      if k <= |front| then front[..k] + [n - 1] + front[k..] else front
  }

  lemma {:induction false} FoldOrderMeaning(cmp: Comparator<Text>, items: seq<Item>, n: nat)
    requires TotalPreorder(cmp) && n <= |items|
    ensures var order := FoldOrder(cmp, items, n);
            && |order| == n && InRange(order, n) && LegacyFold(cmp, items[..n]) == Permuted(items, order)
            && OrderedBy(BatchComparator(cmp), WithPositions(items), order)
  {
    hide TotalPreorder, OrderedBy, Permuted, FoldOrder, LegacyFold, InsertionPlace, LegacyInsert;
    if n == 0 {
      NothingOrdered(cmp, items);
    } else {
      FoldOrderMeaning(cmp, items, n - 1);
      FoldOrderStep(cmp, items, n - 1);
      FoldStep(cmp, items, n - 1, FoldOrder(cmp, items, n - 1), LegacyFold(cmp, items[..n - 1]));
    }
  }

  lemma FoldOrderStep(cmp: Comparator<Text>, items: seq<Item>, n: nat)
    requires n < |items| && |FoldOrder(cmp, items, n)| == |LegacyFold(cmp, items[..n])|
    ensures var rows, front := LegacyFold(cmp, items[..n]), FoldOrder(cmp, items, n);
            var k := InsertionPlace(cmp, rows, items[n].source);
            && k <= |front| && FoldOrder(cmp, items, n + 1) == front[..k] + [n] + front[k..]
            && LegacyFold(cmp, items[..n + 1]) == LegacyInsert(cmp, rows, items[n])
  {
    hide LegacyInsert, InsertionPlace;
    assert items[..n + 1][..n] == items[..n];
  }

  lemma FoldStep(cmp: Comparator<Text>, items: seq<Item>, n: nat, front: seq<nat>, rows: seq<Item>)
    requires TotalPreorder(cmp) && n < |items| && |front| == n && InRange(front, n)
    requires OrderedBy(BatchComparator(cmp), WithPositions(items), front)
    requires rows == Permuted(items, front)
    ensures var k := InsertionPlace(cmp, rows, items[n].source);
            var order := front[..k] + [n] + front[k..];
            && InRange(order, n + 1) && LegacyInsert(cmp, rows, items[n]) == Permuted(items, order)
            && OrderedBy(BatchComparator(cmp), WithPositions(items), order)
  {
    hide TotalPreorder, OrderedBy;
    var k := InsertionPlace(cmp, rows, items[n].source);
    FoldStepOrdered(cmp, items, n, front, k);
    PermutedInsert(items, front, k, n);
  }

  lemma NothingOrdered(cmp: Comparator<Text>, items: seq<Item>)
    ensures OrderedBy(BatchComparator(cmp), WithPositions(items), []) && Permuted(items, []) == []
    ensures FoldOrder(cmp, items, 0) == [] && LegacyFold(cmp, items[..0]) == []
  {}

  lemma PermutedInsert(items: seq<Item>, front: seq<nat>, k: nat, n: nat)
    requires k <= |front| && n < |items| && InRange(front, |items|)
    ensures InRange(front[..k] + [n] + front[k..], |items|)
    ensures var rows := Permuted(items, front);
            Permuted(items, front[..k] + [n] + front[k..]) == rows[..k] + [items[n]] + rows[k..]
  {
    var order := front[..k] + [n] + front[k..];
    forall p | 0 <= p < |order| && p != k ensures order[p] == front[if p < k then p else p - 1] {}
  }

  lemma NewBeforeLater(cmp: Comparator<Text>, items: seq<Item>, n: nat, front: seq<nat>, k: nat, q: nat)
    requires TotalPreorder(cmp) && n < |items| && k <= q < |front| == n && InRange(front, n)
    requires OrderedBy(BatchComparator(cmp), WithPositions(items), front)
    requires cmp(items[front[k]].source, items[n].source) != Less
    ensures Before(BatchComparator(cmp), WithPositions(items), n, front[q])
  {
    hide TotalPreorder;
    assert q > k ==> Before(BatchComparator(cmp), WithPositions(items), front[k], front[q]);
    Chain(cmp, items[n].source, items[front[k]].source, items[front[q]].source);
    Chain(cmp, items[front[k]].source, items[n].source, items[n].source);
  }

  lemma FoldStepOrdered(cmp: Comparator<Text>, items: seq<Item>, n: nat, front: seq<nat>, k: nat)
    requires TotalPreorder(cmp) && n < |items| && k <= |front| == n && InRange(front, n)
    requires OrderedBy(BatchComparator(cmp), WithPositions(items), front)
    requires forall i | 0 <= i < k :: cmp(items[front[i]].source, items[n].source) == Less
    requires k < n ==> cmp(items[front[k]].source, items[n].source) != Less
    ensures InRange(front[..k] + [n] + front[k..], n + 1)
    ensures OrderedBy(BatchComparator(cmp), WithPositions(items), front[..k] + [n] + front[k..])
  {
    hide TotalPreorder;
    var pairs, order := WithPositions(items), front[..k] + [n] + front[k..];
    var c := BatchComparator(cmp);
    forall q | k <= q < n ensures Before(c, pairs, n, front[q]) {
      NewBeforeLater(cmp, items, n, front, k, q);
    }
    forall p, q | 0 <= p < q < |order| ensures Before(c, pairs, order[p], order[q]) {
      assert p != k ==> order[p] == front[if p < k then p else p - 1];
      assert q != k ==> order[q] == front[if q < k then q else q - 1];
    }
  }

  /** No two positions compare equal, so any sorting is the stable one. */
  lemma SortedPairsAreOrdered(cmp: Comparator<Text>, items: seq<Item>, order: seq<nat>)
    requires Permutes(order, |items|)
    requires Sorted(BatchComparator(cmp), Permuted(WithPositions(items), order))
    ensures |order| == |items| && InRange(order, |items|)
    ensures OrderedBy(BatchComparator(cmp), WithPositions(items), order)
  {
    var pairs, c := WithPositions(items), BatchComparator(cmp);
    var sorted := Permuted(pairs, order);
    forall p, q | 0 <= p < q < |order| ensures Before(c, pairs, order[p], order[q]) {
      assert c(sorted[p], sorted[q]) != Greater;
      assert order[p] != order[q];
    }
  }

  /** Any sorting of the batch by the list's comparison is the original insertion order. */
  lemma SortedBatchIsLegacyFold(cmp: Comparator<Text>, items: seq<Item>, order: seq<nat>)
    requires TotalPreorder(cmp) && Permutes(order, |items|)
    requires Sorted(BatchComparator(cmp), Permuted(WithPositions(items), order))
    ensures Permuted(items, order) == LegacyFold(cmp, items)
  {
    hide *;
    var fold := FoldOrder(cmp, items, |items|);
    FoldOrderMeaning(cmp, items, |items|);
    assert items[..|items|] == items;
    SortedPairsAreOrdered(cmp, items, order);
    OrderIsFoldOrder(cmp, items, order, fold);
  }

  lemma OrderIsFoldOrder(cmp: Comparator<Text>, items: seq<Item>, a: seq<nat>, b: seq<nat>)
    requires TotalPreorder(cmp) && |a| == |b| == |items| && InRange(a, |items|) && InRange(b, |items|)
    requires OrderedBy(BatchComparator(cmp), WithPositions(items), a)
    requires OrderedBy(BatchComparator(cmp), WithPositions(items), b)
    ensures a == b
  {
    hide PreorderOn, TotalPreorder, OrderedBy;
    BatchPreorder(cmp, WithPositions(items));
    StableOrderUnique(BatchComparator(cmp), WithPositions(items), a, b);
  }

  /** The fold keeps every accepted row. */
  lemma FoldKeepsRows(cmp: Comparator<Text>, items: seq<Item>)
    requires TotalPreorder(cmp)
    ensures multiset(LegacyFold(cmp, items)) == multiset(items)
  {
    var fold := FoldOrder(cmp, items, |items|);
    FoldOrderMeaning(cmp, items, |items|);
    assert items[..|items|] == items;
    BatchPreorder(cmp, WithPositions(items));
    StableOrderPermutes(BatchComparator(cmp), WithPositions(items), fold);
    PermutedMultiset(items, fold);
  }

  /** The added rows, counted: no item whose path compares equal to a source, and every
      other item of the batch as often as it is there. */
  ghost predicate AddsNew(cmp: Comparator<Text>, sources: seq<Text>, batch: seq<Item>, added: seq<Item>) {
    forall item ::
      multiset(added)[item] == if exists x :: x in sources && cmp(x, item.source) == Equal then 0 else multiset(batch)[item]
  }

  lemma TailAddsNew(cmp: Comparator<Text>, sources: seq<Text>, batch: seq<Item>)
    requires TotalPreorder(cmp)
    ensures AddsNew(cmp, sources, batch, LegacyFold(cmp, Accepted(cmp, sources, batch)))
  {
    hide TotalPreorder, LegacyFold, Accepted;
    FoldKeepsRows(cmp, Accepted(cmp, sources, batch));
    forall item {
      AcceptedCount(cmp, sources, batch, item);
    }
  }

  lemma AddedAreFromBatch(cmp: Comparator<Text>, sources: seq<Text>, batch: seq<Item>, added: seq<Item>)
    requires AddsNew(cmp, sources, batch, added)
    ensures forall item | item in added :: item in batch
  {
    forall item | item in added ensures item in batch {
      assert multiset(added)[item] > 0;
      assert item in multiset(batch);
    }
  }
}
