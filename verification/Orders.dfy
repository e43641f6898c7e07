/** Comparators, stable orders and permutations: what "sorted" means for every
    sort of the workbench. A comparator is any function into `Ordering`; the
    lemmas ask only that it is a total preorder on the rows at hand. */
module Orders {
  datatype Ordering = Less | Equal | Greater {
    function Reverse(): Ordering {
      match this
      case Less => Greater
      case Equal => Equal
      case Greater => Less
    }
  }

  type Comparator<!T> = (T, T) -> Ordering

  /** `cmp` behaves as a total preorder on the elements of `s`. */
  ghost predicate PreorderOn<T>(cmp: Comparator<T>, s: seq<T>) {
    && (forall i, j {:trigger cmp(s[i], s[j])} | 0 <= i < |s| && 0 <= j < |s| ::
          cmp(s[i], s[j]) == cmp(s[j], s[i]).Reverse())
    && (forall i, j, k {:trigger cmp(s[i], s[j]), cmp(s[j], s[k])}
          | 0 <= i < |s| && 0 <= j < |s| && 0 <= k < |s| ::
          cmp(s[i], s[j]) != Greater && cmp(s[j], s[k]) != Greater ==> cmp(s[i], s[k]) != Greater)
  }

  /** `cmp` is a total preorder on all values. */
  ghost predicate TotalPreorder<T(!new)>(cmp: Comparator<T>) {
    && (forall a, b :: cmp(a, b) == cmp(b, a).Reverse())
    && (forall a, b, c :: cmp(a, b) != Greater && cmp(b, c) != Greater ==> cmp(a, c) != Greater)
  }

  lemma Chain<T(!new)>(cmp: Comparator<T>, a: T, b: T, c: T)
    requires TotalPreorder(cmp)
    ensures cmp(a, b) != Greater && cmp(b, c) != Greater ==> cmp(a, c) != Greater
    ensures cmp(a, b) == Less && cmp(b, c) != Greater ==> cmp(a, c) == Less
    ensures cmp(a, b) != Greater && cmp(b, c) == Less ==> cmp(a, c) == Less
    ensures cmp(a, b) == cmp(b, a).Reverse() && cmp(a, a) == Equal
  {
    assert cmp(a, a) == cmp(a, a).Reverse();
    assert cmp(a, b) == cmp(b, a).Reverse() && cmp(b, c) == cmp(c, b).Reverse();
    assert cmp(a, c) == cmp(c, a).Reverse();
  }

  lemma PreorderEverywhere<T(!new)>(cmp: Comparator<T>, s: seq<T>)
    requires TotalPreorder(cmp)
    ensures PreorderOn(cmp, s)
  {}

  /** Position `a` of `s` must come before position `b` in a stable sort. */
  predicate Before<T>(cmp: Comparator<T>, s: seq<T>, a: nat, b: nat)
    requires a < |s| && b < |s|
  {
    cmp(s[a], s[b]) == Less || (cmp(s[a], s[b]) == Equal && a < b)
  }

  lemma BeforeIsStrictOrder<T>(cmp: Comparator<T>, s: seq<T>, a: nat, b: nat, c: nat)
    requires PreorderOn(cmp, s)
    requires a < |s| && b < |s| && c < |s|
    ensures !Before(cmp, s, a, a)
    ensures a != b ==> (Before(cmp, s, a, b) <==> !Before(cmp, s, b, a))
    ensures Before(cmp, s, a, b) && Before(cmp, s, b, c) ==> Before(cmp, s, a, c)
  {
    assert cmp(s[a], s[a]) == cmp(s[a], s[a]).Reverse();
    assert cmp(s[a], s[b]) == cmp(s[b], s[a]).Reverse();
    assert cmp(s[c], s[b]) == cmp(s[b], s[c]).Reverse();
    assert cmp(s[a], s[c]) == cmp(s[c], s[a]).Reverse();
  }

  ghost predicate InRange(order: seq<nat>, n: nat) {
    forall p | 0 <= p < |order| :: order[p] < n
  }

  ghost predicate Distinct<T>(s: seq<T>) {
    forall p, q | 0 <= p < q < |s| :: s[p] != s[q]
  }

  /** `order` lists each of the positions `0..n` once. */
  ghost predicate Permutes(order: seq<nat>, n: nat) {
    |order| == n && InRange(order, n) && Distinct(order)
  }

  /** Row `p` of the result is row `order[p]` of `s`. */
  function Permuted<T>(s: seq<T>, order: seq<nat>): (t: seq<T>)
    requires InRange(order, |s|)
    ensures |t| == |order|
    ensures forall p | 0 <= p < |t| :: t[p] == s[order[p]]
  {
    seq(|order|, p requires 0 <= p < |order| => s[order[p]])
  }

  ghost predicate OrderedBy<T>(cmp: Comparator<T>, s: seq<T>, order: seq<nat>)
    requires InRange(order, |s|)
  {
    forall p, q | 0 <= p < q < |order| :: Before(cmp, s, order[p], order[q])
  }

  /** `order` is the outcome a stable sort of `s` must choose. */
  ghost predicate IsStableOrder<T>(cmp: Comparator<T>, s: seq<T>, order: seq<nat>) {
    |order| == |s| && InRange(order, |s|) && OrderedBy(cmp, s, order)
  }

  function Upto(n: nat): (r: set<nat>)
    ensures |r| == n
    ensures forall x: nat :: x in r <==> x < n
  {
    if n == 0 then {} else Upto(n - 1) + {n - 1}
  }

  lemma {:induction false} DistinctElementCount<T>(s: seq<T>)
    requires Distinct(s)
    ensures |set x | x in s| == |s|
  {
    if s != [] {
      var front := s[..|s| - 1];
      DistinctElementCount(front);
      assert (set x | x in s) == (set x | x in front) + {s[|s| - 1]};
    } else {
      assert (set x | x in s) == {};
    }
  }

  lemma SubsetOfSameSize<T>(a: set<T>, b: set<T>)
    requires a <= b && |a| == |b|
    ensures a == b
  {
    assert b == a + (b - a);
    assert |b| == |a| + |b - a|;
    assert b - a == {};
  }

  /** Pigeonhole: a permutation misses no position. */
  lemma PermutationIsOnto(order: seq<nat>, n: nat, x: nat)
    requires Permutes(order, n)
    requires x < n
    ensures x in order
  {
    DistinctElementCount(order);
    var image := set y | y in order;
    forall y | y in image ensures y in Upto(n) {
      var p :| 0 <= p < |order| && order[p] == y;
    }
    SubsetOfSameSize(image, Upto(n));
    assert x in image;
  }

  lemma StableOrderPermutes<T>(cmp: Comparator<T>, s: seq<T>, order: seq<nat>)
    requires PreorderOn(cmp, s)
    requires IsStableOrder(cmp, s, order)
    ensures Permutes(order, |s|)
  {
    forall p, q | 0 <= p < q < |order| ensures order[p] != order[q] {
      BeforeIsStrictOrder(cmp, s, order[p], order[q], order[p]);
    }
  }

  /** Two listings of the same positions in stable order are the same listing. */
  lemma {:induction false} OrderedListingUnique<T>(cmp: Comparator<T>, s: seq<T>, a: seq<nat>, b: seq<nat>)
    requires PreorderOn(cmp, s)
    requires InRange(a, |s|) && OrderedBy(cmp, s, a)
    requires InRange(b, |s|) && OrderedBy(cmp, s, b)
    requires |a| == |b|
    requires forall x :: x in a <==> x in b
    ensures a == b
  {
    if a != [] {
      assert b[0] in a && a[0] in b;
      var i :| 0 <= i < |a| && a[i] == b[0];
      var j :| 0 <= j < |b| && b[j] == a[0];
      if i != 0 && j != 0 {
        BeforeIsStrictOrder(cmp, s, a[0], a[i], a[0]);
      }
      assert a[0] == b[0];
      forall x ensures x in a[1..] <==> x in b[1..] {
        forall p | 1 <= p < |a| ensures a[p] != a[0] { BeforeIsStrictOrder(cmp, s, a[0], a[p], a[0]); }
        forall p | 1 <= p < |b| ensures b[p] != b[0] { BeforeIsStrictOrder(cmp, s, b[0], b[p], b[0]); }
        if x in a[1..] { assert x in a; assert x in b && x != b[0]; }
        if x in b[1..] { assert x in b; assert x in a && x != a[0]; }
      }
      OrderedListingUnique(cmp, s, a[1..], b[1..]);
      assert a == [a[0]] + a[1..] && b == [b[0]] + b[1..];
    }
  }

  /** A comparator and an input determine the stable order. */
  lemma StableOrderUnique<T>(cmp: Comparator<T>, s: seq<T>, a: seq<nat>, b: seq<nat>)
    requires PreorderOn(cmp, s)
    requires IsStableOrder(cmp, s, a) && IsStableOrder(cmp, s, b)
    ensures a == b
  {
    StableOrderPermutes(cmp, s, a);
    StableOrderPermutes(cmp, s, b);
    forall x ensures x in a <==> x in b {
      if x in a { PermutationIsOnto(b, |s|, x); }
      if x in b { PermutationIsOnto(a, |s|, x); }
    }
    OrderedListingUnique(cmp, s, a, b);
  }

  /** No two neighbours, near or far, are in the wrong order. */
  ghost predicate Sorted<T>(cmp: Comparator<T>, s: seq<T>) {
    forall i, j | 0 <= i < j < |s| :: cmp(s[i], s[j]) != Greater
  }

  /** `t` is the stable sort of `s`. */
  ghost predicate StableSortOf<T>(cmp: Comparator<T>, s: seq<T>, t: seq<T>) {
    exists order :: IsStableOrder(cmp, s, order) && t == Permuted(s, order)
  }

  /** The stable sort is sorted, loses and duplicates nothing, and is the only one. */
  lemma StableSortMeaning<T>(cmp: Comparator<T>, s: seq<T>, t: seq<T>, u: seq<T>)
    requires PreorderOn(cmp, s)
    requires StableSortOf(cmp, s, t) && StableSortOf(cmp, s, u)
    ensures Sorted(cmp, t)
    ensures multiset(t) == multiset(s)
    ensures t == u
  {
    var a :| IsStableOrder(cmp, s, a) && t == Permuted(s, a);
    var b :| IsStableOrder(cmp, s, b) && u == Permuted(s, b);
    StableOrderUnique(cmp, s, a, b);
    StableOrderPermutes(cmp, s, a);
    PermutedMultiset(s, a);
    forall i, j | 0 <= i < j < |t| ensures cmp(t[i], t[j]) != Greater {
      assert Before(cmp, s, a[i], a[j]);
    }
  }

  lemma IdentityOrderWhenSorted<T>(cmp: Comparator<T>, s: seq<T>, order: seq<nat>)
    requires PreorderOn(cmp, s) && Sorted(cmp, s)
    requires IsStableOrder(cmp, s, order)
    ensures forall p | 0 <= p < |order| :: order[p] == p
  {
    var identity := seq(|s|, p => p);
    assert OrderedBy(cmp, s, identity);
    StableOrderUnique(cmp, s, order, identity);
  }

  /** A permutation keeps every row, with its multiplicity. */
  lemma {:induction false} PermutedMultiset<T>(s: seq<T>, order: seq<nat>)
    requires Permutes(order, |s|)
    ensures multiset(Permuted(s, order)) == multiset(s)
    decreases |s|
  {
    if |s| > 0 {
      var last := |s| - 1;
      PermutationIsOnto(order, |s|, last);
      var at :| 0 <= at < |order| && order[at] == last;
      var rest := order[..at] + order[at + 1..];
      WithoutLast(order, last, at);
      var front := s[..last];
      PermutedMultiset(front, rest);
      var t := Permuted(s, order);
      PermutedWithoutLast(s, order, at);
      hide Permuted, Permutes;
      TakenOut(t, at);
      assert s == front + [s[last]];
    }
  }

  lemma PermutedWithoutLast<T>(s: seq<T>, order: seq<nat>, at: nat)
    requires Permutes(order, |s|) && at < |s| && order[at] == |s| - 1
    ensures Permutes(order[..at] + order[at + 1..], |s| - 1)
    ensures Permuted(s, order)[at] == s[|s| - 1]
    ensures var t := Permuted(s, order);
            Permuted(s[..|s| - 1], order[..at] + order[at + 1..]) == t[..at] + t[at + 1..]
  {
    var last, rest := |s| - 1, order[..at] + order[at + 1..];
    WithoutLast(order, last, at);
    hide Permutes;
    forall p | 0 <= p < last ensures rest[p] == order[if p < at then p else p + 1] {}
  }

  lemma TakenOut<T>(t: seq<T>, at: nat)
    requires at < |t|
    ensures multiset(t) == multiset(t[..at] + t[at + 1..]) + multiset{t[at]}
  {
    assert t == t[..at] + [t[at]] + t[at + 1..];
  }

  lemma WithoutLast(order: seq<nat>, last: nat, at: nat)
    requires Permutes(order, last + 1)
    requires at < |order| && order[at] == last
    ensures Permutes(order[..at] + order[at + 1..], last)
  {
    var rest := order[..at] + order[at + 1..];
    forall p | 0 <= p < |rest| ensures rest[p] < last {
      assert rest[p] == order[if p < at then p else p + 1];
    }
    forall p, q | 0 <= p < q < |rest| ensures rest[p] != rest[q] {
      assert rest[p] == order[if p < at then p else p + 1];
      assert rest[q] == order[if q < at then q else q + 1];
    }
  }

  /** The standard library's `sort_by` when it returns. For a total preorder it is the
      stable sort. For any other comparator the library may panic instead, and what it
      returns is only a permutation. */
  method StdSortBy<T>(cmp: Comparator<T>, s: seq<T>) returns (order: seq<nat>)
    ensures Permutes(order, |s|)
    ensures PreorderOn(cmp, s) ==> IsStableOrder(cmp, s, order)
  {
    order := [];
    for n := 0 to |s|
      invariant |order| == n && InRange(order, n) && Distinct(order)
      invariant PreorderOn(cmp, s) ==> OrderedBy(cmp, s, order)
    {
      var k := n;
      while k > 0 && cmp(s[order[k - 1]], s[n]) == Greater
        invariant 0 <= k <= n
        invariant forall p | k <= p < n :: cmp(s[order[p]], s[n]) == Greater
      {
        k := k - 1;
      }
      ghost var was := order;
      order := order[..k] + [n] + order[k..];
      forall p, q | 0 <= p < q < |order| ensures order[p] != order[q] {
        assert p < k ==> order[p] == was[p];
        assert q < k ==> order[q] == was[q];
        assert p > k ==> order[p] == was[p - 1];
        assert q > k ==> order[q] == was[q - 1];
      }
      if PreorderOn(cmp, s) {
        InsertedInOrder(cmp, s, was, n, k);
      }
    }
  }

  lemma InsertedInOrder<T>(cmp: Comparator<T>, s: seq<T>, was: seq<nat>, n: nat, k: nat)
    requires PreorderOn(cmp, s)
    requires |was| == n < |s| && InRange(was, n) && OrderedBy(cmp, s, was)
    requires k <= n
    requires forall p | k <= p < n :: cmp(s[was[p]], s[n]) == Greater
    requires k > 0 ==> cmp(s[was[k - 1]], s[n]) != Greater
    ensures OrderedBy(cmp, s, was[..k] + [n] + was[k..])
  {
    var order := was[..k] + [n] + was[k..];
    assert InRange(order, |s|);
    forall p | 0 <= p < k ensures Before(cmp, s, was[p], n) {
      if p < k - 1 { assert Before(cmp, s, was[p], was[k - 1]); }
      assert cmp(s[was[p]], s[n]) != Greater;
    }
    forall p | k <= p < n ensures Before(cmp, s, n, was[p]) {
      assert cmp(s[was[p]], s[n]) == cmp(s[n], s[was[p]]).Reverse();
    }
    forall p, q | 0 <= p < q < |order| ensures Before(cmp, s, order[p], order[q]) {
      assert p < k ==> order[p] == was[p];
      assert q < k ==> order[q] == was[q];
      assert p > k ==> order[p] == was[p - 1];
      assert q > k ==> order[q] == was[q - 1];
    }
  }
}
