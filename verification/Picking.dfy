/** What is left of a sequence at chosen positions. */
module Picking {
  ghost predicate Ascending(positions: seq<nat>) {
    forall p, q | 0 <= p < q < |positions| :: positions[p] < positions[q]
  }

  /** `r` holds the elements of `s` at the ascending `positions`. */
  ghost predicate PickedAt<T>(s: seq<T>, positions: seq<nat>, r: seq<T>) {
    && Ascending(positions)
    && |r| == |positions| && forall p | 0 <= p < |positions| :: positions[p] < |s| && r[p] == s[positions[p]]
  }

  /** One more element, left out or taken. */
  lemma PickNext<T>(s: seq<T>, x: T, positions: seq<nat>, r: seq<T>)
    requires PickedAt(s, positions, r)
    ensures PickedAt(s + [x], positions, r) && PickedAt(s + [x], positions + [|s|], r + [x])
  {
  }

  lemma {:induction false} SameAscending(a: seq<nat>, b: seq<nat>)
    requires Ascending(a) && Ascending(b) && forall x :: x in a <==> x in b
    ensures a == b
  {
    if |b| > 0 { assert b[0] in b; }
    if |a| > 0 {
      assert a[0] in b;
      assert a[0] == b[0];
      forall x ensures x in a[1..] <==> x in b[1..] {
        if x in a[1..] { assert x in b && x != b[0]; }
        if x in b[1..] { assert x in a && x != a[0]; }
      }
      SameAscending(a[1..], b[1..]);
      assert a == [a[0]] + a[1..] && b == [b[0]] + b[1..];
    }
  }

  /** Which positions are picked determines the result. */
  lemma PickedOnce<T>(s: seq<T>, positions: seq<nat>, r: seq<T>, positions': seq<nat>, r': seq<T>)
    requires PickedAt(s, positions, r) && PickedAt(s, positions', r')
    requires forall k: nat :: k in positions <==> k in positions'
    ensures r == r'
  {
    SameAscending(positions, positions');
  }
}
