/** The chunked, sorted duplicate index used while appending rows. */
module AppendIndex {
  import opened Orders
  import opened Paths
  import opened Wrappers

  const CHUNK_CAPACITY: nat := 128

  type Token = nat

  type Chunks = seq<seq<Text>>

  function Flatten(chunks: Chunks): seq<Text> {
    if chunks == [] then [] else chunks[0] + Flatten(chunks[1..])
  }

  /** Chunks are nonempty, bounded, and at least half full except for the last. */
  ghost predicate Shaped(chunks: Chunks) {
    forall c | 0 <= c < |chunks| ::
      0 < |chunks[c]| <= CHUNK_CAPACITY && (c < |chunks| - 1 ==> |chunks[c]| >= CHUNK_CAPACITY / 2)
  }

  lemma {:induction false} FlattenConcat(a: Chunks, b: Chunks)
    ensures Flatten(a + b) == Flatten(a) + Flatten(b)
  {
    if a == [] {
      assert a + b == b;
    } else {
      assert (a + b)[1..] == a[1..] + b;
      FlattenConcat(a[1..], b);
    }
  }

  lemma FlattenAround(chunks: Chunks, c: nat)
    requires c < |chunks|
    ensures Flatten(chunks) == Flatten(chunks[..c]) + chunks[c] + Flatten(chunks[c + 1..])
  {
    assert chunks == chunks[..c] + chunks[c..];
    FlattenConcat(chunks[..c], chunks[c..]);
    assert chunks[c..][1..] == chunks[c + 1..];
  }

  lemma {:induction false} FlattenMember(chunks: Chunks, x: Text) returns (c: nat, i: nat)
    requires x in Flatten(chunks)
    ensures c < |chunks| && i < |chunks[c]| && chunks[c][i] == x
  {
    if x in chunks[0] {
      i :| 0 <= i < |chunks[0]| && chunks[0][i] == x;
      c := 0;
    } else {
      c, i := FlattenMember(chunks[1..], x);
      c := c + 1;
    }
  }

  function Offset(chunks: Chunks, c: nat): nat
    requires c <= |chunks|
  {
    |Flatten(chunks[..c])|
  }

  lemma FlatEntry(chunks: Chunks, c: nat, i: nat)
    requires c < |chunks| && i < |chunks[c]|
    ensures Offset(chunks, c) + i < |Flatten(chunks)|
    ensures Flatten(chunks)[Offset(chunks, c) + i] == chunks[c][i]
  {
    FlattenAround(chunks, c);
  }

  lemma OffsetGrows(chunks: Chunks, c: nat, d: nat)
    requires c < d <= |chunks|
    ensures Offset(chunks, c) + |chunks[c]| <= Offset(chunks, d)
  {
    var front := chunks[..d];
    FlattenAround(front, c);
    assert front[..c] == chunks[..c];
  }

  /** A sorted index is sorted between the chunks and inside each. */
  lemma ChunkOrder(cmp: Comparator<Text>, chunks: Chunks, c: nat, i: nat, d: nat, j: nat)
    requires Sorted(cmp, Flatten(chunks)) && TotalPreorder(cmp)
    requires c <= d < |chunks| && i < |chunks[c]| && j < |chunks[d]| && (c == d ==> i <= j)
    ensures cmp(chunks[c][i], chunks[d][j]) != Greater
  {
    hide TotalPreorder, Offset, Flatten;
    Chain(cmp, chunks[c][i], chunks[c][i], chunks[c][i]);
    FlatEntry(chunks, c, i);
    FlatEntry(chunks, d, j);
    if c < d { OffsetGrows(chunks, c, d); }
  }

  /** With `n` sources there are at most `ceil(n / 64)` chunks. */
  lemma {:induction false} ChunkCount(chunks: Chunks)
    requires Shaped(chunks)
    ensures chunks != [] ==> CHUNK_CAPACITY / 2 * (|chunks| - 1) < |Flatten(chunks)|
  {
    if |chunks| > 1 {
      var rest := chunks[1..];
      assert forall c | 0 <= c < |rest| :: rest[c] == chunks[c + 1];
      ChunkCount(rest);
    }
  }

  /** The first chunk whose last entry is not below `source`. */
  function PartitionPoint(cmp: Comparator<Text>, chunks: Chunks, source: Text): (c: nat)
    requires forall k | 0 <= k < |chunks| :: chunks[k] != []
    ensures c <= |chunks|
    ensures c < |chunks| ==> cmp(chunks[c][|chunks[c]| - 1], source) != Less
    ensures c > 0 ==> cmp(chunks[c - 1][|chunks[c - 1]| - 1], source) == Less
  {
    if chunks == [] || cmp(chunks[0][|chunks[0]| - 1], source) != Less then 0
    else 1 + PartitionPoint(cmp, chunks[1..], source)
  }

  /** The standard library's binary search: some equal entry, or the place for one. */
  method BinarySearchBy(cmp: Comparator<Text>, chunk: seq<Text>, source: Text) returns (found: bool, position: nat)
    requires Sorted(cmp, chunk) && TotalPreorder(cmp)
    ensures position <= |chunk|
    ensures found ==> position < |chunk| && cmp(chunk[position], source) == Equal
    ensures !found ==> forall i | 0 <= i < |chunk| :: cmp(chunk[i], source) == if i < position then Less else Greater
  {
    hide TotalPreorder;
    var low, high := 0, |chunk|;
    while low < high
      invariant 0 <= low <= high <= |chunk|
      invariant forall i | 0 <= i < low :: cmp(chunk[i], source) == Less
      invariant forall i | high <= i < |chunk| :: cmp(chunk[i], source) == Greater
    {
      var middle := (low + high) / 2;
      var order := cmp(chunk[middle], source);
      if order == Equal {
        return true, middle;
      }
      if order == Less {
        forall i | 0 <= i <= middle ensures cmp(chunk[i], source) == Less {
          Chain(cmp, chunk[i], chunk[middle], source);
        }
        low := middle + 1;
      } else {
        forall i | middle <= i < |chunk| ensures cmp(chunk[i], source) == Greater {
          Chain(cmp, source, chunk[middle], chunk[i]);
          Chain(cmp, chunk[middle], source, source);
          Chain(cmp, chunk[i], source, source);
        }
        high := middle;
      }
    }
    return false, low;
  }

  /** Everything before the place `(c, position)` is at most `source`, everything
      from it on is at least `source`. A place after all chunks is at the end. */
  ghost predicate IsPlaceFor(cmp: Comparator<Text>, chunks: Chunks, source: Text, c: nat, position: nat) {
    && c <= |chunks| && position <= (if c < |chunks| then |chunks[c]| else 0)
    && (forall x | x in BeforePlace(chunks, c, position) :: cmp(x, source) != Greater)
    && (forall x | x in AfterPlace(chunks, c, position) :: cmp(source, x) != Greater)
  }

  ghost function BeforePlace(chunks: Chunks, c: nat, position: nat): seq<Text>
    requires c <= |chunks| && position <= (if c < |chunks| then |chunks[c]| else 0)
  {
    Flatten(chunks[..c]) + if c < |chunks| then chunks[c][..position] else []
  }

  ghost function AfterPlace(chunks: Chunks, c: nat, position: nat): seq<Text>
    requires c <= |chunks| && position <= (if c < |chunks| then |chunks[c]| else 0)
  {
    if c < |chunks| then chunks[c][position..] + Flatten(chunks[c + 1..]) else []
  }

  /** Entries of earlier chunks are below the source, entries after the chunk are not. */
  lemma AroundPartition(cmp: Comparator<Text>, chunks: Chunks, source: Text)
    requires TotalPreorder(cmp) && Sorted(cmp, Flatten(chunks))
    requires forall k | 0 <= k < |chunks| :: chunks[k] != []
    ensures var c := PartitionPoint(cmp, chunks, source);
            && (forall x | x in Flatten(chunks[..c]) :: cmp(x, source) == Less)
            && (c < |chunks| ==> forall x | x in Flatten(chunks[c + 1..]) ::
                  cmp(source, x) != Greater && cmp(chunks[c][|chunks[c]| - 1], x) != Greater)
  {
    hide TotalPreorder;
    var c := PartitionPoint(cmp, chunks, source);
    forall x | x in Flatten(chunks[..c]) ensures cmp(x, source) == Less {
      var d, i := FlattenMember(chunks[..c], x);
      var last := chunks[c - 1][|chunks[c - 1]| - 1];
      ChunkOrder(cmp, chunks, d, i, c - 1, |chunks[c - 1]| - 1);
      Chain(cmp, x, last, source);
    }
    if c < |chunks| {
      var last := chunks[c][|chunks[c]| - 1];
      forall x | x in Flatten(chunks[c + 1..])
        ensures cmp(source, x) != Greater && cmp(last, x) != Greater
      {
        var d, i := FlattenMember(chunks[c + 1..], x);
        ChunkOrder(cmp, chunks, c, |chunks[c]| - 1, c + 1 + d, i);
        Chain(cmp, last, source, x);
        Chain(cmp, source, last, x);
      }
    }
  }

  lemma ChunkSorted(cmp: Comparator<Text>, chunks: Chunks, c: nat)
    requires TotalPreorder(cmp) && Sorted(cmp, Flatten(chunks)) && c < |chunks|
    ensures Sorted(cmp, chunks[c])
  {
    forall i, j | 0 <= i < j < |chunks[c]| ensures cmp(chunks[c][i], chunks[c][j]) != Greater {
      ChunkOrder(cmp, chunks, c, i, c, j);
    }
  }

  /** The index answers for the whole list, even when equal keys straddle chunks. */
  method SourceChunksContain(cmp: Comparator<Text>, chunks: Chunks, source: Text) returns (r: bool)
    requires TotalPreorder(cmp) && Sorted(cmp, Flatten(chunks)) && Shaped(chunks)
    ensures r <==> exists x :: x in Flatten(chunks) && cmp(x, source) == Equal
  {
    hide TotalPreorder;
    var c := PartitionPoint(cmp, chunks, source);
    AroundPartition(cmp, chunks, source);
    if c == |chunks| {
      assert chunks[..c] == chunks;
      return false;
    }
    ChunkSorted(cmp, chunks, c);
    FlattenAround(chunks, c);
    var position;
    r, position := BinarySearchBy(cmp, chunks[c], source);
    if r {
      assert chunks[c][position] in Flatten(chunks);
    } else {
      forall x | x in Flatten(chunks[c + 1..]) ensures cmp(x, source) != Equal {
        Chain(cmp, source, chunks[c][|chunks[c]| - 1], x);
        Chain(cmp, x, source, source);
        Chain(cmp, source, chunks[c][|chunks[c]| - 1], source);
        Chain(cmp, chunks[c][|chunks[c]| - 1], source, source);
      }
    }
  }

  lemma PlaceSplits(chunks: Chunks, c: nat, position: nat)
    requires c <= |chunks| && position <= (if c < |chunks| then |chunks[c]| else 0)
    ensures Flatten(chunks) == BeforePlace(chunks, c, position) + AfterPlace(chunks, c, position)
  {
    if c < |chunks| {
      FlattenAround(chunks, c);
    } else {
      assert chunks[..c] == chunks;
    }
  }

  lemma SortedInsert(cmp: Comparator<Text>, before: seq<Text>, after: seq<Text>, source: Text)
    requires Sorted(cmp, before + after)
    requires forall x | x in before :: cmp(x, source) != Greater
    requires forall x | x in after :: cmp(source, x) != Greater
    ensures Sorted(cmp, before + [source] + after)
  {
    var flat, was, at := before + [source] + after, before + after, |before|;
    forall i, j | 0 <= i < j < |flat| ensures cmp(flat[i], flat[j]) != Greater {
      assert i != at ==> flat[i] == was[if i < at then i else i - 1];
      assert j != at ==> flat[j] == was[if j < at then j else j - 1];
      assert i < at ==> flat[i] == before[i];
      assert j > at ==> flat[j] == after[j - at - 1];
    }
  }

  /** `now` is a sound index that gained exactly `source`. */
  ghost predicate Gained(cmp: Comparator<Text>, chunks: Chunks, now: Chunks, source: Text) {
    && Sorted(cmp, Flatten(now)) && Shaped(now)
    && multiset(Flatten(now)) == multiset(Flatten(chunks)) + multiset{source}
  }

  /** Putting the source at its place keeps the whole index sorted. */
  lemma InsertedAtPlace(cmp: Comparator<Text>, chunks: Chunks, source: Text, c: nat, position: nat, now: Chunks)
    requires Sorted(cmp, Flatten(chunks)) && IsPlaceFor(cmp, chunks, source, c, position)
    requires Shaped(now)
    requires Flatten(now) == BeforePlace(chunks, c, position) + [source] + AfterPlace(chunks, c, position)
    ensures Gained(cmp, chunks, now, source)
  {
    PlaceSplits(chunks, c, position);
    SortedInsert(cmp, BeforePlace(chunks, c, position), AfterPlace(chunks, c, position), source);
  }

  lemma OpenedChunk(cmp: Comparator<Text>, chunks: Chunks, source: Text, c: nat, position: nat)
    requires Sorted(cmp, Flatten(chunks)) && Shaped(chunks) && IsPlaceFor(cmp, chunks, source, c, position)
    requires c == |chunks| && (c == 0 || |chunks[c - 1]| == CHUNK_CAPACITY)
    ensures Gained(cmp, chunks, chunks + [[source]], source)
  {
    AppendedChunk(chunks, [source]);
    assert chunks[..c] == chunks;
    InsertedAtPlace(cmp, chunks, source, c, position, chunks + [[source]]);
  }

  lemma WidenedChunk(cmp: Comparator<Text>, chunks: Chunks, source: Text, c: nat, position: nat)
    requires Sorted(cmp, Flatten(chunks)) && IsPlaceFor(cmp, chunks, source, c, position)
    requires c < |chunks| && Shaped(chunks[c := Widened(chunks[c], position, source)])
    ensures Gained(cmp, chunks, chunks[c := Widened(chunks[c], position, source)], source)
  {
    hide Sorted, IsPlaceFor, Shaped, Gained, Flatten;
    PlaceBounds(cmp, chunks, source, c, position);
    WidenedAtPlace(chunks, source, c, position);
    InsertedAtPlace(cmp, chunks, source, c, position, chunks[c := Widened(chunks[c], position, source)]);
  }

  /** Splitting a full chunk changes no entry, and the source's place moves along. */
  lemma SplitChunk(cmp: Comparator<Text>, chunks: Chunks, source: Text, c: nat, position: nat, d: nat, p: nat)
    requires IsPlaceFor(cmp, chunks, source, c, position)
    requires c < |chunks| && |chunks[c]| == CHUNK_CAPACITY
    requires (d, p) == if position < CHUNK_CAPACITY / 2 then (c, position) else (c + 1, position - CHUNK_CAPACITY / 2)
    ensures Flatten(Split(chunks, c, CHUNK_CAPACITY / 2)) == Flatten(chunks)
    ensures IsPlaceFor(cmp, Split(chunks, c, CHUNK_CAPACITY / 2), source, d, p)
  {
    hide Split, BeforePlace, AfterPlace, Flatten;
    SplitKeepsPlace(chunks, c, CHUNK_CAPACITY / 2, position);
    PlaceSplits(chunks, c, position);
    PlaceSplits(Split(chunks, c, CHUNK_CAPACITY / 2), d, p);
  }

  lemma SplitThenWiden(cmp: Comparator<Text>, chunks: Chunks, source: Text, c: nat, position: nat, d: nat, p: nat)
    requires Sorted(cmp, Flatten(chunks)) && Shaped(chunks) && IsPlaceFor(cmp, chunks, source, c, position)
    requires c < |chunks| && |chunks[c]| == CHUNK_CAPACITY
    requires (d, p) == if position < CHUNK_CAPACITY / 2 then (c, position) else (c + 1, position - CHUNK_CAPACITY / 2)
    ensures p <= CHUNK_CAPACITY / 2
    ensures var halves := Split(chunks, c, CHUNK_CAPACITY / 2);
            Gained(cmp, chunks, halves[d := Widened(halves[d], p, source)], source)
  {
    hide Split, BeforePlace, AfterPlace, Flatten, Sorted;
    PlaceBounds(cmp, chunks, source, c, position);
    SplitChunk(cmp, chunks, source, c, position, d, p);
    hide IsPlaceFor;
    var halves := Split(chunks, c, CHUNK_CAPACITY / 2);
    PlaceBounds(cmp, halves, source, d, p);
    var now := halves[d := Widened(halves[d], p, source)];
    SplitShape(chunks, c, d, now);
    WidenedChunk(cmp, halves, source, d, p);
    GainedSame(cmp, halves, chunks, now, source);
  }

  lemma SplitShape(chunks: Chunks, c: nat, d: nat, now: Chunks)
    requires Shaped(chunks) && c < |chunks| && |chunks[c]| == CHUNK_CAPACITY
    requires d == c || d == c + 1
    requires var halves := Split(chunks, c, CHUNK_CAPACITY / 2);
             |now| == |halves| && |now[d]| == |halves[d]| + 1 && forall k | 0 <= k < |now| && k != d :: now[k] == halves[k]
    ensures Shaped(now)
  {
    var halves := Split(chunks, c, CHUNK_CAPACITY / 2);
    forall k | 0 <= k < |now|
      ensures 0 < |now[k]| <= CHUNK_CAPACITY && (k < |now| - 1 ==> |now[k]| >= CHUNK_CAPACITY / 2)
    {
      assert k < c ==> halves[k] == chunks[k];
      assert k > c + 1 ==> halves[k] == chunks[k - 1];
    }
  }

  function Widened(chunk: seq<Text>, position: nat, source: Text): (r: seq<Text>)
    requires position <= |chunk|
    ensures |r| == |chunk| + 1
  {
    chunk[..position] + [source] + chunk[position..]
  }

  lemma WidenedAtPlace(chunks: Chunks, source: Text, c: nat, position: nat)
    requires c < |chunks| && position <= |chunks[c]|
    ensures Flatten(chunks[c := Widened(chunks[c], position, source)])
         == BeforePlace(chunks, c, position) + [source] + AfterPlace(chunks, c, position)
  {
    hide Flatten;
    var now := chunks[c := Widened(chunks[c], position, source)];
    FlattenAround(now, c);
    assert now[..c] == chunks[..c] && now[c + 1..] == chunks[c + 1..];
  }

  function Split(chunks: Chunks, c: nat, at: nat): (r: Chunks)
    requires c < |chunks| && at <= |chunks[c]|
    ensures |r| == |chunks| + 1
    ensures r[c] == chunks[c][..at] && r[c + 1] == chunks[c][at..]
  {
    chunks[..c] + [chunks[c][..at], chunks[c][at..]] + chunks[c + 1..]
  }

  lemma AppendedChunk(chunks: Chunks, chunk: seq<Text>)
    ensures Flatten(chunks + [chunk]) == Flatten(chunks) + chunk
  {
    FlattenConcat(chunks, [chunk]);
    assert Flatten([chunk]) == chunk by { assert [chunk][1..] == []; }
  }

  lemma FlattenFirst(chunk: seq<Text>, rest: Chunks)
    ensures Flatten([chunk] + rest) == chunk + Flatten(rest)
  {
    assert ([chunk] + rest)[1..] == rest;
  }

  lemma SplitKeepsLeftPlace(chunks: Chunks, c: nat, at: nat, position: nat)
    requires c < |chunks| && position < at <= |chunks[c]|
    ensures var now := Split(chunks, c, at);
            && BeforePlace(now, c, position) == BeforePlace(chunks, c, position)
            && AfterPlace(now, c, position) == AfterPlace(chunks, c, position)
  {
    hide Flatten;
    var now := Split(chunks, c, at);
    var left, right, rest := chunks[c][..at], chunks[c][at..], chunks[c + 1..];
    assert now[..c] == chunks[..c] && now[c + 1..] == [right] + rest;
    FlattenFirst(right, rest);
    assert left[position..] + right == chunks[c][position..];
    assert left[position..] + (right + Flatten(rest)) == (left[position..] + right) + Flatten(rest);
  }

  lemma SplitKeepsRightPlace(chunks: Chunks, c: nat, at: nat, position: nat)
    requires c < |chunks| && at <= position <= |chunks[c]|
    ensures var now := Split(chunks, c, at);
            && BeforePlace(now, c + 1, position - at) == BeforePlace(chunks, c, position)
            && AfterPlace(now, c + 1, position - at) == AfterPlace(chunks, c, position)
  {
    hide Flatten;
    var now := Split(chunks, c, at);
    var front, left, right := chunks[..c], chunks[c][..at], chunks[c][at..];
    assert now[..c + 1] == front + [left] && now[c + 2..] == chunks[c + 1..];
    AppendedChunk(front, left);
    assert left + right[..position - at] == chunks[c][..position];
    assert (Flatten(front) + left) + right[..position - at] == Flatten(front) + (left + right[..position - at]);
    assert right[position - at..] == chunks[c][position..];
  }

  /** Splitting a chunk moves places, not entries. */
  lemma SplitKeepsPlace(chunks: Chunks, c: nat, at: nat, position: nat)
    requires c < |chunks| && at <= |chunks[c]| && position <= |chunks[c]|
    ensures var now := Split(chunks, c, at);
            var (d, p) := if position < at then (c, position) else (c + 1, position - at);
            && d < |now| && p <= |now[d]|
            && BeforePlace(now, d, p) == BeforePlace(chunks, c, position)
            && AfterPlace(now, d, p) == AfterPlace(chunks, c, position)
  {
    hide BeforePlace, AfterPlace;
    if position < at {
      SplitKeepsLeftPlace(chunks, c, at, position);
    } else {
      SplitKeepsRightPlace(chunks, c, at, position);
    }
  }

  // ----- Which entries an insertion relocates -----

  predicate PlaceInRange(chunks: Chunks, c: nat, position: nat) {
    c <= |chunks| && (c < |chunks| ==> position <= |chunks[c]|)
  }

  /** The chunks after the source was put at its place. */
  function Inserted(chunks: Chunks, c: nat, position: nat, source: Text): Chunks
    requires PlaceInRange(chunks, c, position)
  {
    if c == |chunks| then chunks + [[source]]
    else if |chunks[c]| < CHUNK_CAPACITY then chunks[c := Widened(chunks[c], position, source)]
    else
      var at := CHUNK_CAPACITY / 2;
      var split := Split(chunks, c, at);
      if position < at then split[c := Widened(split[c], position, source)]
      else split[c + 1 := Widened(split[c + 1], position - at, source)]
  }

  /** How many chunks on, and at which offset, entry `i` of a chunk of `length` entries is
      found after that. */
  function NewPlace(length: nat, position: nat, i: nat): (nat, nat) {
    var at := CHUNK_CAPACITY / 2;
    if length < CHUNK_CAPACITY then (0, if i < position then i else i + 1)
    else if i < at then (0, if i < position then i else i + 1)
    else (1, if i < position || position < at then i - at else i - at + 1)
  }

  lemma EntryIsAtNewPlace(chunks: Chunks, c: nat, position: nat, source: Text, i: nat)
    requires c < |chunks| && position <= |chunks[c]| && i < |chunks[c]|
    ensures var now := Inserted(chunks, c, position, source);
            var (on, offset) := NewPlace(|chunks[c]|, position, i);
            c + on < |now| && offset < |now[c + on]| && now[c + on][offset] == chunks[c][i]
  {
    hide Widened, Split;
    var at := CHUNK_CAPACITY / 2;
    if |chunks[c]| < CHUNK_CAPACITY {
      WidenedEntry(chunks[c], position, source, i);
    } else if i < at {
      WidenedEntry(chunks[c][..at], if position < at then position else at, source, i);
    } else {
      WidenedEntry(chunks[c][at..], if position < at then |chunks[c]| - at else position - at, source, i - at);
    }
  }

  lemma WidenedEntry(chunk: seq<Text>, position: nat, source: Text, i: nat)
    requires position <= |chunk| && i < |chunk|
    ensures Widened(chunk, position, source)[if i < position then i else i + 1] == chunk[i]
  {
  }

  /** The entries of the chunk that are found elsewhere afterwards. */
  function Displaced(length: nat, position: nat): set<nat> {
    set i | 0 <= i < length && NewPlace(length, position, i) != (0, i)
  }

  /** The entries that leave a full chunk, and those that make room in the target. */
  function Relocations(chunks: Chunks, c: nat, position: nat): nat
    requires PlaceInRange(chunks, c, position)
  {
    if c == |chunks| then 0
    else
      var length, at := |chunks[c]|, CHUNK_CAPACITY / 2;
      if length < CHUNK_CAPACITY then length - position
      else length - at + (if position < at then at else length) - position
  }

  function Range(lo: nat, hi: nat): (r: set<nat>)
    requires lo <= hi
    ensures |r| == hi - lo && forall i: nat :: i in r <==> lo <= i < hi
  {
    if lo == hi then {} else Range(lo, hi - 1) + {hi - 1}
  }

  /** Every displaced entry is counted; only the second half of a split chunk can be
      counted twice, once for leaving and once for making room. */
  lemma RelocationsCountDisplaced(chunks: Chunks, c: nat, position: nat)
    requires c < |chunks| && position <= |chunks[c]| <= CHUNK_CAPACITY
    ensures |Displaced(|chunks[c]|, position)| <= Relocations(chunks, c, position) <= CHUNK_CAPACITY
    ensures |chunks[c]| < CHUNK_CAPACITY || position < CHUNK_CAPACITY / 2 ==>
              |Displaced(|chunks[c]|, position)| == Relocations(chunks, c, position)
  {
    var length, at := |chunks[c]|, CHUNK_CAPACITY / 2;
    var from := if length < CHUNK_CAPACITY || position < at then position else at;
    assert Displaced(length, position) == Range(from, length);
  }

  /** The insertion put the source at its place and moved the entries it counts. */
  ghost predicate InsertedAt(cmp: Comparator<Text>, chunks: Chunks, now: Chunks, source: Text, c: nat, position: nat,
                             relocations: nat) {
    && IsPlaceFor(cmp, chunks, source, c, position) && PlaceInRange(chunks, c, position)
    && now == Inserted(chunks, c, position, source) && relocations == Relocations(chunks, c, position) <= CHUNK_CAPACITY
  }

  lemma RelocationsAreBounded(chunks: Chunks, c: nat, position: nat)
    requires Shaped(chunks) && PlaceInRange(chunks, c, position)
    ensures Relocations(chunks, c, position) <= CHUNK_CAPACITY
  {
    if c < |chunks| {
      RelocationsCountDisplaced(chunks, c, position);
    }
  }

  lemma InsertedIsGained(cmp: Comparator<Text>, chunks: Chunks, source: Text, c: nat, position: nat)
    requires Sorted(cmp, Flatten(chunks)) && Shaped(chunks) && IsPlaceFor(cmp, chunks, source, c, position)
    requires c == |chunks| ==> c == 0 || |chunks[c - 1]| == CHUNK_CAPACITY
    ensures PlaceInRange(chunks, c, position) && Gained(cmp, chunks, Inserted(chunks, c, position, source), source)
  {
    hide IsPlaceFor, Gained, Sorted, Flatten, Split;
    PlaceBounds(cmp, chunks, source, c, position);
    if c == |chunks| {
      OpenedChunk(cmp, chunks, source, c, position);
    } else if |chunks[c]| < CHUNK_CAPACITY {
      WidenedChunk(cmp, chunks, source, c, position);
    } else {
      var at := CHUNK_CAPACITY / 2;
      SplitThenWiden(cmp, chunks, source, c, position, if position < at then c else c + 1,
                     if position < at then position else position - at);
    }
  }

  /** Packs sorted sources into full chunks, keeping their order. */
  method TryChunkSortedSources(sources: seq<Text>, granted: bool) returns (r: Option<Chunks>)
    ensures r.Some? <==> granted
    ensures r.Some? ==> Flatten(r.value) == sources && Shaped(r.value)
  {
    if !granted {
      return None;
    }
    var chunks: Chunks := [];
    var next := 0;
    while next < |sources|
      invariant next <= |sources| && Flatten(chunks) == sources[..next]
      invariant forall c | 0 <= c < |chunks| :: 0 < |chunks[c]| <= CHUNK_CAPACITY
      invariant forall c | 0 <= c < |chunks| :: c < |chunks| - 1 || next < |sources| ==> |chunks[c]| == CHUNK_CAPACITY
    {
      var end := if next + CHUNK_CAPACITY <= |sources| then next + CHUNK_CAPACITY else |sources|;
      AppendedChunk(chunks, sources[next..end]);
      chunks := chunks + [sources[next..end]];
      assert sources[..next] + sources[next..end] == sources[..end];
      next := end;
    }
    assert sources[..next] == sources;
    return Some(chunks);
  }

  datatype IndexState = IndexState(model: Option<Token>, revision: nat, chunks: Chunks)

  const Cleared := IndexState(None, 0, [])

  lemma GainedSame(cmp: Comparator<Text>, a: Chunks, b: Chunks, now: Chunks, source: Text)
    requires Flatten(a) == Flatten(b) && Gained(cmp, a, now, source)
    ensures Gained(cmp, b, now, source)
  {}

  lemma PlaceBounds(cmp: Comparator<Text>, chunks: Chunks, source: Text, c: nat, position: nat)
    requires IsPlaceFor(cmp, chunks, source, c, position)
    ensures c <= |chunks| && position <= (if c < |chunks| then |chunks[c]| else 0)
  {}

  lemma PlacePastEnd(cmp: Comparator<Text>, chunks: Chunks, source: Text)
    requires TotalPreorder(cmp) && Sorted(cmp, Flatten(chunks)) && Shaped(chunks)
    requires PartitionPoint(cmp, chunks, source) == |chunks|
    ensures IsPlaceFor(cmp, chunks, source, |chunks|, 0)
    ensures chunks != [] ==> IsPlaceFor(cmp, chunks, source, |chunks| - 1, |chunks[|chunks| - 1]|)
  {
    hide TotalPreorder, Flatten, Sorted;
    var c := |chunks|;
    AroundPartition(cmp, chunks, source);
    assert chunks[..c] == chunks;
    if c > 0 {
      FlattenAround(chunks, c - 1);
      NothingFlat(chunks, c);
    }
  }

  lemma NothingFlat(chunks: Chunks, c: nat)
    requires c == |chunks|
    ensures Flatten(chunks[c..]) == []
  {
  }

  lemma SearchFindsPlace(cmp: Comparator<Text>, chunks: Chunks, source: Text, c: nat, found: bool, position: nat)
    requires TotalPreorder(cmp) && Sorted(cmp, Flatten(chunks)) && Shaped(chunks)
    requires c == PartitionPoint(cmp, chunks, source) < |chunks| && position <= |chunks[c]|
    requires found ==> position < |chunks[c]| && cmp(chunks[c][position], source) == Equal
    requires !found ==> forall i | 0 <= i < |chunks[c]| :: cmp(chunks[c][i], source) == if i < position then Less else Greater
    ensures IsPlaceFor(cmp, chunks, source, c, position)
  {
    hide TotalPreorder;
    AroundPartition(cmp, chunks, source);
    ChunkSorted(cmp, chunks, c);
    var chunk := chunks[c];
    forall i | 0 <= i < |chunk|
      ensures i < position ==> cmp(chunk[i], source) != Greater
      ensures i >= position ==> cmp(source, chunk[i]) != Greater
    {
      Chain(cmp, chunk[i], source, source);
      Chain(cmp, source, chunk[i], source);
      if found {
        Chain(cmp, chunk[position], source, source);
        Chain(cmp, chunk[i], chunk[position], source);
        Chain(cmp, source, chunk[position], chunk[i]);
      }
    }
  }

  class LegacyAppendIndex {
    const compareText: Comparator<Text>
    var modelIdentity: Option<Token>
    var sourceRevision: nat
    var chunks: Chunks

    constructor (compareText: Comparator<Text>)
      requires TotalPreorder(compareText)
      ensures this.compareText == compareText && State() == Cleared && WellFormed()
    {
      this.compareText := compareText;
      modelIdentity, sourceRevision, chunks := None, 0, [];
    }

    ghost predicate WellFormed()
      reads this
    {
      TotalPreorder(compareText) && Sorted(compareText, Flatten(chunks)) && Shaped(chunks)
    }

    function State(): IndexState
      reads this
    {
      IndexState(modelIdentity, sourceRevision, chunks)
    }

    method BindTo(identity: Token, revision: nat)
      modifies this`modelIdentity, this`sourceRevision
      ensures State() == old(State()).(model := Some(identity), revision := revision)
    {
      modelIdentity, sourceRevision := Some(identity), revision;
    }

    method ClearBinding()
      modifies this
      ensures State() == Cleared && (TotalPreorder(compareText) ==> WellFormed())
    {
      modelIdentity, sourceRevision, chunks := None, 0, [];
    }

    method Contains(source: Text) returns (r: bool)
      requires WellFormed()
      ensures r <==> exists x :: x in Flatten(chunks) && compareText(x, source) == Equal
    {
      r := SourceChunksContain(compareText, chunks, source);
    }

    /** Where the source belongs; one past the last chunk asks for a new chunk. */
    method InsertionLocation(source: Text) returns (c: nat, position: nat)
      requires WellFormed()
      ensures IsPlaceFor(compareText, chunks, source, c, position)
      ensures c == |chunks| ==> c == 0 || |chunks[c - 1]| == CHUNK_CAPACITY
    {
      hide TotalPreorder, IsPlaceFor, Sorted, Flatten, PartitionPoint;
      c := PartitionPoint(compareText, chunks, source);
      if c == |chunks| {
        PlacePastEnd(compareText, chunks, source);
        if c == 0 {
          return 0, 0;
        }
        if |chunks[c - 1]| < CHUNK_CAPACITY {
          return c - 1, |chunks[c - 1]|;
        }
        return c, 0;
      }
      ChunkSorted(compareText, chunks, c);
      var found;
      found, position := BinarySearchBy(compareText, chunks[c], source);
      SearchFindsPlace(compareText, chunks, source, c, found, position);
    }

    /** Splits a full chunk in two halves and puts the source into the right one. */
    method SplitAndInsert(c: nat, position: nat, source: Text) returns (ghost relocations: nat)
      requires c < |chunks| && position <= |chunks[c]| == CHUNK_CAPACITY
      modifies this`chunks
      ensures chunks == Inserted(old(chunks), c, position, source)
      ensures relocations == Relocations(old(chunks), c, position)
    {
      hide Split, Widened;
      var splitAt := CHUNK_CAPACITY / 2;
      relocations := |chunks[c]| - splitAt;
      chunks := Split(chunks, c, splitAt);
      var target, targetPosition := c, position;
      if position >= splitAt {
        target, targetPosition := c + 1, position - splitAt;
      }
      relocations := relocations + |chunks[target]| - targetPosition;
      chunks := chunks[target := Widened(chunks[target], targetPosition, source)];
    }

    /** Adds one source. Only opening a chunk can fail, and then nothing changes. */
    method TryInsertSource(source: Text, granted: bool) returns (ok: bool, ghost relocations: nat)
      requires WellFormed()
      modifies this`chunks
      ensures granted ==> ok
      ensures ok ==> Gained(compareText, old(chunks), chunks, source)
      ensures !ok ==> chunks == old(chunks)
      ensures ok ==> exists c, position :: InsertedAt(compareText, old(chunks), chunks, source, c, position, relocations)
    {
      var c, position := InsertionLocation(source);
      InsertedIsGained(compareText, chunks, source, c, position);
      RelocationsAreBounded(chunks, c, position);
      hide TotalPreorder, IsPlaceFor, Gained, Sorted, Flatten, Split, Widened, Shaped;
      ghost var was := chunks;
      relocations := 0;
      if c == |chunks| {
        if !granted {
          return false, 0;
        }
        chunks := chunks + [[source]];
      } else if |chunks[c]| < CHUNK_CAPACITY {
        relocations := |chunks[c]| - position;
        chunks := chunks[c := Widened(chunks[c], position, source)];
      } else {
        if !granted {
          return false, 0;
        }
        relocations := SplitAndInsert(c, position, source);
      }
      assert InsertedAt(compareText, was, chunks, source, c, position, relocations);
      ok := true;
    }
  }
}
