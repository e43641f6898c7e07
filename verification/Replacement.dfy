/** Replacing every occurrence of a text in a proposed name, in two passes. */
module Replacement {
  import opened Paths

  /** Leftmost, non-overlapping substitution. */
  function Substitute(source: Text, needle: Text, replacement: Text): Text
    requires needle != []
    decreases |source|
  {
    if source == [] then []
    else if needle <= source then replacement + Substitute(source[|needle|..], needle, replacement)
    else [source[0]] + Substitute(source[1..], needle, replacement)
  }

  predicate Occurs(source: Text, needle: Text) {
    exists i :: 0 <= i <= |source| && needle <= source[i..]
  }

  /** How often the substitution replaces. */
  ghost function Occurrences(source: Text, needle: Text): nat
    requires needle != []
    decreases |source|
  {
    if source == [] then 0
    else if needle <= source then 1 + Occurrences(source[|needle|..], needle)
    else Occurrences(source[1..], needle)
  }

  lemma {:induction false} OccurrencesMeaning(source: Text, needle: Text)
    requires needle != []
    ensures Occurrences(source, needle) > 0 <==> Occurs(source, needle)
    decreases |source|
  {
    if source == [] {
      assert forall i | 0 <= i <= |source| :: source[i..] == [];
    } else if needle <= source {
      assert source[0..] == source;
    } else {
      OccurrencesMeaning(source[1..], needle);
      if i :| 0 <= i <= |source[1..]| && needle <= source[1..][i..] {
        assert source[1..][i..] == source[i + 1..];
      }
      if i :| 0 <= i <= |source| && needle <= source[i..] {
        assert i > 0 by { assert source[0..] == source; }
        assert source[1..][i - 1..] == source[i..];
      }
    }
  }

  lemma OneMore(k: nat, units: nat)
    ensures (k + 1) * units == k * units + units
  {}

  /** The length balance of a substitution. */
  lemma {:induction false} SubstituteLength(source: Text, needle: Text, replacement: Text)
    requires needle != []
    ensures |Substitute(source, needle, replacement)| + Occurrences(source, needle) * |needle|
         == |source| + Occurrences(source, needle) * |replacement|
    decreases |source|
  {
    if source == [] {
    } else if needle <= source {
      var rest := source[|needle|..];
      SubstituteLength(rest, needle, replacement);
      OneMore(Occurrences(rest, needle), |needle|);
      OneMore(Occurrences(rest, needle), |replacement|);
    } else {
      SubstituteLength(source[1..], needle, replacement);
    }
  }

  lemma LengthChanges(source: Text, needle: Text, replacement: Text)
    requires needle != [] && |needle| != |replacement| && Occurrences(source, needle) > 0
    ensures |Substitute(source, needle, replacement)| != |source|
  {
    SubstituteLength(source, needle, replacement);
    DistinctProducts(Occurrences(source, needle), |needle|, |replacement|);
  }

  lemma DistinctProducts(k: nat, a: nat, b: nat)
    requires k > 0 && a != b
    ensures k * a != k * b
  {
    assert k * (a - b) == k * a - k * b;
    assert a > b ==> k * (a - b) > 0;
    assert a < b ==> k * (b - a) > 0;
  }

  lemma {:induction false} ContentsChange(source: Text, needle: Text, replacement: Text)
    requires needle != [] && |needle| == |replacement| && needle != replacement && Occurrences(source, needle) > 0
    ensures Substitute(source, needle, replacement) != source
    decreases |source|
  {
    var result := Substitute(source, needle, replacement);
    if needle <= source {
      assert result[..|needle|] == replacement && source[..|needle|] == needle;
    } else {
      ContentsChange(source[1..], needle, replacement);
      assert result[1..] == Substitute(source[1..], needle, replacement);
    }
  }

  lemma {:induction false} ReplacedByItself(source: Text, needle: Text)
    requires needle != []
    ensures Substitute(source, needle, needle) == source
    decreases |source|
  {
    if source == [] {
    } else if needle <= source {
      ReplacedByItself(source[|needle|..], needle);
      assert source == needle + source[|needle|..];
    } else {
      ReplacedByItself(source[1..], needle);
      assert source == [source[0]] + source[1..];
    }
  }

  /** The text is unchanged exactly when nothing occurs or nothing differs. */
  lemma UnchangedExactly(source: Text, needle: Text, replacement: Text)
    requires needle != []
    ensures Substitute(source, needle, replacement) == source <==> needle == replacement || !Occurs(source, needle)
  {
    hide Substitute, Occurrences, Occurs;
    OccurrencesMeaning(source, needle);
    if needle == replacement {
      ReplacedByItself(source, needle);
    } else if Occurrences(source, needle) == 0 {
      NothingOccurs(source, needle, replacement);
    } else if |needle| == |replacement| {
      ContentsChange(source, needle, replacement);
    } else {
      LengthChanges(source, needle, replacement);
    }
  }

  lemma {:induction false} NothingOccurs(source: Text, needle: Text, replacement: Text)
    requires needle != [] && Occurrences(source, needle) == 0
    ensures Substitute(source, needle, replacement) == source
    decreases |source|
  {
    if source != [] {
      NothingOccurs(source[1..], needle, replacement);
      assert source == [source[0]] + source[1..];
    }
  }

  lemma SubstituteStep(source: Text, index: nat, needle: Text, replacement: Text)
    requires needle != [] && index < |source|
    ensures needle <= source[index..] ==>
              Substitute(source[index..], needle, replacement) == replacement + Substitute(source[index + |needle|..], needle, replacement)
    ensures !(needle <= source[index..]) ==>
              Substitute(source[index..], needle, replacement) == [source[index]] + Substitute(source[index + 1..], needle, replacement)
  {
    if needle <= source[index..] {
      assert source[index..][|needle|..] == source[index + |needle|..];
    } else {
      assert source[index..][1..] == source[index + 1..];
    }
  }

  lemma {:induction false} ReplacedFrom(source: Text, k: nat, at: nat, needle: Text, replacement: Text)
    requires needle != [] && k <= at < |source| && needle <= source[at..]
    requires forall i | k <= i < at :: !(needle <= source[i..])
    ensures at + |needle| <= |source|
    ensures Substitute(source[k..], needle, replacement)
         == source[k..at] + replacement + Substitute(source[at + |needle|..], needle, replacement)
    decreases at - k
  {
    hide Substitute;
    SubstituteStep(source, k, needle, replacement);
    if k < at {
      ReplacedFrom(source, k + 1, at, needle, replacement);
      assert source[k..at] == [source[k]] + source[k + 1..at];
    }
  }

  /** The first occurrence is replaced, and the substitution goes on behind it. With
      `NotOccurring` this says what every substitution is. */
  lemma FirstReplaced(source: Text, at: nat, needle: Text, replacement: Text)
    requires needle != [] && at < |source| && needle <= source[at..]
    requires forall i | 0 <= i < at :: !(needle <= source[i..])
    ensures at + |needle| <= |source|
    ensures Substitute(source, needle, replacement)
         == source[..at] + replacement + Substitute(source[at + |needle|..], needle, replacement)
  {
    ReplacedFrom(source, 0, at, needle, replacement);
    assert source[0..] == source;
  }

  lemma NotOccurring(source: Text, needle: Text, replacement: Text)
    requires needle != [] && forall k | 0 <= k <= |source| :: !(needle <= source[k..])
    ensures Substitute(source, needle, replacement) == source
  {
    UnchangedExactly(source, needle, replacement);
  }

  datatype Replaced = Unchanged | Changed(value: Text) | TooLong(requestedUnits: nat)

  // ----- The length a rejection carries -----

  /** The scan's segments: a replacement for every match, a single unit otherwise. */
  function Segments(source: Text, needle: Text, replacement: Text): seq<Text>
    requires needle != []
    decreases |source|
  {
    if source == [] then []
    else if needle <= source then [replacement] + Segments(source[|needle|..], needle, replacement)
    else [[source[0]]] + Segments(source[1..], needle, replacement)
  }

  lemma SegmentStep(source: Text, index: nat, needle: Text, replacement: Text)
    requires needle != [] && index < |source|
    ensures needle <= source[index..] ==>
              && index + |needle| <= |source|
              && Segments(source[index..], needle, replacement) == [replacement] + Segments(source[index + |needle|..], needle, replacement)
              && Occurrences(source[index..], needle) > 0
    ensures !(needle <= source[index..]) ==>
              && Segments(source[index..], needle, replacement) == [[source[index]]] + Segments(source[index + 1..], needle, replacement)
              && Occurrences(source[index..], needle) == Occurrences(source[index + 1..], needle)
  {
    if needle <= source[index..] {
      assert source[index..][|needle|..] == source[index + |needle|..];
    } else {
      assert source[index..][1..] == source[index + 1..];
    }
  }

  function TotalUnits(segments: seq<Text>): nat {
    if segments == [] then 0 else |segments[0]| + TotalUnits(segments[1..])
  }

  lemma {:induction false} SegmentsMakeSubstitute(source: Text, needle: Text, replacement: Text)
    requires needle != []
    ensures TotalUnits(Segments(source, needle, replacement)) == |Substitute(source, needle, replacement)|
    decreases |source|
  {
    if source != [] {
      SegmentsMakeSubstitute(if needle <= source then source[|needle|..] else source[1..], needle, replacement);
    }
  }

  lemma {:induction false} TotalSplit(segments: seq<Text>, k: nat)
    requires k <= |segments|
    ensures TotalUnits(segments) == TotalUnits(segments[..k]) + TotalUnits(segments[k..])
  {
    if k > 0 {
      TotalSplit(segments[1..], k - 1);
      assert segments[..k][1..] == segments[1..][..k - 1];
    } else {
      assert segments[0..] == segments;
    }
  }

  /** The first `k` segments, and no fewer, pass the limit; their length is `units`. */
  ghost predicate FirstExcess(segments: seq<Text>, k: nat, units: nat) {
    && 0 < k <= |segments|
    && TotalUnits(segments[..k - 1]) <= MAX_NAME_UNITS < units == TotalUnits(segments[..k])
  }

  /** Where the scan stops is determined. */
  lemma StopIsDetermined(segments: seq<Text>, k: nat, units: nat, k': nat, units': nat)
    requires FirstExcess(segments, k, units) && FirstExcess(segments, k', units')
    ensures k == k' && units == units'
  {
    hide TotalUnits;
    if k < k' {
      TotalGrows(segments, k, k' - 1);
    } else if k' < k {
      TotalGrows(segments, k', k - 1);
    }
  }

  lemma TotalGrows(segments: seq<Text>, j: nat, k: nat)
    requires j <= k <= |segments|
    ensures TotalUnits(segments[..j]) <= TotalUnits(segments[..k])
  {
    TotalSplit(segments[..k], j);
    assert segments[..k][..j] == segments[..j];
  }

  lemma {:induction false} AllEmpty(segments: seq<Text>)
    ensures TotalUnits(segments) == 0 <==> forall i | 0 <= i < |segments| :: segments[i] == []
  {
    if segments != [] {
      AllEmpty(segments[1..]);
    }
  }

  /** The length the scan stops at is the requested one exactly when every segment after
      that is empty. */
  lemma RequestedIsExact(source: Text, needle: Text, replacement: Text, k: nat, units: nat)
    requires needle != [] && FirstExcess(Segments(source, needle, replacement), k, units)
    ensures units <= |Substitute(source, needle, replacement)|
    ensures var segments := Segments(source, needle, replacement);
            units == |Substitute(source, needle, replacement)| <==> forall i | k <= i < |segments| :: segments[i] == []
  {
    var segments := Segments(source, needle, replacement);
    SegmentsMakeSubstitute(source, needle, replacement);
    TotalSplit(segments, k);
    AllEmpty(segments[k..]);
    assert forall i | k <= i < |segments| :: segments[i] == segments[k..][i - k];
  }

  /** Three matches of one unit, each replaced by two hundred: the scan stops at 400
      units where the result has 600. */
  lemma RequestedFallsShort(unit: Unit, replacement: Text)
    requires |replacement| == 200
    ensures forall k, units ::
      FirstExcess(Segments([unit, unit, unit], [unit], replacement), k, units) <==> k == 2 && units == 400
    ensures |Substitute([unit, unit, unit], [unit], replacement)| == 600
  {
    var source, needle := [unit, unit, unit], [unit];
    SegmentStep([unit], 0, needle, replacement);
    SegmentStep([unit, unit], 0, needle, replacement);
    SegmentStep(source, 0, needle, replacement);
    assert [unit][0..] == [unit] && [unit, unit][0..] == [unit, unit] && source[0..] == source;
    assert source[1..] == [unit, unit] && [unit, unit][1..] == [unit] && [unit][1..] == [];
    assert Segments(source, needle, replacement) == [replacement, replacement, replacement];
    var segments := [replacement, replacement, replacement];
    assert segments[..1] == [replacement] && segments[..2] == [replacement, replacement];
    assert segments[1..] == [replacement, replacement] && segments[2..] == [replacement];
    assert [replacement, replacement][1..] == [replacement] && [replacement][1..] == [];
    SegmentsMakeSubstitute(source, needle, replacement);
    LoneSegment(replacement);
    OneMoreSegment(segments, 1);
    assert TotalUnits(segments[..2]) == 400;
    assert FirstExcess(segments, 2, 400);
    forall k, units | FirstExcess(segments, k, units) ensures k == 2 && units == 400 {
      StopIsDetermined(segments, k, units, 2, 400);
    }
  }

  /** The counting pass: the exact length of the result, or the length at the first
      segment that passes the limit. */
  method CountReplaced(source: Text, needle: Text, replacement: Text) returns (requested: nat, matched: bool)
    requires needle != []
    ensures requested <= MAX_NAME_UNITS ==>
              requested == |Substitute(source, needle, replacement)| && (matched <==> Occurs(source, needle))
    ensures requested > MAX_NAME_UNITS ==> exists k :: FirstExcess(Segments(source, needle, replacement), k, requested)
  {
    hide Substitute, Occurs, Segments, Occurrences, TotalUnits;
    var index: nat := 0;
    requested, matched := 0, false;
    ghost var segments, k := Segments(source, needle, replacement), 0;
    assert source[0..] == source && segments[0..] == segments;
    NothingSegmented(needle, replacement);
    while index < |source|
      invariant 0 <= index <= |source| && requested <= MAX_NAME_UNITS && k <= |segments|
      invariant requested == TotalUnits(segments[..k]) && Segments(source[index..], needle, replacement) == segments[k..]
      invariant matched || Occurrences(source[index..], needle) > 0 <==> Occurrences(source, needle) > 0
      decreases |source| - index
    {
      var segment: nat;
      SegmentStep(source, index, needle, replacement);
      if needle <= source[index..] {
        matched := true;
        index := index + |needle|;
        segment := |replacement|;
      } else {
        index := index + 1;
        segment := 1;
      }
      OneMoreSegment(segments, k);
      k := k + 1;
      requested := requested + segment;
      if requested > MAX_NAME_UNITS {
        assert FirstExcess(segments, k, requested);
        return;
      }
    }
    assert source[|source|..] == [] && segments[..k] == segments;
    SegmentsMakeSubstitute(source, needle, replacement);
    OccurrencesMeaning(source, needle);
  }

  lemma NothingSegmented(needle: Text, replacement: Text)
    requires needle != []
    ensures Segments([], needle, replacement) == [] && Occurrences([], needle) == 0 && TotalUnits([]) == 0
  {
  }

  lemma LoneSegment(segment: Text)
    ensures TotalUnits([segment]) == |segment|
  {
    var rest: seq<Text> := [segment][1..];
    assert rest == [];
  }

  lemma OneMoreSegment(segments: seq<Text>, k: nat)
    requires k < |segments|
    ensures TotalUnits(segments[..k + 1]) == TotalUnits(segments[..k]) + |segments[k]|
    ensures segments[k..] == [segments[k]] + segments[k + 1..]
  {
    TotalSplit(segments[..k + 1], k);
    assert segments[..k + 1][..k] == segments[..k];
    assert segments[..k + 1][k..] == [segments[k]];
    LoneSegment(segments[k]);
  }

  lemma SubstituteNothing(needle: Text, replacement: Text)
    requires needle != []
    ensures Substitute([], needle, replacement) == []
  {
  }

  /** The building pass. */
  method BuildReplaced(source: Text, needle: Text, replacement: Text) returns (output: Text)
    requires needle != []
    ensures output == Substitute(source, needle, replacement)
  {
    hide Substitute;
    var index: nat := 0;
    output := [];
    assert source[0..] == source;
    while index < |source|
      invariant 0 <= index <= |source|
      invariant output + Substitute(source[index..], needle, replacement) == Substitute(source, needle, replacement)
      decreases |source| - index
    {
      SubstituteStep(source, index, needle, replacement);
      if needle <= source[index..] {
        output := output + replacement;
        index := index + |needle|;
      } else {
        output := output + [source[index]];
        index := index + 1;
      }
    }
    assert source[|source|..] == [];
    SubstituteNothing(needle, replacement);
  }

  /** The early rejection fires exactly when the result is too long for a name, and
      "no change" is reported exactly when the text is unchanged. */
  method ReplacedUnits(source: Text, needle: Text, replacement: Text) returns (r: Replaced)
    ensures needle == [] || |needle| > |source| ==> r.Unchanged?
    ensures 0 < |needle| <= |source| ==>
              var result := Substitute(source, needle, replacement);
              && (r.TooLong? <==> |result| > MAX_NAME_UNITS)
              && (r.TooLong? ==> exists k :: FirstExcess(Segments(source, needle, replacement), k, r.requestedUnits))
              && (r.Unchanged? <==> result == source && |source| <= MAX_NAME_UNITS)
              && (r.Changed? ==> r.value == result && result != source)
  {
    if needle == [] || |needle| > |source| {
      return Unchanged;
    }
    var requested, matched := CountReplaced(source, needle, replacement);
    if requested > MAX_NAME_UNITS {
      ghost var k :| FirstExcess(Segments(source, needle, replacement), k, requested);
      RequestedIsExact(source, needle, replacement, k, requested);
      return TooLong(requested);
    }
    UnchangedExactly(source, needle, replacement);
    if !matched || needle == replacement {
      return Unchanged;
    }
    var output := BuildReplaced(source, needle, replacement);
    return Changed(output);
  }
}
