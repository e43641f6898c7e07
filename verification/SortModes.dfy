/** The ten sort choices and the two file-size policies. */
module SortModes {
  import opened Orders
  import opened Paths

  datatype SortMode =
    | NameAscending | NameDescending | FullPathAscending | FullPathDescending
    | SizeAscending | SizeDescending | ModifiedAscending | ModifiedDescending
    | CreatedAscending | CreatedDescending

  datatype SortSemantics = SafeActualSize | LegacySize

  const WORD: nat := 0x1_0000_0000
  const HALF_WORD: nat := 0x8000_0000

  function CompareNumbers(left: nat, right: nat): Ordering {
    if left < right then Less else if left == right then Equal else Greater
  }

  /** The sign of the 32-bit wrapping difference, as the original computed it. */
  function CompareLegacySize(left: nat, right: nat): Ordering {
    var difference := (left - right) % WORD;
    if difference == 0 then Equal else if difference >= HALF_WORD then Less else Greater
  }

  /** The wrapping comparison tells the numeric order exactly when the left size is
      less than half the 32-bit range above the right one and at most half below. */
  lemma LegacySizeAgrees(left: nat, right: nat)
    requires left < WORD && right < WORD
    ensures CompareLegacySize(left, right) == CompareNumbers(left, right)
         <==> left - right < HALF_WORD && right - left <= HALF_WORD
  {
    if left >= right {
      assert (left - right) % WORD == left - right;
    } else {
      assert (left - right) % WORD == left - right + WORD;
    }
  }

  predicate SizesClose(items: seq<Item>) {
    forall i, j | 0 <= i < |items| && 0 <= j < |items| ::
      items[i].size < WORD && items[i].size - items[j].size < HALF_WORD
  }

  /** How far above the pivot a size lies on the 32-bit circle. */
  function AbovePivot(size: nat, pivot: nat): (r: nat)
    ensures r < WORD
  {
    (size - pivot) % WORD
  }

  /** Every size lies on the half of the circle that begins at row `k`. */
  predicate BeginsHalfTurn(items: seq<Item>, k: nat)
    requires k < |items|
  {
    forall i | 0 <= i < |items| :: AbovePivot(items[i].size, items[k].size) < HALF_WORD
  }

  /** Some row begins a half turn that holds all sizes. */
  predicate OnHalfTurn(items: seq<Item>) {
    items == [] || exists k :: 0 <= k < |items| && BeginsHalfTurn(items, k)
  }

  /** On a half turn the wrapping comparison is the order of the distances from its start. */
  lemma ComparesDistances(left: nat, right: nat, pivot: nat)
    requires AbovePivot(left, pivot) < HALF_WORD && AbovePivot(right, pivot) < HALF_WORD
    ensures CompareLegacySize(left, right) == CompareNumbers(AbovePivot(left, pivot), AbovePivot(right, pivot))
  {
    var a, b := AbovePivot(left, pivot), AbovePivot(right, pivot);
    assert (left - right) % WORD == if a >= b then a - b else a - b + WORD;
  }

  function CompareItems(mode: SortMode, semantics: SortSemantics, compareText: Comparator<Text>, left: Item, right: Item): Ordering {
    match mode
    case NameAscending => compareText(left.current, right.current)
    case NameDescending => compareText(left.current, right.current).Reverse()
    case FullPathAscending => compareText(left.source, right.source)
    case FullPathDescending => compareText(left.source, right.source).Reverse()
    case SizeAscending => CompareSize(semantics, left, right)
    case SizeDescending => CompareSize(semantics, left, right).Reverse()
    case ModifiedAscending => CompareNumbers(left.modified, right.modified)
    case ModifiedDescending => CompareNumbers(left.modified, right.modified).Reverse()
    case CreatedAscending => CompareNumbers(left.created, right.created)
    case CreatedDescending => CompareNumbers(left.created, right.created).Reverse()
  }

  function CompareSize(semantics: SortSemantics, left: Item, right: Item): Ordering {
    if semantics.SafeActualSize? then CompareNumbers(left.actualSize, right.actualSize)
    else CompareLegacySize(left.size, right.size)
  }

  function SortComparator(mode: SortMode, semantics: SortSemantics, compareText: Comparator<Text>): Comparator<Item> {
    (left, right) => CompareItems(mode, semantics, compareText, left, right)
  }

  predicate ComparesLegacySizes(mode: SortMode, semantics: SortSemantics) {
    semantics.LegacySize? && (mode.SizeAscending? || mode.SizeDescending?)
  }

  lemma CompareItemsLaws(mode: SortMode, semantics: SortSemantics, compareText: Comparator<Text>, a: Item, b: Item, c: Item,
                         pivot: nat)
    requires TotalPreorder(compareText)
    requires ComparesLegacySizes(mode, semantics) ==>
               forall x | x in [a, b, c] :: AbovePivot(x.size, pivot) < HALF_WORD
    ensures var cmp := (l, r) => CompareItems(mode, semantics, compareText, l, r);
            && cmp(a, b) == cmp(b, a).Reverse()
            && (cmp(a, b) != Greater && cmp(b, c) != Greater ==> cmp(a, c) != Greater)
  {
    Chain(compareText, a.current, b.current, c.current);
    Chain(compareText, c.current, b.current, a.current);
    Chain(compareText, a.source, b.source, c.source);
    Chain(compareText, c.source, b.source, a.source);
    Chain(compareText, b.current, c.current, a.current);
    Chain(compareText, b.source, c.source, a.source);
    Chain(compareText, a.current, c.current, b.current);
    Chain(compareText, a.source, c.source, b.source);
    if ComparesLegacySizes(mode, semantics) {
      hide CompareLegacySize, AbovePivot;
      assert a in [a, b, c] && b in [a, b, c] && c in [a, b, c];
      ComparesDistances(a.size, b.size, pivot);
      ComparesDistances(b.size, a.size, pivot);
      ComparesDistances(b.size, c.size, pivot);
      ComparesDistances(a.size, c.size, pivot);
    }
  }

  lemma HalfTurnIsPreorder(mode: SortMode, semantics: SortSemantics, compareText: Comparator<Text>, items: seq<Item>)
    requires TotalPreorder(compareText)
    requires ComparesLegacySizes(mode, semantics) ==> OnHalfTurn(items)
    ensures PreorderOn(SortComparator(mode, semantics, compareText), items)
  {
    hide TotalPreorder, CompareItems, AbovePivot;
    if items != [] {
      var k: nat := 0;
      if ComparesLegacySizes(mode, semantics) {
        k :| k < |items| && BeginsHalfTurn(items, k);
      }
      forall i, j, l | 0 <= i < |items| && 0 <= j < |items| && 0 <= l < |items|
        ensures var cmp := SortComparator(mode, semantics, compareText);
                && cmp(items[i], items[j]) == cmp(items[j], items[i]).Reverse()
                && (cmp(items[i], items[j]) != Greater && cmp(items[j], items[l]) != Greater ==> cmp(items[i], items[l]) != Greater)
      {
        CompareItemsLaws(mode, semantics, compareText, items[i], items[j], items[l], items[k].size);
      }
    }
  }

  /** A total preorder has a least element among the first `n`. */
  lemma {:induction false} LeastRow(cmp: Comparator<Item>, items: seq<Item>, n: nat) returns (k: nat)
    requires PreorderOn(cmp, items) && 0 < n <= |items|
    ensures k < n && forall i | 0 <= i < n :: cmp(items[k], items[i]) != Greater
  {
    assert cmp(items[n - 1], items[n - 1]) == cmp(items[n - 1], items[n - 1]).Reverse();
    k := n - 1;
    if n > 1 {
      var front := LeastRow(cmp, items, n - 1);
      assert cmp(items[front], items[n - 1]) == cmp(items[n - 1], items[front]).Reverse();
      if cmp(items[front], items[n - 1]) != Greater {
        k := front;
      }
    }
  }

  lemma PreorderReversed(semantics: SortSemantics, compareText: Comparator<Text>, items: seq<Item>)
    requires PreorderOn(SortComparator(SizeDescending, semantics, compareText), items)
    ensures PreorderOn(SortComparator(SizeAscending, semantics, compareText), items)
  {
    var up, down := SortComparator(SizeAscending, semantics, compareText), SortComparator(SizeDescending, semantics, compareText);
    forall i, j, k | 0 <= i < |items| && 0 <= j < |items| && 0 <= k < |items|
      ensures up(items[i], items[j]) == up(items[j], items[i]).Reverse()
      ensures up(items[i], items[j]) != Greater && up(items[j], items[k]) != Greater ==> up(items[i], items[k]) != Greater
    {
      assert down(items[i], items[j]) == down(items[j], items[i]).Reverse();
      assert down(items[j], items[k]) == down(items[k], items[j]).Reverse();
      assert down(items[i], items[k]) == down(items[k], items[i]).Reverse();
      assert down(items[k], items[j]) != Greater && down(items[j], items[i]) != Greater ==> down(items[k], items[i]) != Greater;
    }
  }

  /** The least size begins a half turn: nothing is exactly half a turn away, or the
      comparison would put each of the two before the other. */
  lemma PreorderIsHalfTurn(compareText: Comparator<Text>, items: seq<Item>)
    requires PreorderOn(SortComparator(SizeAscending, LegacySize, compareText), items)
    ensures OnHalfTurn(items)
  {
    if items != [] {
      var cmp := SortComparator(SizeAscending, LegacySize, compareText);
      var k := LeastRow(cmp, items, |items|);
      forall i | 0 <= i < |items| ensures AbovePivot(items[i].size, items[k].size) < HALF_WORD {
        assert cmp(items[k], items[i]) == cmp(items[i], items[k]).Reverse();
        var difference := (items[k].size - items[i].size) % WORD;
        assert AbovePivot(items[i].size, items[k].size) == if difference == 0 then 0 else WORD - difference;
      }
      assert BeginsHalfTurn(items, k);
    }
  }

  /** A mode orders the rows by a total preorder always, but for legacy sizes exactly
      when they lie on one half turn of the 32-bit circle. */
  lemma ModesArePreorders(mode: SortMode, semantics: SortSemantics, compareText: Comparator<Text>, items: seq<Item>)
    requires TotalPreorder(compareText)
    ensures PreorderOn(SortComparator(mode, semantics, compareText), items)
            <==> (ComparesLegacySizes(mode, semantics) ==> OnHalfTurn(items))
  {
    hide PreorderOn, OnHalfTurn, SortComparator;
    if PreorderOn(SortComparator(mode, semantics, compareText), items) && ComparesLegacySizes(mode, semantics) {
      if mode.SizeDescending? {
        PreorderReversed(semantics, compareText, items);
      }
      PreorderIsHalfTurn(compareText, items);
    }
    if ComparesLegacySizes(mode, semantics) ==> OnHalfTurn(items) {
      HalfTurnIsPreorder(mode, semantics, compareText, items);
    }
  }

  /** Close sizes lie on the half turn that begins at the smallest. */
  lemma {:induction false} CloseIsOnHalfTurn(items: seq<Item>)
    requires SizesClose(items)
    ensures OnHalfTurn(items)
  {
    if items != [] {
      var k := SmallestSize(items, |items|);
      assert BeginsHalfTurn(items, k);
    }
  }

  lemma {:induction false} SmallestSize(items: seq<Item>, n: nat) returns (k: nat)
    requires 0 < n <= |items|
    ensures k < n && forall i | 0 <= i < n :: items[k].size <= items[i].size
  {
    k := n - 1;
    if n > 1 {
      var front := SmallestSize(items, n - 1);
      if items[front].size <= items[n - 1].size {
        k := front;
      }
    }
  }

  /** When two rows tie, and so keep their order: in nothing but the column sorted by. */
  lemma TiesMeaning(mode: SortMode, semantics: SortSemantics, compareText: Comparator<Text>, a: Item, b: Item)
    ensures SortComparator(mode, semantics, compareText)(a, b) == Equal <==>
              match mode
              case NameAscending => compareText(a.current, b.current) == Equal
              case NameDescending => compareText(a.current, b.current) == Equal
              case FullPathAscending => compareText(a.source, b.source) == Equal
              case FullPathDescending => compareText(a.source, b.source) == Equal
              case SizeAscending =>
                if semantics.LegacySize? then a.size % 0x1_0000_0000 == b.size % 0x1_0000_0000 else a.actualSize == b.actualSize
              case SizeDescending =>
                if semantics.LegacySize? then a.size % 0x1_0000_0000 == b.size % 0x1_0000_0000 else a.actualSize == b.actualSize
              case ModifiedAscending => a.modified == b.modified
              case ModifiedDescending => a.modified == b.modified
              case CreatedAscending => a.created == b.created
              case CreatedDescending => a.created == b.created
  {
    SameRemainder(a.size, b.size);
    hide CompareNumbers;
    NumbersTie(a, b);
  }

  lemma NumbersTie(a: Item, b: Item)
    ensures CompareNumbers(a.actualSize, b.actualSize) == Equal <==> a.actualSize == b.actualSize
    ensures CompareNumbers(a.modified, b.modified) == Equal <==> a.modified == b.modified
    ensures CompareNumbers(a.created, b.created) == Equal <==> a.created == b.created
  {
  }

  lemma SameRemainder(a: nat, b: nat)
    ensures (a - b) % WORD == 0 <==> a % WORD == b % WORD
  {
    var (x, y) := (a / WORD, b / WORD);
    assert a == x * WORD + a % WORD && b == y * WORD + b % WORD;
    assert a - b == (x - y) * WORD + (a % WORD - b % WORD);
  }

  /** What a sorted list looks like, column by column. Legacy sizes are compared as
      numbers, which is right for close sizes only. */
  lemma SortedRowsMeaning(mode: SortMode, semantics: SortSemantics, compareText: Comparator<Text>, rows: seq<Item>,
                          i: nat, j: nat)
    requires TotalPreorder(compareText) && Sorted(SortComparator(mode, semantics, compareText), rows) && i < j < |rows|
    requires ComparesLegacySizes(mode, semantics) ==> SizesClose(rows)
    ensures match mode
            case NameAscending => compareText(rows[i].current, rows[j].current) != Greater
            case NameDescending => compareText(rows[j].current, rows[i].current) != Greater
            case FullPathAscending => compareText(rows[i].source, rows[j].source) != Greater
            case FullPathDescending => compareText(rows[j].source, rows[i].source) != Greater
            case SizeAscending =>
              if semantics.LegacySize? then rows[i].size <= rows[j].size else rows[i].actualSize <= rows[j].actualSize
            case SizeDescending =>
              if semantics.LegacySize? then rows[i].size >= rows[j].size else rows[i].actualSize >= rows[j].actualSize
            case ModifiedAscending => rows[i].modified <= rows[j].modified
            case ModifiedDescending => rows[i].modified >= rows[j].modified
            case CreatedAscending => rows[i].created <= rows[j].created
            case CreatedDescending => rows[i].created >= rows[j].created
  {
    assert SortComparator(mode, semantics, compareText)(rows[i], rows[j]) != Greater;
    Chain(compareText, rows[i].current, rows[j].current, rows[i].current);
    Chain(compareText, rows[i].source, rows[j].source, rows[i].source);
    if ComparesLegacySizes(mode, semantics) {
      LegacySizeAgrees(rows[i].size, rows[j].size);
    }
  }

  lemma FirstIsGreater(cmp: Comparator<Item>, rows: seq<Item>, other: Item)
    requires rows != [] && other in rows && other != rows[0] && cmp(rows[0], other) == Greater
    ensures !Sorted(cmp, rows)
  {
    var j :| 0 <= j < |rows| && rows[j] == other;
  }

  /** Three sizes around the whole 32-bit circle, each less than half a turn after the one
      before: the legacy comparison runs in a circle, so no arrangement of the rows is
      sorted. */
  lemma LegacySizesCanCycle(a: Item, b: Item, c: Item, compareText: Comparator<Text>, rows: seq<Item>)
    requires a.size == 0 && b.size == 0x6000_0000 && c.size == 0xC000_0000
    requires multiset(rows) == multiset{a, b, c}
    ensures !Sorted(SortComparator(SizeAscending, LegacySize, compareText), rows)
  {
    var cmp := SortComparator(SizeAscending, LegacySize, compareText);
    assert cmp(a, c) == Greater && cmp(b, a) == Greater && cmp(c, b) == Greater;
    assert |rows| == |multiset(rows)| == 3;
    assert rows[0] in multiset(rows) && a in multiset(rows) && b in multiset(rows) && c in multiset(rows);
    FirstIsGreater(cmp, rows, if rows[0] == a then c else if rows[0] == b then a else b);
  }
}
