/** The injective diagnostic display of UTF-16 texts, and its budgeted elision. A
    display is a sequence of Unicode scalar values, as the program's `String` is. */
module ConfirmationDisplay {
  import opened Paths

  type Scalar = s: int | 0 <= s < 0xD800 || 0xE000 <= s < 0x11_0000
  type Display = seq<Scalar>

  const ELLIPSIS: Scalar := 0x2026
  const OPEN: Scalar := 0x5B
  const CLOSE: Scalar := 0x5D
  const REPLACEMENT: Scalar := 0xFFFD

  predicate IsHigh(unit: Unit) { 0xD800 <= unit <= 0xDBFF }
  predicate IsLow(unit: Unit) { 0xDC00 <= unit <= 0xDFFF }

  /** The units that are shown as an escape. */
  predicate Escaped(unit: Unit) {
    || unit <= 0x1F || 0x7F <= unit <= 0x9F || unit == 0x5B || unit == 0x5D || unit == 0x061C
    || 0x200E <= unit <= 0x200F || unit == 0x2026 || 0x2028 <= unit <= 0x202E || 0x2066 <= unit <= 0x2069 || unit == 0xFFFD
  }

  datatype Glyph = Character(value: Scalar) | Escape(unit: Unit)

  /** The units `[start, end)` and what is shown for them. */
  datatype Token = Token(start: nat, end: nat, glyph: Glyph)

  function ScalarOf(value: int): Scalar {
    if 0 <= value < 0xD800 || 0xE000 <= value < 0x11_0000 then value else REPLACEMENT
  }

  /** The scalar of a surrogate pair, by section 2.2 of RFC 2781. */
  function PairScalar(high: Unit, low: Unit): Scalar {
    var h: int, l: int := high - 0xD800, low - 0xDC00;
    ScalarOf(0x1_0000 + h * 0x400 + l)
  }

  predicate IsPairAt(units: Text, i: nat) {
    i + 1 < |units| && IsHigh(units[i]) && IsLow(units[i + 1])
  }

  function GlyphAt(units: Text, i: nat): Glyph
    requires i < |units|
  {
    if IsPairAt(units, i) then Character(PairScalar(units[i], units[i + 1]))
    else if Escaped(units[i]) || IsHigh(units[i]) || IsLow(units[i]) then Escape(units[i])
    else Character(ScalarOf(units[i]))
  }

  function WidthAt(units: Text, i: nat): nat { if IsPairAt(units, i) then 2 else 1 }

  /** The tokens of the units from `i` on. */
  function TokensFrom(units: Text, i: nat): seq<Token>
    decreases |units| - i
  {
    if i >= |units| then []
    else [Token(i, i + WidthAt(units, i), GlyphAt(units, i))] + TokensFrom(units, i + WidthAt(units, i))
  }

  method Tokens(units: Text) returns (result: seq<Token>)
    ensures result == TokensFrom(units, 0)
  {
    hide TokensFrom, GlyphAt;
    result := [];
    var index: nat := 0;
    while index < |units|
      invariant index <= |units|
      invariant result + TokensFrom(units, index) == TokensFrom(units, 0)
    {
      TokensStep(units, index);
      var width := WidthAt(units, index);
      result := result + [Token(index, index + width, GlyphAt(units, index))];
      index := index + width;
    }
    TokensStep(units, index);
  }

  lemma TokensStep(units: Text, i: nat)
    ensures TokensFrom(units, i)
         == if i >= |units| then [] else [Token(i, i + WidthAt(units, i), GlyphAt(units, i))] + TokensFrom(units, i + WidthAt(units, i))
  {
    hide GlyphAt, WidthAt;
  }

  function HexDigit(d: nat): Scalar
    requires d < 16
  {
    if d < 10 then 0x30 + d else 0x41 + d - 10
  }

  function HexValue(s: Scalar): nat {
    if 0x30 <= s <= 0x39 then s - 0x30 else if 0x41 <= s <= 0x46 then s - 0x41 + 10 else 0
  }

  /** `[U+XXXX]` */
  function EscapeText(unit: Unit): (r: Display)
    ensures |r| == 8
  {
    [OPEN, 0x55, 0x2B, HexDigit(unit / 0x1000), HexDigit(unit / 0x100 % 16), HexDigit(unit / 16 % 16), HexDigit(unit % 16), CLOSE]
  }

  function GlyphText(glyph: Glyph): Display {
    match glyph
    case Character(value) => [value]
    case Escape(unit) => EscapeText(unit)
  }

  function Show(tokens: seq<Token>): Display {
    if tokens == [] then [] else GlyphText(tokens[0].glyph) + Show(tokens[1..])
  }

  /** The length of a display in UTF-16 units. */
  function Utf16Units(text: Display): nat {
    if text == [] then 0 else (if text[0] < 0x1_0000 then 1 else 2) + Utf16Units(text[1..])
  }

  function TokenCost(token: Token): nat {
    match token.glyph
    case Character(value) => if value < 0x1_0000 then 1 else 2
    case Escape(_) => 8
  }

  function Cost(tokens: seq<Token>): nat {
    if tokens == [] then 0 else TokenCost(tokens[0]) + Cost(tokens[1..])
  }

  // ----- The display is injective -----

  /** The UTF-16 units of one scalar, by the surrogate rule of section 2.1 of RFC 2781. */
  function Encode(value: Scalar): Text {
    if value < 0x1_0000 then [value]
    else [0xD800 + (value - 0x1_0000) / 0x400, 0xDC00 + (value - 0x1_0000) % 0x400]
  }

  /** Reads a display back: an escape gives its unit, any other scalar its encoding. */
  function Decode(text: Display): Text
    decreases |text|
  {
    if text == [] then []
    else if text[0] == OPEN && |text| >= 8 then
      var value := ((HexValue(text[3]) * 16 + HexValue(text[4])) * 16 + HexValue(text[5])) * 16 + HexValue(text[6]);
      [if value < 0x1_0000 then value else 0] + Decode(text[8..])
    else Encode(text[0]) + Decode(text[1..])
  }

  function EncodeAll(text: Display): Text {
    if text == [] then [] else Encode(text[0]) + EncodeAll(text[1..])
  }

  /** The length in UTF-16 units is the length of the encoding. */
  lemma {:induction false} UnitsAreEncoded(text: Display)
    ensures Utf16Units(text) == |EncodeAll(text)|
  {
    if text != [] {
      UnitsAreEncoded(text[1..]);
    }
  }

  lemma HexDigitsRoundTrip(unit: Unit)
    ensures ((unit / 0x1000 * 16 + unit / 0x100 % 16) * 16 + unit / 16 % 16) * 16 + unit % 16 == unit
    ensures unit / 0x1000 < 16
  {
    var a, b := unit / 16, unit / 0x100;
    assert unit == a * 16 + unit % 16;
    assert a / 16 == b && a == b * 16 + a % 16;
    assert b / 16 == unit / 0x1000 && b == unit / 0x1000 * 16 + b % 16;
  }

  lemma DecodeEscape(unit: Unit, rest: Display)
    ensures Decode(EscapeText(unit) + rest) == [unit] + Decode(rest)
  {
    var text := EscapeText(unit) + rest;
    assert text[8..] == rest;
    HexDigitsRoundTrip(unit);
    assert HexValue(text[3]) == unit / 0x1000 && HexValue(text[4]) == unit / 0x100 % 16;
    assert HexValue(text[5]) == unit / 16 % 16 && HexValue(text[6]) == unit % 16;
  }

  /** A glyph decodes to exactly the units it stands for. */
  lemma DecodeGlyph(units: Text, i: nat, rest: Display)
    requires i < |units|
    ensures Decode(GlyphText(GlyphAt(units, i)) + rest) == units[i..i + WidthAt(units, i)] + Decode(rest)
  {
    hide Decode, Encode, PairScalar, Escaped;
    var glyph := GlyphAt(units, i);
    if IsPairAt(units, i) {
      PairEncodes(units[i], units[i + 1]);
      DecodeCharacter(glyph.value, rest);
      assert units[i..i + 2] == [units[i], units[i + 1]];
    } else if glyph.Escape? {
      DecodeEscape(units[i], rest);
    } else {
      assert !Escaped(units[i]);
      PlainUnit(units[i]);
      DecodeCharacter(glyph.value, rest);
    }
  }

  lemma PairEncodes(high: Unit, low: Unit)
    requires IsHigh(high) && IsLow(low)
    ensures PairScalar(high, low) >= 0x1_0000 && Encode(PairScalar(high, low)) == [high, low]
  {
    var h: int, l: int := high - 0xD800, low - 0xDC00;
    assert PairScalar(high, low) == 0x1_0000 + h * 0x400 + l;
    assert (h * 0x400 + l) / 0x400 == h && (h * 0x400 + l) % 0x400 == l;
  }

  lemma PlainUnit(unit: Unit)
    requires !Escaped(unit) && !IsHigh(unit) && !IsLow(unit)
    ensures ScalarOf(unit) == unit && unit != OPEN && Encode(unit) == [unit]
  {}

  lemma DecodeCharacter(value: Scalar, rest: Display)
    requires value != OPEN
    ensures Decode([value] + rest) == Encode(value) + Decode(rest)
  {
    assert ([value] + rest)[1..] == rest;
  }

  lemma {:induction false} DecodeShowFrom(units: Text, i: nat)
    requires i <= |units|
    ensures Decode(Show(TokensFrom(units, i))) == units[i..]
    decreases |units| - i
  {
    hide Decode, TokensFrom, GlyphAt, GlyphText;
    TokensStep(units, i);
    if i < |units| {
      var next := i + WidthAt(units, i);
      DecodeShowFrom(units, next);
      DecodeGlyph(units, i, Show(TokensFrom(units, next)));
      assert TokensFrom(units, i)[1..] == TokensFrom(units, next);
      assert units[i..] == units[i..next] + units[next..];
    } else {
      DecodeNothing();
    }
  }

  lemma DecodeNothing()
    ensures Decode(Show([])) == []
  {}

  /** Decoding the full display gives back the exact units, unpaired surrogates and
      texts that look like escapes included. */
  lemma DecodeUndoesShow(units: Text)
    ensures Decode(Show(TokensFrom(units, 0))) == units
  {
    DecodeShowFrom(units, 0);
  }

  /** Different texts are shown differently. */
  lemma DisplayIsInjective(a: Text, b: Text)
    requires Show(TokensFrom(a, 0)) == Show(TokensFrom(b, 0))
    ensures a == b
  {
    DecodeUndoesShow(a);
    DecodeUndoesShow(b);
  }

  // ----- The budgeted display -----

  lemma {:induction false} CostConcat(a: seq<Token>, b: seq<Token>)
    ensures Cost(a + b) == Cost(a) + Cost(b)
  {
    if a == [] {
      assert a + b == b;
    } else {
      assert (a + b)[1..] == a[1..] + b;
      CostConcat(a[1..], b);
    }
  }

  /** The cost of the tokens `[a, b)`. */
  function SliceCost(tokens: seq<Token>, a: nat, b: nat): nat
    requires a <= b <= |tokens|
  {
    Cost(tokens[a..b])
  }

  lemma SliceCostSplit(tokens: seq<Token>, a: nat, b: nat, c: nat)
    requires a <= b <= c <= |tokens|
    ensures SliceCost(tokens, a, c) == SliceCost(tokens, a, b) + SliceCost(tokens, b, c)
  {
    assert tokens[a..c] == tokens[a..b] + tokens[b..c];
    CostConcat(tokens[a..b], tokens[b..c]);
  }

  lemma SliceCostOne(tokens: seq<Token>, a: nat)
    requires a < |tokens|
    ensures SliceCost(tokens, a, a) == 0 && SliceCost(tokens, a, a + 1) == TokenCost(tokens[a])
  {
    assert tokens[a..a] == [] && tokens[a..a + 1] == [tokens[a]];
    assert [tokens[a]][1..] == [];
  }

  lemma SliceCostExtend(tokens: seq<Token>, a: nat, b: nat)
    requires a <= b <= |tokens|
    ensures a > 0 ==> SliceCost(tokens, a - 1, b) == TokenCost(tokens[a - 1]) + SliceCost(tokens, a, b)
    ensures b < |tokens| ==> SliceCost(tokens, a, b + 1) == SliceCost(tokens, a, b) + TokenCost(tokens[b])
  {
    if a > 0 {
      SliceCostSplit(tokens, a - 1, a, b);
      SliceCostOne(tokens, a - 1);
    }
    if b < |tokens| {
      SliceCostSplit(tokens, a, b, b + 1);
      SliceCostOne(tokens, b);
    }
  }

  lemma {:induction false} UnitsConcat(a: Display, b: Display)
    ensures Utf16Units(a + b) == Utf16Units(a) + Utf16Units(b)
  {
    if a == [] {
      assert a + b == b;
    } else {
      assert (a + b)[1..] == a[1..] + b;
      UnitsConcat(a[1..], b);
    }
  }

  lemma {:induction false} PlainUnits(text: Display)
    requires forall i | 0 <= i < |text| :: text[i] < 0x1_0000
    ensures Utf16Units(text) == |text|
  {
    if text != [] { PlainUnits(text[1..]); }
  }

  lemma GlyphUnits(token: Token)
    ensures Utf16Units(GlyphText(token.glyph)) == TokenCost(token)
  {
    match token.glyph
    case Character(value) => assert [value][1..] == [];
    case Escape(unit) => PlainUnits(EscapeText(unit));
  }

  /** The cost of a token list is the UTF-16 length of its display. */
  lemma {:induction false} ShowUnits(tokens: seq<Token>)
    ensures Utf16Units(Show(tokens)) == Cost(tokens)
  {
    if tokens != [] {
      ShowUnits(tokens[1..]);
      GlyphUnits(tokens[0]);
      UnitsConcat(GlyphText(tokens[0].glyph), Show(tokens[1..]));
    }
  }

  function Mark(omitted: bool): Display { if omitted then [ELLIPSIS] else [] }

  /** Which tokens a display keeps: `[left, head)` and `[tail, right)`. */
  datatype Elision = Elision(left: nat, head: nat, tail: nat, right: nat)

  predicate InOrder(e: Elision, n: nat) {
    e.left <= e.head <= e.tail <= e.right <= n
  }

  /** Two contiguous, token-aligned slices in order, with an ellipsis wherever, and
      only where, tokens are left out. */
  function Elided(tokens: seq<Token>, e: Elision): Display
    requires InOrder(e, |tokens|)
  {
    Mark(e.left != 0) + Show(tokens[e.left..e.head]) + Mark(e.head < e.tail)
    + Show(tokens[e.tail..e.right]) + Mark(e.right != |tokens|)
  }

  lemma ElidedUnits(tokens: seq<Token>, e: Elision)
    requires InOrder(e, |tokens|)
    ensures Utf16Units(Elided(tokens, e))
         == |Mark(e.left != 0)| + |Mark(e.head < e.tail)| + |Mark(e.right != |tokens|)|
            + SliceCost(tokens, e.left, e.head) + SliceCost(tokens, e.tail, e.right)
  {
    hide Utf16Units, Show;
    var a, b, c := Mark(e.left != 0), Mark(e.head < e.tail), Mark(e.right != |tokens|);
    var x, y := Show(tokens[e.left..e.head]), Show(tokens[e.tail..e.right]);
    PlainUnits(a);
    PlainUnits(b);
    PlainUnits(c);
    ShowUnits(tokens[e.left..e.head]);
    ShowUnits(tokens[e.tail..e.right]);
    UnitsConcat(a, x);
    UnitsConcat(a + x, b);
    UnitsConcat(a + x + b, y);
    UnitsConcat(a + x + b + y, c);
  }

  /** The first token that reaches past `rawStart`. */
  function FocusStart(tokens: seq<Token>, rawStart: nat): (k: nat)
    ensures k <= |tokens|
    ensures forall i | 0 <= i < k :: tokens[i].end <= rawStart
    ensures k < |tokens| ==> tokens[k].end > rawStart
  {
    if tokens == [] || tokens[0].end > rawStart then 0 else 1 + FocusStart(tokens[1..], rawStart)
  }

  /** The first token that starts at or after `rawEnd`. */
  function FocusEnd(tokens: seq<Token>, rawEnd: nat): (k: nat)
    ensures k <= |tokens|
    ensures forall i | 0 <= i < k :: tokens[i].start < rawEnd
    ensures k < |tokens| ==> tokens[k].start >= rawEnd
  {
    if tokens == [] || tokens[0].start >= rawEnd then 0 else 1 + FocusEnd(tokens[1..], rawEnd)
  }

  function Max(a: nat, b: nat): nat { if a < b then b else a }

  /** From `from` towards the left, `to` is as far as the room goes. */
  ghost predicate ReachesLeft(tokens: seq<Token>, from: nat, room: int, to: nat) {
    && to <= from <= |tokens| && SliceCost(tokens, to, from) <= room
    && (to > 0 ==> SliceCost(tokens, to - 1, from) > room)
  }

  ghost predicate ReachesRight(tokens: seq<Token>, from: nat, room: int, to: nat) {
    && from <= to <= |tokens| && SliceCost(tokens, from, to) <= room
    && (to < |tokens| ==> SliceCost(tokens, from, to + 1) > room)
  }

  /** The focus with all the context that fits beside it: one more token on either side
      would not. The left side is served first, up to half of the room, then the right
      side, and the left side has what is over. */
  ghost predicate Grown(tokens: seq<Token>, start: nat, end: nat, budget: nat, e: Elision) {
    && InOrder(e, |tokens|) && e.left <= start <= end <= e.head == e.tail == e.right
    && (var kept := SliceCost(tokens, e.left, e.right);
        && kept + 2 <= budget
        && (e.left > 0 ==> TokenCost(tokens[e.left - 1]) + kept + 2 > budget)
        && (e.right < |tokens| ==> kept + TokenCost(tokens[e.right]) + 2 > budget))
    && SharedOut(tokens, start, end, budget - SliceCost(tokens, start, end) - 2, e.left, e.right)
  }

  ghost predicate SharedAt(tokens: seq<Token>, start: nat, end: nat, room: int, half: nat, left: nat, right: nat) {
    && ReachesLeft(tokens, start, room / 2, half)
    && ReachesRight(tokens, end, room - SliceCost(tokens, half, start), right)
    && ReachesLeft(tokens, start, room - SliceCost(tokens, end, right), left)
  }

  ghost predicate SharedOut(tokens: seq<Token>, start: nat, end: nat, room: int, left: nat, right: nat) {
    exists half :: SharedAt(tokens, start, end, room, half, left, right)
  }

  /** Both ends of a focus that does not fit: the longest start of it within half of the
      room, and the longest end within the rest; one more token of it would not fit. */
  ghost predicate Shrunk(tokens: seq<Token>, start: nat, end: nat, budget: nat, e: Elision) {
    && InOrder(e, |tokens|) && e.left == start && e.right == end && e.head < e.tail
    && var marks := |Mark(start != 0)| + 1 + |Mark(end != |tokens|)|;
       var head := SliceCost(tokens, e.left, e.head);
       var shown := head + SliceCost(tokens, e.tail, e.right) + marks;
       && shown <= budget < shown + TokenCost(tokens[e.tail - 1])
       && head <= (budget - marks) / 2 < head + TokenCost(tokens[e.head])
  }

  /** Grows the focus to both sides until neither neighbour fits. */
  method GrowFocus(tokens: seq<Token>, start: nat, end: nat, budget: nat) returns (e: Elision)
    requires start <= end <= |tokens|
    requires SliceCost(tokens, start, end) + 2 <= budget < Cost(tokens)
    ensures Grown(tokens, start, end, budget, e)
    ensures e.left != 0 || e.right != |tokens|
    ensures SliceCost(tokens, e.left, e.head) + SliceCost(tokens, e.tail, e.right) + 2 <= budget
  {
    hide SliceCost;
    WholeSlice(tokens, start);
    WholeSlice(tokens, end);
    var left: nat, right: nat := start, end;
    var remaining: nat := budget - SliceCost(tokens, start, end) - 2;
    var leftBudget, used := remaining / 2, 0;
    ghost var room := remaining;
    while left > 0 && used + TokenCost(tokens[left - 1]) <= leftBudget
      invariant left <= start && used == SliceCost(tokens, left, start) <= leftBudget
    {
      SliceCostExtend(tokens, left, start);
      left := left - 1;
      used := used + TokenCost(tokens[left]);
    }
    SliceCostExtend(tokens, left, start);
    ghost var half := left;
    remaining := remaining - used;
    while right < |tokens| && TokenCost(tokens[right]) <= remaining
      invariant end <= right <= |tokens|
      invariant used + SliceCost(tokens, end, right) + remaining == room
    {
      SliceCostExtend(tokens, end, right);
      remaining := remaining - TokenCost(tokens[right]);
      right := right + 1;
    }
    SliceCostExtend(tokens, end, right);
    assert ReachesRight(tokens, end, room - SliceCost(tokens, half, start), right);
    while left > 0 && TokenCost(tokens[left - 1]) <= remaining
      invariant left <= start
      invariant right < |tokens| ==> TokenCost(tokens[right]) > remaining
      invariant SliceCost(tokens, left, start) + SliceCost(tokens, end, right) + remaining == room
    {
      SliceCostExtend(tokens, left, start);
      left := left - 1;
      remaining := remaining - TokenCost(tokens[left]);
    }
    SliceCostExtend(tokens, left, start);
    assert SharedAt(tokens, start, end, room, half, left, right);
    e := Elision(left, right, right, right);
    SliceCostSplit(tokens, left, start, right);
    SliceCostSplit(tokens, start, end, right);
    WholeSlice(tokens, right);
  }

  lemma WholeSlice(tokens: seq<Token>, k: nat)
    requires k <= |tokens|
    ensures SliceCost(tokens, 0, |tokens|) == Cost(tokens) && SliceCost(tokens, k, k) == 0
  {
    assert tokens[0..|tokens|] == tokens && tokens[k..k] == [];
  }

  /** Keeps both ends of a focus that does not fit, until the next token does not. */
  method ShrinkFocus(tokens: seq<Token>, start: nat, end: nat, budget: nat) returns (e: Elision)
    requires start <= end <= |tokens|
    requires 3 <= budget < Cost(tokens) && budget < SliceCost(tokens, start, end) + 2
    ensures Shrunk(tokens, start, end, budget, e)
  {
    hide SliceCost;
    WholeSlice(tokens, start);
    WholeSlice(tokens, end);
    var outer := |Mark(start != 0)| + |Mark(end != |tokens|)|;
    var available := budget - (outer + 1);
    var head, tail, used: nat := start, end, 0;
    while head < end && used + TokenCost(tokens[head]) <= available / 2
      invariant start <= head <= end && used == SliceCost(tokens, start, head) <= available / 2
    {
      SliceCostExtend(tokens, start, head);
      used := used + TokenCost(tokens[head]);
      head := head + 1;
    }
    while tail > head && used + TokenCost(tokens[tail - 1]) <= available
      invariant head <= tail <= end
      invariant used == SliceCost(tokens, start, head) + SliceCost(tokens, tail, end) <= available
    {
      SliceCostExtend(tokens, tail, end);
      tail := tail - 1;
      used := used + TokenCost(tokens[tail]);
    }
    if head == tail { SliceCostSplit(tokens, start, head, end); }
    e := Elision(start, head, tail, end);
  }

  /** `text` is the display of a token list within a budget of UTF-16 units, kept as `e`
      says: never longer than the budget; full when that fits; otherwise, from three
      units on, as much around the focus as fits. */
  ghost predicate Rendered(tokens: seq<Token>, rawStart: nat, rawEnd: nat, budget: nat, text: Display, e: Elision) {
    && Utf16Units(text) <= budget && InOrder(e, |tokens|)
    && (0 < budget && Cost(tokens) <= budget ==> text == Show(tokens))
    && (budget == 0 ==> text == []) && (0 < budget < 3 && budget < Cost(tokens) ==> text == [ELLIPSIS])
    && (0 < budget < Cost(tokens) ==>
          text == Elided(tokens, e) && (e.left != 0 || e.head < e.tail || e.right != |tokens|))
    && (3 <= budget < Cost(tokens) ==>
          var start := FocusStart(tokens, rawStart);
          var end := Max(FocusEnd(tokens, rawEnd), start);
          if SliceCost(tokens, start, end) + 2 <= budget then Grown(tokens, start, end, budget, e)
          else Shrunk(tokens, start, end, budget, e))
  }

  method Render(tokens: seq<Token>, rawStart: nat, rawEnd: nat, budget: nat) returns (text: Display, ghost e: Elision)
    ensures Utf16Units(text) <= budget
    ensures 0 < budget && Cost(tokens) <= budget ==> text == Show(tokens)
    ensures Rendered(tokens, rawStart, rawEnd, budget, text, e)
  {
    hide Elided, Cost, Utf16Units;
    e := Elision(0, 0, |tokens|, |tokens|);
    ShowUnits(tokens);
    if budget == 0 {
      EmptyUnits();
      return [], e;
    }
    if Cost(tokens) <= budget {
      return Show(tokens), e;
    }
    if budget < 3 {
      NothingKept(tokens);
      return [ELLIPSIS], e;
    }
    var start := FocusStart(tokens, rawStart);
    var end := Max(FocusEnd(tokens, rawEnd), start);
    var focus;
    if SliceCost(tokens, start, end) + 2 <= budget {
      focus := GrowFocus(tokens, start, end, budget);
    } else {
      focus := ShrinkFocus(tokens, start, end, budget);
    }
    e := focus;
    ElidedUnits(tokens, e);
    text := Elided(tokens, focus);
  }

  lemma ReachIsUnique(tokens: seq<Token>, from: nat, room: int, x: nat, y: nat)
    ensures ReachesLeft(tokens, from, room, x) && ReachesLeft(tokens, from, room, y) ==> x == y
    ensures ReachesRight(tokens, from, room, x) && ReachesRight(tokens, from, room, y) ==> x == y
  {
    hide SliceCost;
    var least, most := if x < y then x else y, Max(x, y);
    if ReachesLeft(tokens, from, room, x) && ReachesLeft(tokens, from, room, y) && x != y {
      SliceCostSplit(tokens, least, most - 1, from);
    } else if ReachesRight(tokens, from, room, x) && ReachesRight(tokens, from, room, y) && x != y {
      SliceCostSplit(tokens, from, least + 1, most);
    }
  }

  lemma SharingIsUnique(tokens: seq<Token>, start: nat, end: nat, room: int, left: nat, right: nat, left': nat, right': nat)
    requires SharedOut(tokens, start, end, room, left, right) && SharedOut(tokens, start, end, room, left', right')
    ensures left == left' && right == right'
  {
    hide SliceCost;
    var half :| SharedAt(tokens, start, end, room, half, left, right);
    var half' :| SharedAt(tokens, start, end, room, half', left', right');
    ReachIsUnique(tokens, start, room / 2, half, half');
    ReachIsUnique(tokens, end, room - SliceCost(tokens, half, start), right, right');
    ReachIsUnique(tokens, start, room - SliceCost(tokens, end, right), left, left');
  }

  lemma ShrunkIsUnique(tokens: seq<Token>, start: nat, end: nat, budget: nat, e: Elision, e': Elision)
    requires Shrunk(tokens, start, end, budget, e) && Shrunk(tokens, start, end, budget, e')
    ensures e == e'
  {
    hide SliceCost;
    ShrunkIsLeast(tokens, start, end, budget, e, e');
    ShrunkIsLeast(tokens, start, end, budget, e', e);
  }

  lemma ShrunkIsLeast(tokens: seq<Token>, start: nat, end: nat, budget: nat, e: Elision, e': Elision)
    requires Shrunk(tokens, start, end, budget, e) && Shrunk(tokens, start, end, budget, e')
    ensures e'.head <= e.head && (e'.head == e.head ==> e.tail <= e'.tail)
  {
    hide SliceCost;
    SliceCostExtend(tokens, start, e.head);
    SliceCostExtend(tokens, e.tail, end);
    if e.head < e'.head {
      SliceCostSplit(tokens, start, e.head + 1, e'.head);
    } else if e'.head == e.head && e'.tail < e.tail {
      SliceCostSplit(tokens, e'.tail, e.tail - 1, end);
    }
  }

  /** Tokens, focus and budget determine the display. */
  lemma RenderedOnce(tokens: seq<Token>, rawStart: nat, rawEnd: nat, budget: nat, text: Display, e: Elision,
                     text': Display, e': Elision)
    requires Rendered(tokens, rawStart, rawEnd, budget, text, e) && Rendered(tokens, rawStart, rawEnd, budget, text', e')
    ensures text == text'
  {
    hide SliceCost, Elided, Cost, Utf16Units, SharedOut, FocusStart, FocusEnd;
    var start := FocusStart(tokens, rawStart);
    var end := Max(FocusEnd(tokens, rawEnd), start);
    if 3 <= budget < Cost(tokens) {
      if SliceCost(tokens, start, end) + 2 <= budget {
        SharingIsUnique(tokens, start, end, budget - SliceCost(tokens, start, end) - 2, e.left, e.right, e'.left, e'.right);
      } else {
        ShrunkIsUnique(tokens, start, end, budget, e, e');
      }
    }
  }

  lemma EmptyUnits()
    ensures Utf16Units([]) == 0
  {}

  lemma NothingKept(tokens: seq<Token>)
    ensures tokens != [] ==> Elided(tokens, Elision(0, 0, |tokens|, |tokens|)) == [ELLIPSIS]
    ensures Utf16Units([ELLIPSIS]) == 1
    ensures Cost([]) == 0
  {
    assert tokens[0..0] == [] && tokens[|tokens|..|tokens|] == [];
    assert [ELLIPSIS][1..] == [];
  }

  // ----- What a display never holds -----

  /** Controls, marks that reorder text, the ellipsis and the replacement character. */
  predicate NeverShown(s: Scalar) {
    s < 0x1_0000 && Escaped(s) && s != OPEN && s != CLOSE
  }

  lemma {:induction false} ShowLacks(tokens: seq<Token>, s: Scalar)
    requires NeverShown(s) && forall k | 0 <= k < |tokens| :: tokens[k].glyph != Character(s)
    ensures s !in Show(tokens)
  {
    if tokens != [] {
      ShowLacks(tokens[1..], s);
      var text := GlyphText(tokens[0].glyph);
      assert forall k | 0 <= k < |text| :: text[k] != s;
    }
  }

  lemma {:induction false} TokensLack(units: Text, i: nat, s: Scalar)
    requires NeverShown(s)
    ensures forall k | 0 <= k < |TokensFrom(units, i)| :: TokensFrom(units, i)[k].glyph != Character(s)
    decreases |units| - i
  {
    if i < |units| {
      TokensLack(units, i + WidthAt(units, i), s);
      if IsPairAt(units, i) { PairEncodes(units[i], units[i + 1]); }
    }
  }

  /** Controls, the marks that reorder text or separate lines, the ellipsis and the
      replacement character. */
  ghost predicate Disruptive(s: int) {
    || 0 <= s <= 0x1F || 0x7F <= s <= 0x9F || s == 0x061C || s in {0x200E, 0x200F} || s == 0x2026
    || s in {0x2028, 0x2029, 0x202A, 0x202B, 0x202C, 0x202D, 0x202E} || s in {0x2066, 0x2067, 0x2068, 0x2069} || s == 0xFFFD
  }

  /** No text can put such a character on the screen: it is shown as an escape. */
  lemma ControlsAreEscaped(units: Text, s: Scalar)
    requires Disruptive(s)
    ensures s !in Show(TokensFrom(units, 0))
  {
    TokensLack(units, 0, s);
    ShowLacks(TokensFrom(units, 0), s);
  }

  const HEX_DIGITS := "0123456789ABCDEF"

  lemma EscapeReads(unit: Unit)
    ensures EscapeText(unit) == ['[' as int, 'U' as int, '+' as int, HEX_DIGITS[unit / 0x1000] as int,
                                 HEX_DIGITS[unit / 0x100 % 16] as int, HEX_DIGITS[unit / 16 % 16] as int,
                                 HEX_DIGITS[unit % 16] as int, ']' as int]
  {
    forall d: nat | d < 16 ensures HexDigit(d) == HEX_DIGITS[d] as int {}
  }

  /** A surrogate pair is shown as its scalar. */
  lemma PairShown(units: Text, i: nat, scalar: Scalar)
    requires i + 1 < |units| && 0xD800 <= units[i] <= 0xDBFF && 0xDC00 <= units[i + 1] <= 0xDFFF
    requires var (high: int, low: int) := (units[i], units[i + 1]);
      scalar as int == 0x1_0000 + (high - 0xD800) * 0x400 + (low - 0xDC00)
    ensures Show(TokensFrom(units, i)) == [scalar] + Show(TokensFrom(units, i + 2))
  {
    TokensStep(units, i);
    hide TokensFrom, Show;
    ShowStep(Token(i, i + WidthAt(units, i), GlyphAt(units, i)), TokensFrom(units, i + WidthAt(units, i)));
  }

  /** A disruptive unit, a bracket and a surrogate that is in no pair are shown as escapes. */
  lemma EscapeShown(units: Text, i: nat)
    requires i < |units| && (Disruptive(units[i]) || units[i] in {0x5B, 0x5D} || 0xD800 <= units[i] <= 0xDFFF)
    requires 0xD800 <= units[i] <= 0xDBFF && i + 1 < |units| ==> !(0xDC00 <= units[i + 1] <= 0xDFFF)
    ensures Show(TokensFrom(units, i)) == EscapeText(units[i]) + Show(TokensFrom(units, i + 1))
  {
    TokensStep(units, i);
    hide TokensFrom, Show, EscapeText;
    ShowStep(Token(i, i + WidthAt(units, i), GlyphAt(units, i)), TokensFrom(units, i + WidthAt(units, i)));
  }

  /** Every other unit is shown as itself. */
  lemma PlainShown(units: Text, i: nat)
    requires i < |units| && !Disruptive(units[i]) && units[i] !in {0x5B, 0x5D} && !(0xD800 <= units[i] <= 0xDFFF)
    ensures Show(TokensFrom(units, i)) == [units[i] as Scalar] + Show(TokensFrom(units, i + 1))
  {
    TokensStep(units, i);
    hide TokensFrom, Show;
    ShowStep(Token(i, i + WidthAt(units, i), GlyphAt(units, i)), TokensFrom(units, i + WidthAt(units, i)));
  }

  lemma ShowStep(token: Token, rest: seq<Token>)
    ensures Show([token] + rest) == GlyphText(token.glyph) + Show(rest)
  {
    assert ([token] + rest)[1..] == rest;
  }

  /** Where an elided display has its slices: the first behind a mark for what is left out
      before it, the second before a mark for what is left out behind it, and one more mark
      between them if they do not meet. */
  lemma ElidedMeaning(tokens: seq<Token>, e: Elision)
    requires InOrder(e, |tokens|)
    ensures var text := Elided(tokens, e);
      var (head, tail) := (Show(tokens[e.left..e.head]), Show(tokens[e.tail..e.right]));
      var (from, to) := (if e.left > 0 then 1 else 0, if e.right < |tokens| then |text| - 1 else |text|);
      && |text| == |head| + |tail| + from + (|text| - to) + (if e.head < e.tail then 1 else 0)
      && text[from..from + |head|] == head && text[to - |tail|..to] == tail
      && (e.left > 0 ==> text[0] == 0x2026) && (e.right < |tokens| ==> text[|text| - 1] == 0x2026)
      && (e.head < e.tail ==> text[from + |head|] == 0x2026)
  {
    hide Show;
  }

  /** In the display of a text, an ellipsis appears exactly when something is left out. */
  lemma EllipsisMeansOmission(units: Text, e: Elision)
    requires InOrder(e, |TokensFrom(units, 0)|)
    ensures var tokens := TokensFrom(units, 0);
            ELLIPSIS in Elided(tokens, e) <==> e.left != 0 || e.head < e.tail || e.right != |tokens|
    ensures ELLIPSIS !in Show(TokensFrom(units, 0))
  {
    var tokens := TokensFrom(units, 0);
    TokensLack(units, 0, ELLIPSIS);
    ShowLacks(tokens, ELLIPSIS);
    ShowLacks(tokens[e.left..e.head], ELLIPSIS);
    ShowLacks(tokens[e.tail..e.right], ELLIPSIS);
  }

  // ----- The pair of displays -----

  datatype DisplayPair = DisplayPair(before: Display, after: Display, elided: bool, hidden: bool)

  function CommonPrefix(a: Text, b: Text): (k: nat)
    ensures k <= |a| && k <= |b| && a[..k] == b[..k]
    ensures k < |a| && k < |b| ==> a[k] != b[k]
  {
    if a == [] || b == [] || a[0] != b[0] then 0 else 1 + CommonPrefix(a[1..], b[1..])
  }

  /** The common suffix, at most `limit` units long. */
  function CommonSuffix(a: Text, b: Text, limit: nat): (k: nat)
    ensures k <= limit && k <= |a| && k <= |b|
    decreases limit
  {
    if limit == 0 || a == [] || b == [] || a[|a| - 1] != b[|b| - 1] then 0
    else 1 + CommonSuffix(a[..|a| - 1], b[..|b| - 1], limit - 1)
  }

  ghost predicate RenderedSomehow(tokens: seq<Token>, rawStart: nat, rawEnd: nat, budget: nat, text: Display) {
    exists e :: Rendered(tokens, rawStart, rawEnd, budget, text, e)
  }

  /** The differing middle of `text`: after the common prefix, before the common suffix. */
  function DifferenceOf(text: Text, other: Text): (r: (nat, nat))
    ensures r.0 <= r.1 <= |text|
  {
    var prefix := CommonPrefix(text, other);
    (prefix, |text| - CommonSuffix(text, other, (if |text| < |other| then |text| else |other|) - prefix))
  }

  /** The units of `text` before `start` begin `other` too, and no longer start does; those
      from `end` on end `other` too, and behind `start` no longer end does. */
  ghost predicate IsDifference(text: Text, other: Text, start: nat, end: nat) {
    && start <= end <= |text| && start + |text| - end <= |other|
    && text[..start] == other[..start] && text[end..] == other[|other| - (|text| - end)..]
    && (start < |text| && start < |other| ==> text[start] != other[start])
    && (start < end && start + |text| - end < |other| ==> text[end - 1] != other[|other| - (|text| - end) - 1])
  }

  lemma CommonEnd(text: Text, other: Text, limit: nat)
    ensures var k := CommonSuffix(text, other, limit); text[|text| - k..] == other[|other| - k..]
  {
    SuffixMeaning(text, other, limit);
    hide CommonSuffix;
    var k := CommonSuffix(text, other, limit);
    var (mine, theirs) := (text[|text| - k..], other[|other| - k..]);
    forall i | 0 <= i < k ensures mine[i] == theirs[i] {
      assert mine[i] == text[|text| - k + i];
    }
  }

  lemma DifferenceMeaning(text: Text, other: Text)
    ensures IsDifference(text, other, DifferenceOf(text, other).0, DifferenceOf(text, other).1)
  {
    hide CommonPrefix, CommonSuffix;
    var limit := (if |text| < |other| then |text| else |other|) - CommonPrefix(text, other);
    SuffixMeaning(text, other, limit);
    CommonEnd(text, other, limit);
  }

  /** One text shown around its difference from another. */
  ghost predicate ShownAround(text: Text, other: Text, budget: nat, shown: Display) {
    exists start, end :: IsDifference(text, other, start, end) && RenderedSomehow(TokensFrom(text, 0), start, end, budget, shown)
  }

  lemma RenderedIsShown(text: Text, other: Text, budget: nat, shown: Display, e: Elision)
    requires Rendered(TokensFrom(text, 0), DifferenceOf(text, other).0, DifferenceOf(text, other).1, budget, shown, e)
    ensures ShownAround(text, other, budget, shown) && Utf16Units(shown) <= budget
    ensures 0 < budget && Cost(TokensFrom(text, 0)) <= budget ==> Decode(shown) == text
  {
    hide TokensFrom, DifferenceOf, IsDifference, Grown, Shrunk, Elided, Cost, Utf16Units, Decode;
    DecodeUndoesShow(text);
    DifferenceMeaning(text, other);
    assert RenderedSomehow(TokensFrom(text, 0), DifferenceOf(text, other).0, DifferenceOf(text, other).1, budget, shown);
  }

  lemma {:induction false} PrefixIsCommon(a: Text, b: Text)
    ensures CommonPrefix(a, b) == CommonPrefix(b, a)
  {
    if a != [] && b != [] && a[0] == b[0] {
      PrefixIsCommon(a[1..], b[1..]);
    }
  }

  lemma {:induction false} SuffixIsCommon(a: Text, b: Text, limit: nat)
    ensures CommonSuffix(a, b, limit) == CommonSuffix(b, a, limit)
    decreases limit
  {
    if limit != 0 && a != [] && b != [] && a[|a| - 1] == b[|b| - 1] {
      SuffixIsCommon(a[..|a| - 1], b[..|b| - 1], limit - 1);
    }
  }

  /** The last `k` units are the same, and no longer end is, up to the limit. */
  lemma {:induction false} SuffixMeaning(a: Text, b: Text, limit: nat)
    ensures var k := CommonSuffix(a, b, limit);
            && (forall i | |a| - k <= i < |a| :: a[i] == b[i + |b| - |a|])
            && (k < limit && k < |a| && k < |b| ==> a[|a| - 1 - k] != b[|b| - 1 - k])
    decreases limit
  {
    if limit != 0 && a != [] && b != [] && a[|a| - 1] == b[|b| - 1] {
      SuffixMeaning(a[..|a| - 1], b[..|b| - 1], limit - 1);
    }
  }

  /** Both texts around their difference. A difference can be hidden only by elision:
      if neither display is cut, different texts look different. */
  method Pair(before: Text, after: Text, budget: nat) returns (r: DisplayPair)
    ensures r.hidden <==> before != after && r.before == r.after
    ensures r.elided <==> Cost(TokensFrom(before, 0)) > budget || Cost(TokensFrom(after, 0)) > budget
    ensures r.hidden ==> r.elided
    ensures ShownAround(before, after, budget, r.before) && ShownAround(after, before, budget, r.after)
    ensures Utf16Units(r.before) <= budget && Utf16Units(r.after) <= budget
    ensures !r.elided && budget > 0 ==> Decode(r.before) == before && Decode(r.after) == after
  {
    hide Cost, Utf16Units, Decode, Rendered, TokensFrom, CommonPrefix, CommonSuffix, ShownAround;
    var prefix := CommonPrefix(before, after);
    var shorter := (if |before| < |after| then |before| else |after|) - prefix;
    var suffix := CommonSuffix(before, after, shorter);
    PrefixIsCommon(before, after);
    SuffixIsCommon(before, after, shorter);
    var left := Tokens(before);
    var right := Tokens(after);
    var elided := Cost(left) > budget || Cost(right) > budget;
    ghost var e, f;
    var shownBefore, shownAfter;
    shownBefore, e := Render(left, prefix, |before| - suffix, budget);
    shownAfter, f := Render(right, prefix, |after| - suffix, budget);
    RenderedIsShown(before, after, budget, shownBefore, e);
    RenderedIsShown(after, before, budget, shownAfter, f);
    if budget == 0 && !elided {
      NoCostNoText(before);
      NoCostNoText(after);
    }
    r := DisplayPair(shownBefore, shownAfter, elided, before != after && shownBefore == shownAfter);
  }

  lemma NoCostNoText(units: Text)
    requires Cost(TokensFrom(units, 0)) == 0
    ensures units == []
  {}

  lemma {:induction false} TokensEndWithin(units: Text, i: nat)
    ensures forall k | 0 <= k < |TokensFrom(units, i)| :: TokensFrom(units, i)[k].end <= |units|
    decreases |units| - i
  {
    if i < |units| {
      TokensEndWithin(units, i + WidthAt(units, i));
    }
  }

  /** The display ends with the end of the text, and starts as early as the budget allows. */
  ghost predicate ShowsEnd(tokens: seq<Token>, budget: nat, text: Display, left: nat) {
    && 0 < left <= |tokens| && text == [ELLIPSIS] + Show(tokens[left..])
    && Cost(tokens[left..]) + 2 <= budget < Cost(tokens[left - 1..]) + 2
  }

  lemma GrownToTheEnd(tokens: seq<Token>, budget: nat, text: Display, e: Elision)
    requires Grown(tokens, |tokens|, |tokens|, budget, e) && text == Elided(tokens, e) && budget < Cost(tokens)
    ensures ShowsEnd(tokens, budget, text, e.left)
  {
    hide Show, Cost, TokenCost;
    var kept := tokens[e.left..];
    ToTheEnd(tokens, e.left);
    ToTheEnd(tokens, |tokens|);
    if e.left > 0 {
      var more := tokens[e.left - 1..];
      assert more == [tokens[e.left - 1]] + kept;
      CostOfMore(tokens[e.left - 1], kept);
    }
    ShowNothing();
  }

  lemma ToTheEnd(tokens: seq<Token>, k: nat)
    requires k <= |tokens|
    ensures tokens[k..|tokens|] == tokens[k..] && (k == |tokens| ==> tokens[k..] == [])
  {
  }

  lemma CostOfMore(token: Token, rest: seq<Token>)
    ensures Cost([token] + rest) == TokenCost(token) + Cost(rest)
  {
    assert ([token] + rest)[1..] == rest;
  }

  lemma ShowNothing()
    ensures Show([]) == []
  {
  }

  /** The end of a text within a budget. */
  method Tail(units: Text, budget: nat) returns (text: Display)
    ensures Utf16Units(text) <= budget
    ensures 0 < budget && Cost(TokensFrom(units, 0)) <= budget ==> Decode(text) == units
    ensures 0 < budget ==> (ELLIPSIS in text <==> Cost(TokensFrom(units, 0)) > budget)
    ensures 3 <= budget < Cost(TokensFrom(units, 0)) ==> exists left :: ShowsEnd(TokensFrom(units, 0), budget, text, left)
  {
    hide Cost, Utf16Units, Decode, Elided, TokensFrom, Grown, Shrunk, ShowsEnd;
    var tokens := Tokens(units);
    ghost var e;
    text, e := Render(tokens, |units|, |units|, budget);
    DecodeUndoesShow(units);
    EllipsisMeansOmission(units, e);
    TokensEndWithin(units, 0);
    WholeSlice(tokens, |tokens|);
    if 3 <= budget < Cost(tokens) {
      assert FocusStart(tokens, |units|) == |tokens|;
      GrownToTheEnd(tokens, budget, text, e);
    }
  }
}
