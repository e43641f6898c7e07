/** Windows leaf-name validation. */
module LeafName {
  import opened Paths

  datatype LeafNameError =
    | Empty | ContainsNul | ContainsSeparator | DotComponent | InvalidCharacter
    | ReservedDeviceName | TrailingDotOrSpace | TooLong

  datatype Verdict = Accepted | Rejected(error: LeafNameError)

  predicate IsForbidden(unit: Unit) {
    unit < 32 || unit in {0x3C, 0x3E, 0x3A, 0x22, 0x7C, 0x3F, 0x2A}
  }

  function AsciiUpper(unit: Unit): Unit {
    if 0x61 <= unit <= 0x7A then unit - 0x20 else unit
  }

  predicate MatchesIgnoringCase(units: Text, expected: Text) {
    |units| == |expected| && forall i | 0 <= i < |units| :: AsciiUpper(units[i]) == AsciiUpper(expected[i])
  }

  const CON: Text := [0x43, 0x4F, 0x4E]
  const PRN: Text := [0x50, 0x52, 0x4E]
  const AUX: Text := [0x41, 0x55, 0x58]
  const NUL: Text := [0x4E, 0x55, 0x4C]
  const CLOCK: Text := [0x43, 0x4C, 0x4F, 0x43, 0x4B, 0x24]
  const COM: Text := [0x43, 0x4F, 0x4D]
  const LPT: Text := [0x4C, 0x50, 0x54]

  predicate IsNumberedDevice(stem: Text, prefix: Text) {
    && |stem| == 4 && MatchesIgnoringCase(stem[..3], prefix)
    && (0x31 <= stem[3] <= 0x39 || stem[3] == 0xB9 || stem[3] == 0xB2 || stem[3] == 0xB3)
  }

  function FirstIndex(text: Text, unit: Unit): (i: nat)
    ensures i <= |text|
  {
    if text == [] || text[0] == unit then 0 else 1 + FirstIndex(text[1..], unit)
  }

  predicate IsReservedDeviceName(units: Text) {
    var stem := units[..FirstIndex(units, DOT)];
    || MatchesIgnoringCase(stem, CON) || MatchesIgnoringCase(stem, PRN) || MatchesIgnoringCase(stem, AUX)
    || MatchesIgnoringCase(stem, NUL) || MatchesIgnoringCase(stem, CLOCK)
    || IsNumberedDevice(stem, COM) || IsNumberedDevice(stem, LPT)
  }

  /** The first violation, in the order the program looks for them. */
  function ValidateLeafName(name: Text): Verdict {
    if name == [] then Rejected(Empty)
    else if |name| > MAX_NAME_UNITS then Rejected(TooLong)
    else if name == [DOT] || name == [DOT, DOT] then Rejected(DotComponent)
    else if 0 in name then Rejected(ContainsNul)
    else if !SeparatorFree(name) then Rejected(ContainsSeparator)
    else if exists i :: 0 <= i < |name| && IsForbidden(name[i]) then Rejected(InvalidCharacter)
    else if name[|name| - 1] == DOT || name[|name| - 1] == 0x20 then Rejected(TrailingDotOrSpace)
    else if IsReservedDeviceName(name) then Rejected(ReservedDeviceName)
    else Accepted
  }

  // ----- The rules in terms of the name alone -----

  /** The text with every capital letter in either case. */
  ghost predicate Reads(text: Text, letters: string) {
    && |text| == |letters|
    && forall i | 0 <= i < |text| ::
         text[i] == letters[i] as int || ('A' <= letters[i] <= 'Z' && text[i] == letters[i] as int + 0x20)
  }

  /** A device: one of five names, or a port with a digit, three of them superscript. */
  ghost predicate NamesDevice(stem: Text) {
    || Reads(stem, "CON") || Reads(stem, "PRN") || Reads(stem, "AUX") || Reads(stem, "NUL") || Reads(stem, "CLOCK$")
    || (&& |stem| == 4 && (Reads(stem[..3], "COM") || Reads(stem[..3], "LPT"))
        && stem[3] in {0x31, 0x32, 0x33, 0x34, 0x35, 0x36, 0x37, 0x38, 0x39, 0xB9, 0xB2, 0xB3})
  }

  ghost predicate Breaks(name: Text, error: LeafNameError) {
    match error
    case Empty => name == []
    case TooLong => |name| > 255
    case DotComponent => name == [0x2E] || name == [0x2E, 0x2E]
    case ContainsNul => 0 in name
    case ContainsSeparator => 0x2F in name || 0x5C in name
    case InvalidCharacter => exists u | u in name :: u < 0x20 || u in {0x22, 0x2A, 0x3A, 0x3C, 0x3E, 0x3F, 0x7C}
    case TrailingDotOrSpace => name != [] && name[|name| - 1] in {0x20, 0x2E}
    case ReservedDeviceName =>
      exists stem, rest :: name == stem + rest && 0x2E !in stem && (rest == [] || rest[0] == 0x2E) && NamesDevice(stem)
  }

  /** The order in which the rules are looked at. */
  function Rank(error: LeafNameError): nat {
    match error
    case Empty => 0
    case TooLong => 1
    case DotComponent => 2
    case ContainsNul => 3
    case ContainsSeparator => 4
    case InvalidCharacter => 5
    case TrailingDotOrSpace => 6
    case ReservedDeviceName => 7
  }

  lemma MatchesMeaning(text: Text, expected: Text, letters: string)
    requires |expected| == |letters| && forall i | 0 <= i < |letters| :: expected[i] == letters[i] as int
    requires forall i | 0 <= i < |letters| :: !('a' <= letters[i] <= 'z')
    ensures MatchesIgnoringCase(text, expected) <==> Reads(text, letters)
  {
    if |text| == |expected| {
      forall i | 0 <= i < |text|
        ensures AsciiUpper(text[i]) == AsciiUpper(expected[i]) <==>
                text[i] == letters[i] as int || ('A' <= letters[i] <= 'Z' && text[i] == letters[i] as int + 0x20)
      {
      }
    }
  }

  lemma DeviceMeaning(stem: Text)
    ensures NamesDevice(stem) <==>
              || MatchesIgnoringCase(stem, CON) || MatchesIgnoringCase(stem, PRN) || MatchesIgnoringCase(stem, AUX)
              || MatchesIgnoringCase(stem, NUL) || MatchesIgnoringCase(stem, CLOCK)
              || IsNumberedDevice(stem, COM) || IsNumberedDevice(stem, LPT)
  {
    hide MatchesIgnoringCase, Reads;
    MatchesMeaning(stem, CON, "CON");
    MatchesMeaning(stem, PRN, "PRN");
    MatchesMeaning(stem, AUX, "AUX");
    MatchesMeaning(stem, NUL, "NUL");
    MatchesMeaning(stem, CLOCK, "CLOCK$");
    if |stem| == 4 {
      MatchesMeaning(stem[..3], COM, "COM");
      MatchesMeaning(stem[..3], LPT, "LPT");
    }
  }

  lemma {:induction false} FirstIndexMeaning(text: Text, unit: Unit)
    ensures unit !in text[..FirstIndex(text, unit)]
    ensures FirstIndex(text, unit) < |text| ==> text[FirstIndex(text, unit)] == unit
  {
    if text != [] && text[0] != unit {
      FirstIndexMeaning(text[1..], unit);
      assert text[..FirstIndex(text, unit)] == [text[0]] + text[1..][..FirstIndex(text[1..], unit)];
    }
  }

  /** The stem is what comes before the first dot, or the whole name. */
  lemma StemMeaning(name: Text, stem: Text, rest: Text)
    requires name == stem + rest && 0x2E !in stem && (rest == [] || rest[0] == 0x2E)
    ensures stem == name[..FirstIndex(name, DOT)]
  {
    var i := FirstIndex(name, DOT);
    FirstIndexMeaning(name, DOT);
    assert forall k | 0 <= k < |stem| :: name[k] == stem[k];
    assert forall k | 0 <= k < i :: name[k] == name[..i][k];
    assert rest != [] ==> name[|stem|] == rest[0];
  }

  lemma ReservedMeaning(name: Text)
    ensures IsReservedDeviceName(name) <==> Breaks(name, ReservedDeviceName)
  {
    hide NamesDevice, MatchesIgnoringCase, IsNumberedDevice;
    var i := FirstIndex(name, DOT);
    FirstIndexMeaning(name, DOT);
    DeviceMeaning(name[..i]);
    assert name == name[..i] + name[i..];
    forall stem, rest | name == stem + rest && 0x2E !in stem && (rest == [] || rest[0] == 0x2E) && NamesDevice(stem)
      ensures stem == name[..i]
    {
      StemMeaning(name, stem, rest);
    }
  }

  /** A name is accepted exactly when it breaks no rule, and is refused with the first one
      it breaks. */
  lemma ValidateMeaning(name: Text)
    ensures ValidateLeafName(name).Accepted? <==> forall error :: !Breaks(name, error)
    ensures forall error :: ValidateLeafName(name) == Rejected(error) <==>
              Breaks(name, error) && forall earlier | Rank(earlier) < Rank(error) :: !Breaks(name, earlier)
  {
    hide Breaks, IsReservedDeviceName, SeparatorFree, IsForbidden;
    ReservedMeaning(name);
    RulesMeaning(name);
    ForbiddenMeaning(name);
    forall error ensures ValidateLeafName(name).Accepted? ==> !Breaks(name, error) {
      match error
      case Empty =>
      case TooLong =>
      case DotComponent =>
      case ContainsNul =>
      case ContainsSeparator =>
      case InvalidCharacter =>
      case TrailingDotOrSpace =>
      case ReservedDeviceName =>
    }
  }

  lemma ForbiddenMeaning(name: Text)
    ensures Breaks(name, InvalidCharacter) <==> exists i :: 0 <= i < |name| && IsForbidden(name[i])
  {
    if i :| 0 <= i < |name| && IsForbidden(name[i]) {
      assert name[i] in name;
    }
    if u :| u in name && (u < 0x20 || u in {0x22, 0x2A, 0x3A, 0x3C, 0x3E, 0x3F, 0x7C}) {
      var i :| 0 <= i < |name| && name[i] == u;
      assert IsForbidden(name[i]);
    }
  }

  lemma RulesMeaning(name: Text)
    ensures Breaks(name, ContainsSeparator) <==> !SeparatorFree(name)
    ensures Breaks(name, Empty) <==> name == []
    ensures Breaks(name, TooLong) <==> |name| > MAX_NAME_UNITS
    ensures Breaks(name, DotComponent) <==> name == [DOT] || name == [DOT, DOT]
    ensures Breaks(name, ContainsNul) <==> 0 in name
    ensures Breaks(name, TrailingDotOrSpace) <==> name != [] && (name[|name| - 1] == DOT || name[|name| - 1] == 0x20)
  {
  }

  /** An accepted name below a tidy parent is a whole path component: the move
      keeps the name and leaves the row settled. */
  lemma AcceptedNameMoves(item: Item)
    requires ValidateLeafName(item.proposed).Accepted? && TidyParent(item.parent)
    ensures Moved(item).proposed == item.proposed && |item.proposed| <= MAX_NAME_UNITS
    ensures PlannedChangeKind(Moved(item)).NoChange?
  {
    TidyMoveRejoins(item.parent, item.proposed);
    MovedRowIsSettled(item);
  }
}
