/** UTF-16 texts, the rows of the workbench list, and how a row's path is taken
    apart and put together. */
module Paths {
  type Unit = u: int | 0 <= u < 0x1_0000
  type Text = seq<Unit>

  /** The longest proposed or leaf name. */
  const MAX_NAME_UNITS: nat := 255

  const BACKSLASH: Unit := 0x5C
  const SLASH: Unit := 0x2F
  const COLON: Unit := 0x3A
  const DOT: Unit := 0x2E

  predicate IsSeparator(unit: Unit) {
    unit == BACKSLASH || unit == SLASH
  }

  predicate SeparatorFree(name: Text) {
    forall i | 0 <= i < |name| :: !IsSeparator(name[i])
  }

  /** The last position holding `unit`, or -1. */
  function LastIndex(text: Text, unit: Unit): (r: int)
    ensures -1 <= r < |text|
    ensures r >= 0 ==> text[r] == unit
    ensures forall i | r < i < |text| :: text[i] != unit
  {
    if text == [] then -1
    else if text[|text| - 1] == unit then |text| - 1
    else LastIndex(text[..|text| - 1], unit)
  }

  lemma LastIndexUnique(text: Text, unit: Unit, at: nat)
    requires at < |text| && text[at] == unit
    requires forall i | at < i < |text| :: text[i] != unit
    ensures LastIndex(text, unit) == at
  {}

  /** Everything before the last backslash, which a root keeps. */
  function SourceParent(path: Text): Text {
    var i := LastIndex(path, BACKSLASH);
    if i < 0 then []
    else if i == 0 || path[i - 1] == COLON then path[..i + 1]
    else path[..i]
  }

  function PathName(path: Text): Text {
    path[LastIndex(path, BACKSLASH) + 1..]
  }

  function DestinationSeparatorUnits(parent: Text): nat {
    if parent == [] || !IsSeparator(parent[|parent| - 1]) then 1 else 0
  }

  function PlannedPathUnits(parent: Text, nameUnits: nat): nat {
    |parent| + DestinationSeparatorUnits(parent) + nameUnits
  }

  function Join(parent: Text, name: Text): (path: Text)
    ensures |path| == PlannedPathUnits(parent, |name|)
  {
    if DestinationSeparatorUnits(parent) != 0 then parent + [BACKSLASH] + name else parent + name
  }

  /** How a path is taken apart: its name is what follows the last backslash, and its
      parent what comes before, with that backslash kept after nothing or a colon. */
  lemma PiecesMeaning(head: Text, name: Text)
    requires 0x5C !in name
    ensures PathName(head + [0x5C] + name) == name
    ensures SourceParent(head + [0x5C] + name) == if head == [] || head[|head| - 1] == 0x3A then head + [0x5C] else head
    ensures PathName(name) == name && SourceParent(name) == []
  {
    var path := head + [0x5C] + name;
    LastIndexUnique(path, BACKSLASH, |head|);
    assert path[..|head| + 1] == head + [0x5C] && path[..|head|] == head && path[|head| + 1..] == name;
    assert LastIndex(name, BACKSLASH) == -1;
  }

  /** The path has a last backslash that directly follows no other separator. */
  predicate Rejoins(path: Text) {
    var i := LastIndex(path, BACKSLASH);
    i >= 0 && (i == 0 || !IsSeparator(path[i - 1]))
  }

  /** Splitting a path and planning the pieces gives the path back, or even a path
      of the same length, exactly when the path rejoins. */
  lemma SplitThenJoin(path: Text)
    ensures Join(SourceParent(path), PathName(path)) == path <==> Rejoins(path)
    ensures |Join(SourceParent(path), PathName(path))| == |path| <==> Rejoins(path)
  {
    var i := LastIndex(path, BACKSLASH);
    var parent := SourceParent(path);
    if i > 0 && path[i - 1] != COLON {
      assert parent[|parent| - 1] == path[i - 1];
      if Rejoins(path) {
        assert path == path[..i] + [BACKSLASH] + path[i + 1..];
      }
    } else if i >= 0 {
      assert parent[|parent| - 1] == BACKSLASH;
      assert path == path[..i + 1] + path[i + 1..];
    }
  }

  /** A destination parent below which any separator-free name rejoins. */
  predicate TidyParent(parent: Text) {
    parent == []
    || (parent[|parent| - 1] != SLASH
        && (parent[|parent| - 1] == BACKSLASH && |parent| > 1 ==> !IsSeparator(parent[|parent| - 2])))
  }

  /** Under a tidy parent a separator-free name survives the move, as the last
      component of a path that rejoins. */
  lemma TidyMoveRejoins(parent: Text, name: Text)
    requires TidyParent(parent) && SeparatorFree(name)
    ensures Rejoins(Join(parent, name))
    ensures PathName(Join(parent, name)) == name
  {
    var path := Join(parent, name);
    var at := if DestinationSeparatorUnits(parent) != 0 then |parent| else |parent| - 1;
    assert forall i | at < i < |path| :: path[i] == name[i - at - 1];
    LastIndexUnique(path, BACKSLASH, at);
    assert path[at + 1..] == name;
  }

  /** One row of the list. */
  datatype Item = Item(
    source: Text,
    current: Text,
    proposed: Text,
    parent: Text,
    isDirectory: bool,
    size: nat,
    actualSize: nat,
    created: nat,
    modified: nat)
  {
    function PlannedPath(): Text {
      Join(parent, proposed)
    }

    function PlannedUnits(): (units: nat)
      ensures units == |PlannedPath()|
    {
      PlannedPathUnits(parent, |proposed|)
    }
  }

  function NewItem(source: Text, isDirectory: bool, size: nat, actualSize: nat, created: nat, modified: nat): Item {
    Item(source, PathName(source), PathName(source), SourceParent(source), isDirectory, size, actualSize, created, modified)
  }

  datatype ChangeKind = NoChange | Rename | Move | MoveAndRename {
    predicate IsChanged() { !NoChange? }
    predicate Renames() { Rename? || MoveAndRename? }
  }

  /** The comparison the list makes without building the planned path. */
  predicate PlannedPathMatchesSource(item: Item) {
    var separator := DestinationSeparatorUnits(item.parent);
    && |item.source| == |item.parent| + separator + |item.proposed|
    && item.parent <= item.source
    && (separator == 0 || item.source[|item.parent|] == BACKSLASH)
    && item.source[|item.parent| + separator..] == item.proposed
  }

  function PlannedChangeKind(item: Item): ChangeKind {
    if PlannedPathMatchesSource(item) then NoChange
    else if item.current == item.proposed then Move
    else if SourceParent(item.source) == item.parent then Rename
    else MoveAndRename
  }

  lemma MatchesSourceMeaning(item: Item)
    ensures PlannedPathMatchesSource(item) <==> item.PlannedPath() == item.source
  {
    var separator := DestinationSeparatorUnits(item.parent);
    if PlannedPathMatchesSource(item) {
      var rest := item.source[|item.parent|..];
      assert item.source == item.parent + rest;
      assert rest[separator..] == item.proposed;
      assert separator == 1 ==> rest == [BACKSLASH] + rest[1..];
    }
  }

  /** What each kind of change means. A row whose name stays counts as moved even below
      its own parent. */
  lemma ChangeKindMeaning(item: Item)
    ensures var (kind, stays) := (PlannedChangeKind(item), item.PlannedPath() == item.source);
      && (kind.NoChange? <==> stays)
      && (kind.Move? <==> !stays && item.proposed == item.current)
      && (kind.Rename? <==> !stays && item.proposed != item.current && item.parent == SourceParent(item.source))
      && (kind.MoveAndRename? <==> !stays && item.proposed != item.current && item.parent != SourceParent(item.source))
      && (kind.IsChanged() <==> !stays) && (kind.Renames() <==> !stays && item.proposed != item.current)
  {
    MatchesSourceMeaning(item);
  }

  /** A new row has its own name and parent proposed, so it plans a change only if its
      source does not rejoin. */
  lemma NewRowMeaning(source: Text, isDirectory: bool, size: nat, actualSize: nat, created: nat, modified: nat)
    ensures var item := NewItem(source, isDirectory, size, actualSize, created, modified);
      && item.source == source && item.current == item.proposed && item.isDirectory == isDirectory
      && item.size == size && item.actualSize == actualSize && item.created == created && item.modified == modified
      && item.PlannedPath() == Join(SourceParent(source), PathName(source))
      && (PlannedChangeKind(item).NoChange? <==> Rejoins(source)) && (PlannedChangeKind(item).IsChanged() ==>
            PlannedChangeKind(item).Move?)
  {
    hide Rejoins, SourceParent, PathName, Join, LastIndex;
    SplitThenJoin(source);
    MatchesSourceMeaning(NewItem(source, isDirectory, size, actualSize, created, modified));
  }

  /** What a recorded move makes of a row: the planned path is its new source. */
  function Moved(item: Item): Item {
    var path := item.PlannedPath();
    item.(source := path, current := PathName(path), proposed := PathName(path), parent := SourceParent(path))
  }

  /** After a recorded move the row plans no further change, and its planned length
      is what it was, exactly when the path it moved to rejoins. */
  lemma MovedRowIsSettled(item: Item)
    ensures PlannedChangeKind(Moved(item)).NoChange? <==> Rejoins(item.PlannedPath())
    ensures Moved(item).PlannedUnits() == item.PlannedUnits() <==> Rejoins(item.PlannedPath())
  {
    SplitThenJoin(item.PlannedPath());
    MatchesSourceMeaning(Moved(item));
  }

  /** Splitting and planning the pieces adds a unit when there is no backslash, and loses
      one when the last backslash follows another separator. */
  lemma SplitUnits(path: Text)
    ensures |Join(SourceParent(path), PathName(path))|
         == |path| + if BACKSLASH !in path then 1 else if Rejoins(path) then 0 else -1
  {
    var i := LastIndex(path, BACKSLASH);
    assert BACKSLASH in path <==> i >= 0;
    SplitThenJoin(path);
    hide LastIndex, Join;
    if i >= 0 && !Rejoins(path) {
      assert SourceParent(path) == path[..i];
    }
  }

  /** What a recorded move leaves behind, when the planned path is `head` and `name` around
      its last backslash: a row with that path, that name and that parent. */
  lemma MovedPieces(item: Item, head: Text, name: Text)
    requires 0x5C !in name && item.PlannedPath() == head + [0x5C] + name
    ensures var moved := Moved(item);
      && moved.source == head + [0x5C] + name && moved.current == moved.proposed == name
      && moved.parent == (if head == [] || head[|head| - 1] == 0x3A then head + [0x5C] else head)
      && moved == item.(source := moved.source, current := name, proposed := name, parent := moved.parent)
  {
    PiecesMeaning(head, name);
  }

  /** How far the planned length is from what it was before a recorded move. */
  lemma MovedUnits(item: Item)
    ensures var path := item.PlannedPath();
      Moved(item).PlannedUnits() == item.PlannedUnits() + if BACKSLASH !in path then 1 else if Rejoins(path) then 0 else -1
  {
    hide LastIndex, Join, Rejoins, SourceParent, PathName;
    SplitUnits(item.PlannedPath());
  }

  /** Below a parent that ends in a slash and holds no backslash, the move swallows the
      parent into the name. */
  lemma SlashParentLosesTrack(item: Item)
    requires item.parent != [] && item.parent[|item.parent| - 1] == SLASH
    requires BACKSLASH !in item.parent && BACKSLASH !in item.proposed
    ensures Moved(item).parent == [] && Moved(item).proposed == item.PlannedPath() == item.parent + item.proposed
    ensures Moved(item).PlannedUnits() == item.PlannedUnits() + 1
  {
    LastIndexAppend(item.parent, item.proposed);
    MovedUnits(item);
  }

  /** A move to a name without a backslash keeps the length exactly when the parent ends
      in no separator or is itself a path that rejoins. */
  lemma ParentDecides(item: Item)
    requires BACKSLASH !in item.proposed
    ensures Rejoins(item.PlannedPath()) <==> DestinationSeparatorUnits(item.parent) == 1 || Rejoins(item.parent)
  {
    var path, parent := item.PlannedPath(), item.parent;
    assert forall i | 0 <= i < |item.proposed| :: path[|path| - |item.proposed| + i] == item.proposed[i];
    if DestinationSeparatorUnits(parent) == 1 {
      LastIndexUnique(path, BACKSLASH, |parent|);
    } else {
      LastIndexAppend(parent, item.proposed);
    }
  }

  lemma LastIndexAppend(x: Text, y: Text)
    ensures LastIndex(x + y, BACKSLASH)
         == if BACKSLASH in y then |x| + LastIndex(y, BACKSLASH) else LastIndex(x, BACKSLASH)
  {
    var path, at := x + y, if BACKSLASH in y then |x| + LastIndex(y, BACKSLASH) else LastIndex(x, BACKSLASH);
    forall k | at < k < |path| ensures path[k] != BACKSLASH {
      assert path[k] == if k < |x| then x[k] else y[k - |x|];
    }
    if at >= 0 {
      LastIndexUnique(path, BACKSLASH, at);
    }
  }

  /** The parent of a path that rejoins is tidy. */
  lemma RejoiningParentIsTidy(path: Text)
    requires Rejoins(path)
    ensures TidyParent(SourceParent(path))
  {
  }

  /** A row added with a source such as `a/\b`, whose one backslash follows a slash, plans
      the path `a/b` and is left by the move with the path `\a/b`. */
  lemma SlashSourceLosesTrack(item: Item, parent: Text, name: Text)
    requires item == NewItem(parent + [BACKSLASH] + name, item.isDirectory, item.size, item.actualSize, item.created, item.modified)
    requires parent != [] && parent[|parent| - 1] == SLASH && BACKSLASH !in parent && BACKSLASH !in name
    ensures item.PlannedPath() == parent + name && Moved(item).PlannedPath() == [BACKSLASH] + (parent + name)
  {
    hide LastIndex, SourceParent, PathName, Rejoins, Moved;
    PiecesMeaning(parent, name);
    SlashParentLosesTrack(item);
    assert Join([], parent + name) == [BACKSLASH] + (parent + name);
  }

  /** The length kept of a typed destination parent, and whether its last unit is
      a root separator to be written as a backslash. */
  function NormalizedParentLength(parent: Text): (r: (nat, bool))
    ensures r.0 <= |parent| && (r.1 ==> r.0 > 0)
  {
    var trimmed := TrimmedLength(parent);
    if trimmed == |parent| then (trimmed, false)
    else if trimmed == 0 || parent[trimmed - 1] == COLON then (trimmed + 1, true)
    else (trimmed, false)
  }

  function TrimmedLength(parent: Text): (r: nat)
    ensures r <= |parent|
    ensures forall i | r <= i < |parent| :: IsSeparator(parent[i])
    ensures r > 0 ==> !IsSeparator(parent[r - 1])
  {
    if parent == [] then 0
    else if IsSeparator(parent[|parent| - 1]) then TrimmedLength(parent[..|parent| - 1])
    else |parent|
  }

  function NormalizedParent(parent: Text): Text {
    var (length, root) := NormalizedParentLength(parent);
    if root then parent[..length - 1] + [BACKSLASH] else parent[..length]
  }

  /** Only separators at the end are cut, and one backslash stays when nothing or a colon
      comes before the cut. */
  ghost predicate IsNormalForm(parent: Text, normal: Text) {
    exists n: nat ::
      && n <= |parent| && (forall i | n <= i < |parent| :: parent[i] == 0x5C || parent[i] == 0x2F)
      && (n > 0 ==> parent[n - 1] != 0x5C && parent[n - 1] != 0x2F)
      && normal == parent[..n] + if n < |parent| && (n == 0 || parent[n - 1] == 0x3A) then [0x5C] else []
  }

  lemma NormalizedParentIsNormal(parent: Text)
    ensures IsNormalForm(parent, NormalizedParent(parent))
  {
    var n := TrimmedLength(parent);
    assert parent[..n] + [] == parent[..n];
  }

  /** A unified destination parent is always tidy, normalizing twice changes nothing
      more, and the separator count may be read before the root separator is
      rewritten. */
  lemma NormalizedParentIsTidy(parent: Text)
    ensures TidyParent(NormalizedParent(parent))
    ensures NormalizedParent(NormalizedParent(parent)) == NormalizedParent(parent)
    ensures |NormalizedParent(parent)| == NormalizedParentLength(parent).0
    ensures DestinationSeparatorUnits(NormalizedParent(parent))
         == DestinationSeparatorUnits(parent[..NormalizedParentLength(parent).0])
  {
    var trimmed := TrimmedLength(parent);
    var (length, root) := NormalizedParentLength(parent);
    var normal := NormalizedParent(parent);
    if root {
      assert normal[..trimmed] == parent[..trimmed];
      assert TrimmedLength(normal) == trimmed by {
        assert normal[..|normal| - 1] == parent[..trimmed];
      }
    } else {
      assert normal == parent[..trimmed];
      assert TrimmedLength(normal) == trimmed;
    }
  }
}
