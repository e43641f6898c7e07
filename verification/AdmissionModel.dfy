/** What source admission is asked and what an issue-free answer must be: the path
    budget, one candidate's examination, and the recursive listing of the roots. */
module AdmissionModel {
  import opened Machine
  import opened Orders
  import opened Paths
  import opened Wrappers

  const MAX_ADMITTED_SOURCES: nat := 10_000
  const MAX_ADMISSION_DEPTH: nat := 256
  const MAX_ADMITTED_PATH_BYTES: nat := 4 * 1024 * 1024

  type Path = Text

  datatype Outcome<T> = Ok(value: T) | Err(fault: Fault)

  datatype Operation = Validation | MetadataRead | DirectoryRead

  datatype Fault = Fault(operation: Operation, code: Option<nat>)

  datatype Mode = Direct | Recurse

  datatype Metadata = Metadata(
    isDirectory: bool,
    isReparsePoint: bool,
    directoryIdentity: Option<nat>,
    actualSize: nat,
    created: nat,
    modified: nat)

  datatype ReadBudget = ReadBudget(pathLimit: nat, remainingPathBytes: nat)

  datatype Children = Children(paths: seq<Path>, hadErrors: bool, truncated: bool, pathBudgetExhausted: bool)

  datatype Adapter = Adapter(
    isAbsolute: Path -> bool,
    validate: Path -> Option<Fault>,
    metadata: Path -> Outcome<Metadata>,
    readChildren: (Path, ReadBudget) -> Outcome<Children>,
    legacyPath: Path -> Text,
    units: Path -> nat)

  datatype IssueKind =
    | RelativePath
    | MetadataIssue
    | ReadDirectory
    | ReparsePoint
    | LimitReached
    | RepeatedDirectory
    | DepthExceeded
    | PathBudgetExceeded

  datatype Issue = Issue(path: Path, kind: IssueKind, fault: Option<Fault>)

  datatype Report = Report(items: seq<Item>, issues: seq<Issue>)

  datatype Reservation = Reserved | Exhausted

  /** The aggregate source-path budget. A refusal uses up everything that was left. */
  class PathBudget {
    var remainingBytes: nat

    constructor ()
      ensures remainingBytes == MAX_ADMITTED_PATH_BYTES
    {
      remainingBytes := MAX_ADMITTED_PATH_BYTES;
    }

    constructor FromRemainingBytes(bytes: nat)
      ensures remainingBytes == Min(bytes, MAX_ADMITTED_PATH_BYTES)
    {
      remainingBytes := if bytes < MAX_ADMITTED_PATH_BYTES then bytes else MAX_ADMITTED_PATH_BYTES;
    }

    method ReserveUtf16Units(units: nat) returns (r: Reservation)
      requires remainingBytes <= MAX_ADMITTED_PATH_BYTES
      modifies this
      ensures r.Reserved? <==> 2 * units <= old(remainingBytes)
      ensures remainingBytes == if r.Reserved? then old(remainingBytes) - 2 * units else 0
    {
      if units * 2 > MAX_USIZE {
        remainingBytes := 0;
        return Exhausted;
      }
      var bytes := units * 2;
      if bytes > remainingBytes {
        remainingBytes := 0;
        return Exhausted;
      }
      remainingBytes := remainingBytes - bytes;
      return Reserved;
    }
  }

  // ----- One candidate -----

  datatype Verdict =
    | Refuse(kind: IssueKind, fault: Option<Fault>, seen: set<nat>)
    | Expand(seen: set<nat>)
    | Admit(metadata: Metadata, seen: set<nat>)

  function IdentityOf(m: Metadata): Option<nat> {
    if m.isDirectory then m.directoryIdentity else None
  }

  predicate WasSeen(seen: set<nat>, m: Metadata) {
    IdentityOf(m).Some? && IdentityOf(m).value in seen
  }

  function SeenAfter(seen: set<nat>, m: Metadata): set<nat> {
    if IdentityOf(m).Some? then seen + {IdentityOf(m).value} else seen
  }

  /** A directory's identity is noted before its depth is judged. */
  function ExamineEntry(mode: Mode, seen: set<nat>, depth: nat, m: Metadata): Verdict {
    if m.isReparsePoint then Refuse(ReparsePoint, None, seen)
    else if WasSeen(seen, m) then Refuse(RepeatedDirectory, None, seen)
    else if m.isDirectory && mode.Recurse? then
      if depth >= MAX_ADMISSION_DEPTH then Refuse(DepthExceeded, None, SeenAfter(seen, m)) else Expand(SeenAfter(seen, m))
    else Admit(m, SeenAfter(seen, m))
  }

  /** What becomes of one candidate before any directory is read. */
  function Examine(a: Adapter, mode: Mode, seen: set<nat>, path: Path, depth: nat): Verdict {
    if !a.isAbsolute(path) then Refuse(RelativePath, None, seen)
    else if a.validate(path).Some? then Refuse(MetadataIssue, a.validate(path), seen)
    else match a.metadata(path)
      case Err(fault) => Refuse(MetadataIssue, Some(fault), seen)
      case Ok(m) => ExamineEntry(mode, seen, depth, m)
  }

  function ItemOf(a: Adapter, path: Path, m: Metadata): Item {
    NewItem(a.legacyPath(path), m.isDirectory, m.actualSize % 0x1_0000_0000, m.actualSize, m.created, m.modified)
  }

  /** The row of a path, field by field. The size is kept whole and cut to 32 bits. */
  ghost predicate Describes(item: Item, a: Adapter, path: Path, m: Metadata) {
    && item.source == a.legacyPath(path) && item.isDirectory == m.isDirectory
    && item.size == m.actualSize % 0x1_0000_0000 && item.actualSize == m.actualSize
    && item.created == m.created && item.modified == m.modified
    && item.current == item.proposed == PathName(item.source) && item.parent == SourceParent(item.source)
  }

  lemma DescribesItem(a: Adapter, path: Path, m: Metadata)
    ensures Describes(ItemOf(a, path, m), a, path, m)
  {
  }

  // ----- The listing an issue-free report must equal -----

  /** The stable sort; for a total preorder there is exactly one. */
  ghost function SortedOf(cmp: Comparator<Path>, s: seq<Path>): seq<Path> {
    if exists t :: StableSortOf(cmp, s, t) then (var t :| StableSortOf(cmp, s, t); t) else s
  }

  lemma SortedOfIs(cmp: Comparator<Path>, s: seq<Path>, t: seq<Path>)
    requires TotalPreorder(cmp) && StableSortOf(cmp, s, t)
    ensures SortedOf(cmp, s) == t
  {
    PreorderEverywhere(cmp, s);
    StableSortMeaning(cmp, s, SortedOf(cmp, s), t);
  }

  /** The filesystem as a tree, and how it is asked to be listed. */
  datatype Scene = Scene(a: Adapter, mode: Mode, cmp: Comparator<Path>, tree: Path -> seq<Path>)

  /** A read of this path that flags nothing returned the whole directory. */
  ghost predicate HonestAt(s: Scene, path: Path) {
    forall budget ::
      var r := s.a.readChildren(path, budget);
      r.Ok? && !r.value.hadErrors && !r.value.truncated && !r.value.pathBudgetExhausted ==> r.value.paths == s.tree(path)
  }

  ghost predicate Honest(s: Scene) {
    forall path :: HonestAt(s, path)
  }

  /** Listings one after the other; one refused candidate spoils the whole. */
  function Plus(x: Option<seq<Item>>, y: Option<seq<Item>>): Option<seq<Item>> {
    if x.Some? && y.Some? then Some(x.value + y.value) else None
  }

  lemma PlusNothing(x: Option<seq<Item>>)
    ensures Plus(Some([]), x) == x && Plus(x, Some([])) == x
  {
    if x.Some? {
      assert [] + x.value == x.value && x.value + [] == x.value;
    }
  }

  lemma PlusAssociates(x: Option<seq<Item>>, y: Option<seq<Item>>, z: Option<seq<Item>>)
    ensures Plus(Plus(x, y), z) == Plus(x, Plus(y, z))
  {
    if x.Some? && y.Some? && z.Some? {
      assert x.value + y.value + z.value == x.value + (y.value + z.value);
    }
  }

  /** The rows of one candidate, or nothing if it or something below it must be refused. */
  ghost function Listing(s: Scene, path: Path, depth: nat): Option<seq<Item>>
    requires depth <= MAX_ADMISSION_DEPTH
    decreases MAX_ADMISSION_DEPTH - depth, 0
  {
    if !s.a.isAbsolute(path) || s.a.validate(path).Some? then None
    else match s.a.metadata(path)
      case Err(_) => None
      case Ok(m) =>
        if m.isReparsePoint then None
        else if m.isDirectory && s.mode.Recurse? then
          if depth == MAX_ADMISSION_DEPTH then None else ListAll(s, SortedOf(s.cmp, s.tree(path)), depth + 1)
        else Some([ItemOf(s.a, path, m)])
  }

  /** Depth first, siblings in the given order. */
  ghost function ListAll(s: Scene, paths: seq<Path>, depth: nat): Option<seq<Item>>
    requires depth <= MAX_ADMISSION_DEPTH
    decreases MAX_ADMISSION_DEPTH - depth, 1 + |paths|
  {
    if paths == [] then Some([]) else Plus(Listing(s, paths[0], depth), ListAll(s, paths[1..], depth))
  }

  ghost predicate FilesOnly(items: seq<Item>) {
    forall i | 0 <= i < |items| :: !items[i].isDirectory
  }

  /** A recursive listing holds files only. */
  lemma {:induction false} RecurseListsFiles(s: Scene, path: Path, depth: nat)
    requires s.mode.Recurse? && depth <= MAX_ADMISSION_DEPTH
    ensures Listing(s, path, depth).Some? ==> FilesOnly(Listing(s, path, depth).value)
    decreases MAX_ADMISSION_DEPTH - depth, 0
  {
    if s.a.metadata(path).Ok? && s.a.metadata(path).value.isDirectory && depth < MAX_ADMISSION_DEPTH {
      RecurseListsAllFiles(s, SortedOf(s.cmp, s.tree(path)), depth + 1);
    }
  }

  lemma {:induction false} RecurseListsAllFiles(s: Scene, paths: seq<Path>, depth: nat)
    requires s.mode.Recurse? && depth <= MAX_ADMISSION_DEPTH
    ensures ListAll(s, paths, depth).Some? ==> FilesOnly(ListAll(s, paths, depth).value)
    decreases MAX_ADMISSION_DEPTH - depth, 1 + |paths|
  {
    if paths != [] {
      RecurseListsFiles(s, paths[0], depth);
      RecurseListsAllFiles(s, paths[1..], depth);
    }
  }

  ghost predicate RowPerPath(a: Adapter, paths: seq<Path>, items: seq<Item>) {
    && |items| == |paths|
    && forall i | 0 <= i < |paths| :: a.metadata(paths[i]).Ok? && Describes(items[i], a, paths[i], a.metadata(paths[i]).value)
  }

  /** A direct listing is one row per root, in order. */
  lemma {:induction false} DirectListsRoots(s: Scene, paths: seq<Path>)
    requires s.mode.Direct? && ListAll(s, paths, 0).Some?
    ensures RowPerPath(s.a, paths, ListAll(s, paths, 0).value)
  {
    hide ItemOf, Describes, SortedOf;
    if paths != [] {
      var (m, rest) := (s.a.metadata(paths[0]).value, ListAll(s, paths[1..], 0).value);
      DirectListsRoots(s, paths[1..]);
      DescribesItem(s.a, paths[0], m);
      assert ListAll(s, paths, 0).value == [ItemOf(s.a, paths[0], m)] + rest;
    }
  }

  // ----- Sizes -----

  function PathBytes(a: Adapter, paths: seq<Path>): nat {
    if paths == [] then 0 else 2 * a.units(paths[0]) + PathBytes(a, paths[1..])
  }

  lemma {:induction false} PathBytesAppend(a: Adapter, x: seq<Path>, y: seq<Path>)
    ensures PathBytes(a, x + y) == PathBytes(a, x) + PathBytes(a, y)
  {
    if x == [] {
      assert x + y == y;
    } else {
      assert (x + y)[1..] == x[1..] + y;
      PathBytesAppend(a, x[1..], y);
    }
  }

  lemma WithoutOne(x: seq<Path>, y: seq<Path>, k: nat)
    requires multiset(x) == multiset(y) && x != [] && k < |y| && y[k] == x[0]
    ensures multiset(x[1..]) == multiset(y[..k] + y[k + 1..])
  {
    TakenOut(y, k);
    assert x == [x[0]] + x[1..];
    assert multiset(x[1..]) == multiset(x) - multiset{x[0]};
    assert multiset(y[..k] + y[k + 1..]) == multiset(y) - multiset{y[k]};
  }

  /** The same paths in another order measure the same. */
  lemma {:induction false} PathBytesReordered(a: Adapter, x: seq<Path>, y: seq<Path>)
    requires multiset(x) == multiset(y)
    ensures PathBytes(a, x) == PathBytes(a, y)
  {
    if x == [] {
      assert |multiset(y)| == |y|;
    } else {
      assert x[0] in multiset(x);
      var k :| 0 <= k < |y| && y[k] == x[0];
      WithoutOne(x, y, k);
      PathBytesReordered(a, x[1..], y[..k] + y[k + 1..]);
      PathBytesAppend(a, y[..k], y[k..]);
      PathBytesAppend(a, y[..k], y[k + 1..]);
      assert y == y[..k] + y[k..];
    }
  }

  lemma PrefixBytes(a: Adapter, paths: seq<Path>, count: nat)
    requires count <= |paths|
    ensures PathBytes(a, paths[..count]) <= PathBytes(a, paths)
  {
    PathBytesAppend(a, paths[..count], paths[count..]);
    assert paths == paths[..count] + paths[count..];
  }

  /** How many of the paths, from the first on, fit the bytes together. */
  function FittingPrefix(a: Adapter, paths: seq<Path>, limit: nat): (k: nat)
    ensures k <= |paths|
  {
    if paths == [] || 2 * a.units(paths[0]) > limit then 0
    else 1 + FittingPrefix(a, paths[1..], limit - 2 * a.units(paths[0]))
  }

  /** It is the longest prefix that fits. */
  lemma {:induction false} FittingPrefixMeaning(a: Adapter, paths: seq<Path>, limit: nat)
    ensures var k := FittingPrefix(a, paths, limit);
            && PathBytes(a, paths[..k]) <= limit
            && (k < |paths| ==> PathBytes(a, paths[..k + 1]) > limit)
            && (k == |paths| <==> PathBytes(a, paths) <= limit)
  {
    if paths != [] {
      var rest := paths[1..];
      if 2 * a.units(paths[0]) > limit {
        assert paths[..1][1..] == [];
      } else {
        FittingPrefixMeaning(a, rest, limit - 2 * a.units(paths[0]));
        var k := FittingPrefix(a, rest, limit - 2 * a.units(paths[0]));
        assert paths[..k + 1][1..] == rest[..k];
        if k < |rest| {
          assert paths[..k + 2][1..] == rest[..k + 1];
        }
      }
    }
  }

  /** A read cut down to the count and the bytes, every cut flagged. */
  function Bounded(a: Adapter, read: Children, budget: ReadBudget): Children {
    var within := if |read.paths| > budget.pathLimit then read.paths[..budget.pathLimit] else read.paths;
    var kept := FittingPrefix(a, within, budget.remainingPathBytes);
    Children(within[..kept], read.hadErrors, read.truncated || |read.paths| > budget.pathLimit,
             read.pathBudgetExhausted || kept < |within|)
  }

  /** It holds the first paths of the read, within both limits, and all of them when
      nothing was cut. */
  lemma BoundedMeaning(a: Adapter, read: Children, budget: ReadBudget)
    ensures var children := Bounded(a, read, budget);
            && children.paths <= read.paths && |children.paths| <= budget.pathLimit
            && PathBytes(a, children.paths) <= budget.remainingPathBytes
            && (children.pathBudgetExhausted ==> read.pathBudgetExhausted || PathBytes(a, read.paths) > budget.remainingPathBytes)
    ensures var fits := |read.paths| <= budget.pathLimit && PathBytes(a, read.paths) <= budget.remainingPathBytes;
            && (fits ==> Bounded(a, read, budget) == read)
            && (!fits ==> Bounded(a, read, budget).truncated || Bounded(a, read, budget).pathBudgetExhausted)
  {
    hide PathBytes, FittingPrefix;
    var within := if |read.paths| > budget.pathLimit then read.paths[..budget.pathLimit] else read.paths;
    var kept := FittingPrefix(a, within, budget.remainingPathBytes);
    FittingPrefixMeaning(a, within, budget.remainingPathBytes);
    if |read.paths| > budget.pathLimit {
      PrefixBytes(a, read.paths, budget.pathLimit);
    }
    if kept < |within| {
      PrefixBytes(a, within, kept + 1);
    } else {
      assert within[..kept] == within;
    }
  }

  function ItemBytes(items: seq<Item>): nat {
    if items == [] then 0 else ItemBytes(items[..|items| - 1]) + 2 * |items[|items| - 1].source|
  }
}
