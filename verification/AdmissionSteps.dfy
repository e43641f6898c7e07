/** What each step of an admission run does, said in terms of the adapter's answers, the
    run so far and the numbers of the program, and not through the functions the walk is
    made of. */
module AdmissionSteps {
  import opened Machine
  import opened Orders
  import opened AdmissionModel
  import opened AdmissionWalk
  import opened AdmissionRun
  import opened Wrappers

  // ----- Directories met before -----

  /** The candidate is a directory with this identity that passed the checks before that. */
  ghost predicate Notes(s: Scene, w: Walk, identity: nat) {
    && w.stack != [] && s.a.isAbsolute(Top(w).path) && s.a.validate(Top(w).path) == None
    && s.a.metadata(Top(w).path).Ok?
    && var m := s.a.metadata(Top(w).path).value;
       !m.isReparsePoint && m.isDirectory && m.directoryIdentity == Some(identity)
  }

  ghost predicate NotedBefore(s: Scene, run: seq<Point>, k: nat, identity: nat) {
    exists j: nat :: j < k && j < |run| && Notes(s, run[j].walk, identity)
  }

  lemma SeenStep(s: Scene, capacity: nat, p: Point, q: Point, identity: nat)
    requires Steps(s, capacity, p, q)
    ensures identity in q.walk.seen <==> identity in p.walk.seen || Notes(s, p.walk, identity)
  {
    hide Flags, Bounded, SortedPaths, RoomFor, PushedTotal, Pushed, Popped;
  }

  /** The walk has seen exactly the identities noted before. */
  lemma {:induction false} SeenExactly(s: Scene, roots: seq<Path>, capacity: nat, budget: nat, run: seq<Point>, k: nat, identity: nat)
    requires IsRun(s, roots, capacity, budget, run) && k < |run|
    ensures identity in run[k].walk.seen <==> NotedBefore(s, run, k, identity)
  {
    hide Steps, Notes;
    if k > 0 {
      SeenExactly(s, roots, capacity, budget, run, k - 1, identity);
      NotStoppedBefore(s, roots, capacity, budget, run, k - 1);
      SeenStep(s, capacity, run[k - 1], run[k], identity);
    }
  }

  // ----- The step -----

  ghost function Rest(w: Walk): seq<Frame>
    requires w.stack != []
  {
    w.stack[..|w.stack| - 1]
  }

  /** The candidate goes, and all that stays of it are these issues. */
  ghost predicate Leaves(p: Point, q: Point, issues: seq<Issue>)
    requires p.walk.stack != []
  {
    && q.walk.stack == Rest(p.walk) && q.walk.items == p.walk.items && q.walk.issues == p.walk.issues + issues
    && q.remaining == p.remaining && !q.stopped
  }

  /** The walk ends here. */
  ghost predicate Ends(p: Point, q: Point, issue: Issue) {
    q.walk.items == p.walk.items && q.walk.issues == p.walk.issues + [issue] && q.stopped
  }

  /** A row is added and its bytes are taken. */
  ghost predicate Adds(s: Scene, p: Point, q: Point, path: Path, m: Metadata, bytes: nat)
    requires p.walk.stack != []
  {
    && q.walk.stack == Rest(p.walk) && q.walk.issues == p.walk.issues
    && |q.walk.items| == |p.walk.items| + 1 && q.walk.items[..|p.walk.items|] == p.walk.items
    && Describes(q.walk.items[|p.walk.items|], s.a, path, m)
    && q.remaining + bytes == p.remaining && !q.stopped
  }

  /** How many of the paths are kept: as many as the room allows. */
  ghost predicate Keeps(a: Adapter, paths: seq<Path>, room: ReadBudget, n: nat) {
    && n <= |paths| && n <= room.pathLimit && PathBytes(a, paths[..n]) <= room.remainingPathBytes
    && (n < |paths| && n < room.pathLimit ==> PathBytes(a, paths[..n + 1]) > room.remainingPathBytes)
  }

  /** The issues of a read of which `n` paths are kept. */
  ghost function ReadIssues(path: Path, read: Children, room: ReadBudget, n: nat): seq<Issue> {
    (if read.hadErrors then [Issue(path, ReadDirectory, None)] else [])
    + (if read.truncated || |read.paths| > room.pathLimit then [Issue(path, LimitReached, None)] else [])
    + if read.pathBudgetExhausted || (n < |read.paths| && n < room.pathLimit) then [Issue(path, PathBudgetExceeded, None)] else []
  }

  /** On top of the stack lie the paths one level deeper, the first of them uppermost. */
  ghost predicate LiesOn(below: seq<Frame>, sorted: seq<Path>, depth: nat, stack: seq<Frame>) {
    && |stack| == |below| + |sorted| && stack[..|below|] == below
    && forall i | 0 <= i < |sorted| ::
         stack[|stack| - 1 - i].path == sorted[i] && stack[|stack| - 1 - i].depth == depth
  }

  ghost predicate OpensTo(s: Scene, p: Point, q: Point, path: Path, depth: nat, read: Children, room: ReadBudget, n: nat,
                          sorted: seq<Path>)
    requires p.walk.stack != []
  {
    && Keeps(s.a, read.paths, room, n) && SortedPaths(s.cmp, read.paths[..n], sorted)
    && LiesOn(Rest(p.walk), sorted, depth + 1, q.walk.stack)
    && q.walk.items == p.walk.items && q.walk.issues == p.walk.issues + ReadIssues(path, read, room, n)
    && q.remaining == p.remaining && !q.stopped
  }

  ghost predicate Opens(s: Scene, p: Point, q: Point, path: Path, depth: nat, read: Children, room: ReadBudget)
    requires p.walk.stack != []
  {
    exists n, sorted :: OpensTo(s, p, q, path, depth, read, room, n, sorted)
  }

  /** The candidate on top of the stack has this metadata. */
  ghost predicate EntryIs(s: Scene, capacity: nat, run: seq<Point>, k: nat, m: Metadata)
    requires k + 1 < |run| && run[k].walk.stack != []
  {
    var (p, q) := (run[k], run[k + 1]);
    var (path, depth, bytes) := (Top(p.walk).path, Top(p.walk).depth, 2 * |s.a.legacyPath(Top(p.walk).path)|);
    if m.isReparsePoint then Leaves(p, q, [Issue(path, ReparsePoint, None)])
    else if m.isDirectory && m.directoryIdentity.Some? && NotedBefore(s, run, k, m.directoryIdentity.value) then
      Leaves(p, q, [Issue(path, RepeatedDirectory, None)])
    else if m.isDirectory && s.mode.Recurse? then
      if depth >= 256 then Leaves(p, q, [Issue(path, DepthExceeded, None)])
      else if p.walk.inspected + |p.walk.stack| >= capacity then Ends(p, q, Issue(path, LimitReached, None))
      else
        match s.a.readChildren(path, RoomFor(capacity, p.walk, p.remaining))
        case Err(fault) => Leaves(p, q, [Issue(path, ReadDirectory, Some(fault))])
        case Ok(read) => Opens(s, p, q, path, depth, read, RoomFor(capacity, p.walk, p.remaining))
    else if bytes > p.remaining then Ends(p, q, Issue(path, PathBudgetExceeded, None))
    else Adds(s, p, q, path, m, bytes)
  }

  ghost predicate StepIs(s: Scene, capacity: nat, run: seq<Point>, k: nat)
    requires k + 1 < |run| && run[k].walk.stack != []
  {
    var (p, q) := (run[k], run[k + 1]);
    var path := Top(p.walk).path;
    && q.walk.inspected == p.walk.inspected + 1
    && if !s.a.isAbsolute(path) then Leaves(p, q, [Issue(path, RelativePath, None)])
       else if s.a.validate(path).Some? then Leaves(p, q, [Issue(path, MetadataIssue, s.a.validate(path))])
       else
         match s.a.metadata(path)
         case Err(fault) => Leaves(p, q, [Issue(path, MetadataIssue, Some(fault))])
         case Ok(m) => EntryIs(s, capacity, run, k, m)
  }

  lemma BoundedKeeps(a: Adapter, path: Path, read: Children, room: ReadBudget) returns (n: nat)
    ensures Keeps(a, read.paths, room, n)
    ensures Bounded(a, read, room).paths == read.paths[..n]
    ensures Flags(path, Bounded(a, read, room)) == ReadIssues(path, read, room, n)
  {
    var within := if |read.paths| > room.pathLimit then read.paths[..room.pathLimit] else read.paths;
    n := FittingPrefix(a, within, room.remainingPathBytes);
    FittingPrefixMeaning(a, within, room.remainingPathBytes);
    hide PathBytes, FittingPrefix;
    assert within[..n] == read.paths[..n];
    if n < |within| {
      assert within[..n + 1] == read.paths[..n + 1];
    }
  }

  lemma PushedLiesOn(a: Adapter, below: seq<Frame>, sorted: seq<Path>, depth: nat)
    ensures LiesOn(below, sorted, depth, below + Pushed(a, sorted, depth))
  {
    hide Pushed;
  }

  lemma OpenedOpens(s: Scene, capacity: nat, p: Point, seen: set<nat>, sorted: seq<Path>, read: Children)
    requires p.walk.stack != [] && VerdictAt(s, p.walk) == Expand(seen) && RoomFor(capacity, p.walk, p.remaining).pathLimit > 0
    requires s.a.readChildren(Top(p.walk).path, RoomFor(capacity, p.walk, p.remaining)) == Ok(read)
    requires SortedPaths(s.cmp, ChildrenAt(s, capacity, p), sorted)
    ensures Opens(s, p, Opened(s, capacity, p, seen, sorted), Top(p.walk).path, Top(p.walk).depth, read,
                  RoomFor(capacity, p.walk, p.remaining))
  {
    hide Examine, Bounded, Flags, Keeps, ReadIssues, LiesOn, SortedPaths, Pushed, PushedTotal, RoomFor;
    var (path, depth, room) := (Top(p.walk).path, Top(p.walk).depth, RoomFor(capacity, p.walk, p.remaining));
    var n := BoundedKeeps(s.a, path, read, room);
    PushedLiesOn(s.a, Rest(p.walk), sorted, depth + 1);
    assert OpensTo(s, p, Opened(s, capacity, p, seen, sorted), path, depth, read, room, n, sorted);
  }

  lemma RoomLeft(capacity: nat, w: Walk, remaining: nat)
    requires w.stack != []
    ensures RoomFor(capacity, w, remaining).pathLimit == 0 <==> w.inspected + |w.stack| >= capacity
  {
  }

  lemma OpenedIs(s: Scene, capacity: nat, run: seq<Point>, k: nat, m: Metadata, seen: set<nat>, sorted: seq<Path>)
    requires k + 1 < |run| && run[k].walk.stack != [] && VerdictAt(s, run[k].walk) == Expand(seen)
    requires s.a.metadata(Top(run[k].walk).path) == Ok(m) && run[k + 1] == Opened(s, capacity, run[k], seen, sorted)
    requires SortedPaths(s.cmp, ChildrenAt(s, capacity, run[k]), sorted)
    requires m.directoryIdentity.Some? ==>
               (m.directoryIdentity.value in run[k].walk.seen <==> NotedBefore(s, run, k, m.directoryIdentity.value))
    ensures EntryIs(s, capacity, run, k, m)
  {
    var (p, q) := (run[k], run[k + 1]);
    ExpandMeaning(s, p.walk, m, seen);
    hide Examine, SortedPaths, Opens, NotedBefore, RoomFor, Flags, Bounded, PushedTotal, Pushed, ChildrenAt;
    RoomLeft(capacity, p.walk, p.remaining);
    match s.a.readChildren(Top(p.walk).path, RoomFor(capacity, p.walk, p.remaining))
    case Err(_) =>
    case Ok(read) =>
      if RoomFor(capacity, p.walk, p.remaining).pathLimit > 0 {
        OpenedOpens(s, capacity, p, seen, sorted, read);
      }
  }

  lemma ExpandMeaning(s: Scene, w: Walk, m: Metadata, seen: set<nat>)
    requires w.stack != [] && VerdictAt(s, w) == Expand(seen) && s.a.metadata(Top(w).path) == Ok(m)
    ensures !m.isReparsePoint && m.isDirectory && s.mode.Recurse? && Top(w).depth < 256
    ensures m.directoryIdentity.Some? ==> m.directoryIdentity.value !in w.seen
  {
  }

  /** What the walk has seen at this step is what was noted before. */
  ghost predicate SeenIsNoted(s: Scene, run: seq<Point>, k: nat)
    requires k < |run|
  {
    forall identity :: identity in run[k].walk.seen <==> NotedBefore(s, run, k, identity)
  }

  lemma RefusedIs(s: Scene, capacity: nat, run: seq<Point>, k: nat, sorted: seq<Path>)
    requires k + 1 < |run| && run[k].walk.stack != [] && VerdictAt(s, run[k].walk).Refuse? && SeenIsNoted(s, run, k)
    requires run[k + 1] == Stepped(s, capacity, run[k], sorted)
    ensures StepIs(s, capacity, run, k)
  {
    hide NotedBefore, Opened, Admitted, Opens, Adds, RoomFor;
  }

  lemma AdmittedIs(s: Scene, capacity: nat, run: seq<Point>, k: nat, sorted: seq<Path>)
    requires k + 1 < |run| && run[k].walk.stack != [] && VerdictAt(s, run[k].walk).Admit? && SeenIsNoted(s, run, k)
    requires run[k + 1] == Stepped(s, capacity, run[k], sorted)
    ensures StepIs(s, capacity, run, k)
  {
    hide NotedBefore, Opened, Opens, ItemOf, Describes, RoomFor;
    DescribesItem(s.a, Top(run[k].walk).path, VerdictAt(s, run[k].walk).metadata);
  }

  lemma ExpandedIs(s: Scene, capacity: nat, run: seq<Point>, k: nat, sorted: seq<Path>)
    requires k + 1 < |run| && run[k].walk.stack != [] && VerdictAt(s, run[k].walk).Expand? && SeenIsNoted(s, run, k)
    requires run[k + 1] == Stepped(s, capacity, run[k], sorted) && SortedPaths(s.cmp, ChildrenAt(s, capacity, run[k]), sorted)
    ensures StepIs(s, capacity, run, k)
  {
    hide NotedBefore, Opened, ChildrenAt, SortedPaths, EntryIs, RoomFor;
    var path := Top(run[k].walk).path;
    OpenedAdvances(s, capacity, run[k], sorted);
    OpenedIs(s, capacity, run, k, s.a.metadata(path).value, VerdictAt(s, run[k].walk).seen, sorted);
  }

  /** Every step of every run is the step described. */
  lemma StepMeaning(s: Scene, roots: seq<Path>, capacity: nat, budget: nat, run: seq<Point>, k: nat)
    requires IsRun(s, roots, capacity, budget, run) && k + 1 < |run|
    ensures run[k].walk.stack != [] && StepIs(s, capacity, run, k)
  {
    hide IsRun, SortedPaths, ChildrenAt, NotedBefore, Stepped, StepIs, Examine;
    NotStoppedBefore(s, roots, capacity, budget, run, k);
    var p := run[k];
    var sorted :| SortedPaths(s.cmp, ChildrenAt(s, capacity, p), sorted) && run[k + 1] == Stepped(s, capacity, p, sorted);
    forall identity ensures identity in p.walk.seen <==> NotedBefore(s, run, k, identity) {
      SeenExactly(s, roots, capacity, budget, run, k, identity);
    }
    match VerdictAt(s, p.walk)
    case Expand(_) => ExpandedIs(s, capacity, run, k, sorted);
    case Admit(_, _) => AdmittedIs(s, capacity, run, k, sorted);
    case Refuse(_, _, _) => RefusedIs(s, capacity, run, k, sorted);
  }

  lemma OpenedAdvances(s: Scene, capacity: nat, p: Point, sorted: seq<Path>)
    requires p.walk.stack != []
    ensures Stepped(s, capacity, p, sorted).walk.inspected == p.walk.inspected + 1
  {
    hide Examine, Flags, Bounded, RoomFor, PushedTotal, Pushed;
  }

  /** How a run begins: the first roots the capacity allows, sorted, and an issue for the
      first root beyond it. */
  lemma StartMeaning(s: Scene, roots: seq<Path>, capacity: nat, budget: nat, run: seq<Point>)
    requires IsRun(s, roots, capacity, budget, run)
    ensures var (p, n) := (run[0], if |roots| > capacity then capacity else |roots|);
      && p.walk.items == [] && p.walk.inspected == 0 && p.remaining == budget && !p.stopped
      && p.walk.issues == (if |roots| > capacity then [Issue(roots[capacity], LimitReached, None)] else [])
      && exists sorted :: SortedPaths(s.cmp, roots[..n], sorted) && LiesOn([], sorted, 0, p.walk.stack)
  {
    hide SortedPaths, Steps, PushedTotal, LiesOn;
    var sorted :| SortedPaths(s.cmp, KeptRoots(roots, capacity), sorted) && run[0] == StartPoint(s, roots, capacity, budget, sorted);
    PushedLiesOn(s.a, [], sorted, 0);
    assert roots[..|roots|] == roots;
  }
}
