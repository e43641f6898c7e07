/** The admission walk as a run of steps, and what every complete run promises. */
module AdmissionRun {
  import opened Machine
  import opened Orders
  import opened AdmissionModel
  import opened AdmissionWalk
  import opened Wrappers

  /** A walk with the bytes left to admit; a stopped walk makes no further step. */
  datatype Point = Point(walk: Walk, remaining: nat, stopped: bool)

  /** The stack's byte count after the paths were pushed. */
  function PushedTotal(a: Adapter, sorted: seq<Path>, bytes: nat): nat {
    if sorted == [] then bytes
    else SaturatingAdd(PushedTotal(a, sorted[1..], bytes), SaturatingMul(a.units(sorted[0]), 2))
  }

  /** What one directory read may return at this point. */
  function RoomFor(capacity: nat, w: Walk, remaining: nat): ReadBudget
    requires w.stack != []
  {
    ReadBudget(SaturatingSub(SaturatingSub(capacity, Popped(w).inspected), |Popped(w).stack|),
               SaturatingSub(remaining, Popped(w).stackBytes))
  }

  function VerdictAt(s: Scene, w: Walk): Verdict
    requires w.stack != []
  {
    Examine(s.a, s.mode, w.seen, Top(w).path, Top(w).depth)
  }

  /** The children a step pushes, before they are sorted. */
  function ChildrenAt(s: Scene, capacity: nat, p: Point): seq<Path>
    requires p.walk.stack != []
  {
    var budget := RoomFor(capacity, p.walk, p.remaining);
    if !VerdictAt(s, p.walk).Expand? || budget.pathLimit == 0 then []
    else match s.a.readChildren(Top(p.walk).path, budget)
      case Err(_) => []
      case Ok(read) => Bounded(s.a, read, budget).paths
  }

  /** A directory is opened: refused for want of room, unreadable, or replaced by its children. */
  function Opened(s: Scene, capacity: nat, p: Point, seen: set<nat>, sorted: seq<Path>): Point
    requires p.walk.stack != []
  {
    var path, next, budget := Top(p.walk).path, WithSeen(Popped(p.walk), seen), RoomFor(capacity, p.walk, p.remaining);
    if budget.pathLimit == 0 then Point(WithIssue(next, path, LimitReached, None), p.remaining, true)
    else match s.a.readChildren(path, budget)
      case Err(fault) => Point(WithIssue(next, path, ReadDirectory, Some(fault)), p.remaining, false)
      case Ok(read) =>
        Point(Expanded(s.a, p.walk, seen, sorted, PushedTotal(s.a, sorted, next.stackBytes), Flags(path, Bounded(s.a, read, budget))),
              p.remaining, false)
  }

  /** A row is admitted, or ends the walk because its complete text does not fit. */
  function Admitted(s: Scene, p: Point, m: Metadata, seen: set<nat>): Point
    requires p.walk.stack != []
  {
    var path, next := Top(p.walk).path, WithSeen(Popped(p.walk), seen);
    var bytes := 2 * |s.a.legacyPath(path)|;
    if bytes > p.remaining then Point(WithIssue(next, path, PathBudgetExceeded, None), 0, true)
    else Point(WithItem(next, ItemOf(s.a, path, m)), p.remaining - bytes, false)
  }

  function Stepped(s: Scene, capacity: nat, p: Point, sorted: seq<Path>): Point
    requires p.walk.stack != []
  {
    match VerdictAt(s, p.walk)
    case Refuse(kind, fault, seen) =>
      Point(WithIssue(WithSeen(Popped(p.walk), seen), Top(p.walk).path, kind, fault), p.remaining, false)
    case Expand(seen) => Opened(s, capacity, p, seen, sorted)
    case Admit(m, seen) => Admitted(s, p, m, seen)
  }

  /** One turn of the loop, for some order the sort may leave the children in. */
  ghost predicate Steps(s: Scene, capacity: nat, p: Point, q: Point) {
    && p.walk.stack != [] && !p.stopped
    && exists sorted :: SortedPaths(s.cmp, ChildrenAt(s, capacity, p), sorted) && q == Stepped(s, capacity, p, sorted)
  }

  function KeptRoots(roots: seq<Path>, capacity: nat): seq<Path> {
    if |roots| > capacity then roots[..capacity] else roots
  }

  function RootIssues(roots: seq<Path>, capacity: nat): seq<Issue> {
    if |roots| > capacity then [Issue(roots[capacity], LimitReached, None)] else []
  }

  function StartPoint(s: Scene, roots: seq<Path>, capacity: nat, budget: nat, sorted: seq<Path>): Point {
    Point(Walk([] + Pushed(s.a, sorted, 0), PushedTotal(s.a, sorted, 0), {}, 0, [], RootIssues(roots, capacity)), budget, false)
  }

  ghost predicate Starts(s: Scene, roots: seq<Path>, capacity: nat, budget: nat, p: Point) {
    exists sorted ::
      SortedPaths(s.cmp, KeptRoots(roots, capacity), sorted) && p == StartPoint(s, roots, capacity, budget, sorted)
  }

  ghost predicate IsRun(s: Scene, roots: seq<Path>, capacity: nat, budget: nat, run: seq<Point>) {
    && run != [] && Starts(s, roots, capacity, budget, run[0])
    && forall k | 0 <= k < |run| - 1 :: Steps(s, capacity, run[k], run[k + 1])
  }

  function Last(run: seq<Point>): Point
    requires run != []
  {
    run[|run| - 1]
  }

  predicate Complete(run: seq<Point>)
    requires run != []
  {
    Last(run).stopped || Last(run).walk.stack == []
  }

  function ReportOf(run: seq<Point>): Report
    requires run != []
  {
    Report(Last(run).walk.items, Last(run).walk.issues)
  }

  // ----- Every step keeps the walk good -----

  lemma {:induction false} PushedTotalIsSum(a: Adapter, sorted: seq<Path>, bytes: nat)
    requires bytes + PathBytes(a, sorted) <= MAX_USIZE
    ensures PushedTotal(a, sorted, bytes) == bytes + PathBytes(a, sorted)
  {
    if sorted != [] {
      PushedTotalIsSum(a, sorted[1..], bytes);
    }
  }

  /** A stopped walk is good with the bytes it had before it stopped. */
  ghost predicate GoodPoint(g: Goal, p: Point) {
    if p.stopped then p.walk.issues != [] && exists left :: Good(g, p.walk, left) else Good(g, p.walk, p.remaining)
  }

  lemma VerdictMeaning(s: Scene, w: Walk)
    requires w.stack != []
    ensures var v := VerdictAt(s, w);
      && (v.Refuse? ==> !v.kind.PathBudgetExceeded? && !v.kind.LimitReached?)
      && (v.Admit? ==> s.a.metadata(Top(w).path).Ok?)
      && (v.Expand? ==> IsTraversed(s, Top(w).path) && Top(w).depth < MAX_ADMISSION_DEPTH)
  {
  }

  lemma OpenedWithin(g: Goal, p: Point, read: Children)
    requires Good(g, p.walk, p.remaining) && p.walk.stack != [] && VerdictAt(g.s, p.walk).Expand?
    requires g.s.a.readChildren(Top(p.walk).path, RoomFor(g.capacity, p.walk, p.remaining)) == Ok(read)
    ensures var children := Bounded(g.s.a, read, RoomFor(g.capacity, p.walk, p.remaining));
            ReadWithin(g, p.walk, p.remaining, children.paths, Flags(Top(p.walk).path, children) != [])
  {
    hide Shallow, Measured, ItemBytes, AllReached, AllFound, StackListing, StackBytes, FrontierOnly, LegacyFits, Bounded;
    var budget := RoomFor(g.capacity, p.walk, p.remaining);
    var children := Bounded(g.s.a, read, budget);
    BoundedMeaning(g.s.a, read, budget);
    assert Honest(g.s) ==> HonestAt(g.s, Top(p.walk).path);
    assert AllReturned(g.s.a, Top(p.walk).path, budget, children.paths) by {
      assert forall i | 0 <= i < |children.paths| :: children.paths[i] == read.paths[i];
    }
    BoundedUnflagged(g.s.a, read, budget);
  }

  lemma BoundedUnflagged(a: Adapter, read: Children, budget: ReadBudget)
    ensures var children := Bounded(a, read, budget);
            !children.hadErrors && !children.truncated && !children.pathBudgetExhausted ==> children == read
  {
    BoundedMeaning(a, read, budget);
  }

  lemma OpenedKeepsGood(g: Goal, p: Point, seen: set<nat>, sorted: seq<Path>)
    requires Good(g, p.walk, p.remaining) && p.walk.stack != [] && VerdictAt(g.s, p.walk) == Expand(seen)
    requires SortedPaths(g.s.cmp, ChildrenAt(g.s, g.capacity, p), sorted)
    ensures GoodPoint(g, Opened(g.s, g.capacity, p, seen, sorted))
  {
    hide Good, Examine, ReadWithin, Flags, Bounded, SortedPaths;
    var budget := RoomFor(g.capacity, p.walk, p.remaining);
    var path := Top(p.walk).path;
    if budget.pathLimit == 0 {
      RefusalKeeps(g, p.walk, p.remaining, seen, LimitReached, None);
    } else if g.s.a.readChildren(path, budget).Err? {
      RefusalKeeps(g, p.walk, p.remaining, seen, ReadDirectory, Some(g.s.a.readChildren(path, budget).fault));
    } else {
      var read := g.s.a.readChildren(path, budget).value;
      var children := Bounded(g.s.a, read, budget);
      var bytes := PushedTotal(g.s.a, sorted, Popped(p.walk).stackBytes);
      OpenedWithin(g, p, read);
      if Popped(p.walk).stackBytes + PathBytes(g.s.a, sorted) <= MAX_USIZE {
        PushedTotalIsSum(g.s.a, sorted, Popped(p.walk).stackBytes);
      }
      ExpansionKeeps(g, p.walk, p.remaining, seen, children.paths, sorted, children, bytes);
    }
  }

  lemma AdmittedKeepsGood(g: Goal, p: Point, m: Metadata, seen: set<nat>)
    requires Good(g, p.walk, p.remaining) && p.walk.stack != [] && VerdictAt(g.s, p.walk) == Admit(m, seen)
    ensures GoodPoint(g, Admitted(g.s, p, m, seen))
  {
    hide Good, Examine, ItemOf, Popped;
    VerdictMeaning(g.s, p.walk);
    if 2 * |g.s.a.legacyPath(Top(p.walk).path)| > p.remaining {
      ExhaustionKeeps(g, p.walk, p.remaining, seen);
    } else {
      AdmissionKeeps(g, p.walk, p.remaining, seen, m);
    }
  }

  lemma StepKeepsGood(g: Goal, p: Point, q: Point)
    requires Good(g, p.walk, p.remaining) && Steps(g.s, g.capacity, p, q)
    ensures GoodPoint(g, q)
  {
    hide Good, Examine, Opened, Admitted;
    var sorted :| SortedPaths(g.s.cmp, ChildrenAt(g.s, g.capacity, p), sorted) && q == Stepped(g.s, g.capacity, p, sorted);
    VerdictMeaning(g.s, p.walk);
    match VerdictAt(g.s, p.walk)
    case Refuse(kind, fault, seen) => RefusalKeeps(g, p.walk, p.remaining, seen, kind, fault);
    case Expand(seen) => OpenedKeepsGood(g, p, seen, sorted);
    case Admit(m, seen) => AdmittedKeepsGood(g, p, m, seen);
  }

  // ----- What every complete run promises -----

  ghost function GoalOf(s: Scene, roots: seq<Path>, capacity: nat, budget: nat): Goal {
    Goal(s, roots, capacity, budget, Honest(s) && TotalPreorder(s.cmp),
         ListAll(s, SortedOf(s.cmp, roots), 0), LegacyFits(s.a) && PathBytes(s.a, roots) <= budget)
  }

  lemma NothingPending(s: Scene)
    ensures Shallow([]) && Measured(s.a, [])
    ensures StackListing(s, []) == Some([]) && StackBytes([]) == 0 && ItemBytes([]) == 0
  {
  }

  lemma KeptRootsMeaning(a: Adapter, roots: seq<Path>, capacity: nat)
    ensures var kept := KeptRoots(roots, capacity);
      && |kept| <= capacity && PathBytes(a, kept) <= PathBytes(a, roots)
      && (forall p | p in kept :: p in roots) && (RootIssues(roots, capacity) == [] ==> kept == roots)
  {
    if |roots| > capacity {
      PrefixBytes(a, roots, capacity);
    }
  }

  lemma StartIsReached(a: Adapter, roots: seq<Path>, kept: seq<Path>, sorted: seq<Path>)
    requires multiset(sorted) == multiset(kept) && forall p | p in kept :: p in roots
    ensures AllReached(a, roots, [] + Pushed(a, sorted, 0))
  {
    forall i | 0 <= i < |sorted| ensures sorted[i] in roots {
      assert sorted[i] in multiset(sorted);
    }
  }

  lemma StartIsGood(s: Scene, roots: seq<Path>, capacity: nat, budget: nat, p: Point)
    requires Starts(s, roots, capacity, budget, p) && capacity <= MAX_ADMITTED_SOURCES && budget <= MAX_ADMITTED_PATH_BYTES
    ensures Good(GoalOf(s, roots, capacity, budget), p.walk, p.remaining) && !p.stopped
  {
    hide Honest, TotalPreorder, LegacyFits, StackListing, SortedOf, PathBytes, StackBytes, AllReached, KeptRoots,
         RootIssues, ListAll, Measured, Shallow, Pushed, PushedTotal, FrontierOnly, ItemBytes;
    var kept := KeptRoots(roots, capacity);
    var sorted :| SortedPaths(s.cmp, kept, sorted) && p == StartPoint(s, roots, capacity, budget, sorted);
    KeptRootsMeaning(s.a, roots, capacity);
    StartIsReached(s.a, roots, kept, sorted);
    PathBytesReordered(s.a, sorted, kept);
    NothingPending(s);
    PushedShape(s.a, [], sorted, 0);
    PushedListing(s, [], sorted, 0);
    PlusNothing(ListAll(s, sorted, 0));
    if PathBytes(s.a, sorted) <= MAX_USIZE {
      PushedTotalIsSum(s.a, sorted, 0);
      PushedBytes(s, [], sorted, 0);
    }
    RootIssuesAreFrontier(s, roots, capacity);
  }

  lemma RootIssuesAreFrontier(s: Scene, roots: seq<Path>, capacity: nat)
    ensures FrontierOnly(s, RootIssues(roots, capacity))
  {
  }

  lemma {:induction false} RunIsGood(s: Scene, roots: seq<Path>, capacity: nat, budget: nat, run: seq<Point>, k: nat)
    requires IsRun(s, roots, capacity, budget, run) && capacity <= MAX_ADMITTED_SOURCES && budget <= MAX_ADMITTED_PATH_BYTES
    requires k < |run|
    ensures GoodPoint(GoalOf(s, roots, capacity, budget), run[k])
  {
    hide Good, Starts, Steps;
    if k == 0 {
      StartIsGood(s, roots, capacity, budget, run[0]);
    } else {
      RunIsGood(s, roots, capacity, budget, run, k - 1);
      NotStoppedBefore(s, roots, capacity, budget, run, k - 1);
      StepKeepsGood(GoalOf(s, roots, capacity, budget), run[k - 1], run[k]);
    }
  }

  lemma NotStoppedBefore(s: Scene, roots: seq<Path>, capacity: nat, budget: nat, run: seq<Point>, k: nat)
    requires IsRun(s, roots, capacity, budget, run) && k < |run| - 1
    ensures !run[k].stopped && run[k].walk.stack != [] && Steps(s, capacity, run[k], run[k + 1])
  {
    assert Steps(s, capacity, run[k], run[k + 1]);
  }

  /** Bounds on every report; real rows only; the listing exactly when there is no issue;
      and no candidate refused for bytes if the roots and the legacy texts fit. */
  ghost predicate Promised(s: Scene, roots: seq<Path>, capacity: nat, budget: nat, report: Report) {
    && |report.items| <= capacity && ItemBytes(report.items) <= budget
    && AllFound(s.a, roots, report.items)
    && (Honest(s) && TotalPreorder(s.cmp) && report.issues == [] ==>
          Some(report.items) == ListAll(s, SortedOf(s.cmp, roots), 0))
    && (LegacyFits(s.a) && PathBytes(s.a, roots) <= budget ==> FrontierOnly(s, report.issues))
  }

  lemma EndIsPromised(s: Scene, roots: seq<Path>, capacity: nat, budget: nat, w: Walk, left: nat)
    requires Good(GoalOf(s, roots, capacity, budget), w, left) && (w.stack == [] || w.issues != [])
    ensures Promised(s, roots, capacity, budget, Report(w.items, w.issues))
  {
    hide Honest, TotalPreorder, LegacyFits, FrontierOnly, SortedOf, PathBytes, AllFound, AllReached, ListAll;
    NothingPending(s);
    PlusNothing(Some(w.items));
  }

  lemma RunPromises(s: Scene, roots: seq<Path>, capacity: nat, budget: nat, run: seq<Point>)
    requires IsRun(s, roots, capacity, budget, run) && Complete(run)
    requires capacity <= MAX_ADMITTED_SOURCES && budget <= MAX_ADMITTED_PATH_BYTES
    ensures Promised(s, roots, capacity, budget, ReportOf(run))
  {
    hide Good, Promised, Starts, Steps;
    RunIsGood(s, roots, capacity, budget, run, |run| - 1);
    var p := Last(run);
    var left := p.remaining;
    if p.stopped {
      left :| Good(GoalOf(s, roots, capacity, budget), p.walk, left);
    }
    EndIsPromised(s, roots, capacity, budget, p.walk, left);
  }

  /** Without issues, recursion yields every file and only files, and direct mode one row
      per root, both in sorted order. */
  lemma IssueFreeMeaning(s: Scene, roots: seq<Path>, capacity: nat, budget: nat, report: Report)
    requires Promised(s, roots, capacity, budget, report) && Honest(s) && TotalPreorder(s.cmp) && report.issues == []
    ensures s.mode.Recurse? ==> FilesOnly(report.items)
    ensures s.mode.Direct? ==> RowPerPath(s.a, SortedOf(s.cmp, roots), report.items)
  {
    var sorted := SortedOf(s.cmp, roots);
    if s.mode.Recurse? {
      RecurseListsAllFiles(s, sorted, 0);
    } else {
      DirectListsRoots(s, sorted);
    }
  }

  // ----- The inputs determine the report -----

  lemma StepIsDetermined(s: Scene, capacity: nat, p: Point, q: Point, q': Point)
    requires TotalPreorder(s.cmp) && Steps(s, capacity, p, q) && Steps(s, capacity, p, q')
    ensures q == q'
  {
    hide TotalPreorder, Stepped, ChildrenAt, SortedOf;
  }

  lemma {:induction false} RunsAgreeAt(s: Scene, roots: seq<Path>, capacity: nat, budget: nat, a: seq<Point>, b: seq<Point>, k: nat)
    requires TotalPreorder(s.cmp) && IsRun(s, roots, capacity, budget, a) && IsRun(s, roots, capacity, budget, b)
    requires k < |a| && k < |b|
    ensures a[k] == b[k]
  {
    hide TotalPreorder, Steps, SortedOf, StartPoint;
    if k > 0 {
      RunsAgreeAt(s, roots, capacity, budget, a, b, k - 1);
      StepIsDetermined(s, capacity, a[k - 1], a[k], b[k]);
    }
  }

  /** Two complete runs of the same call are the same run. */
  lemma RunsAgree(s: Scene, roots: seq<Path>, capacity: nat, budget: nat, a: seq<Point>, b: seq<Point>)
    requires TotalPreorder(s.cmp) && IsRun(s, roots, capacity, budget, a) && IsRun(s, roots, capacity, budget, b)
    requires Complete(a) && Complete(b)
    ensures a == b
  {
    hide TotalPreorder, Starts, Steps;
    var n := if |a| < |b| then |a| else |b|;
    RunsAgreeAt(s, roots, capacity, budget, a, b, n - 1);
    if |a| < |b| {
      NotStoppedBefore(s, roots, capacity, budget, b, n - 1);
    } else if |b| < |a| {
      NotStoppedBefore(s, roots, capacity, budget, a, n - 1);
    }
    forall k | 0 <= k < n ensures a[k] == b[k] {
      RunsAgreeAt(s, roots, capacity, budget, a, b, k);
    }
  }

  // ----- Why an issue was raised -----

  ghost predicate HasIdentity(s: Scene, w: Walk, identity: nat) {
    && w.stack != [] && s.a.metadata(Top(w).path).Ok?
    && s.a.metadata(Top(w).path).value.isDirectory
    && s.a.metadata(Top(w).path).value.directoryIdentity == Some(identity)
  }

  /** An earlier candidate of the run was the directory with this identity. */
  ghost predicate MetBefore(s: Scene, run: seq<Point>, k: nat, identity: nat) {
    exists j: nat :: j < k && j < |run| && HasIdentity(s, run[j].walk, identity)
  }

  /** More children than the read allowed, by the adapter's word or by count. */
  ghost predicate OverLimit(a: Adapter, path: Path, budget: ReadBudget) {
    var r := a.readChildren(path, budget);
    r.Ok? && (r.value.truncated || |r.value.paths| > budget.pathLimit)
  }

  ghost predicate OverBytes(a: Adapter, path: Path, budget: ReadBudget) {
    var r := a.readChildren(path, budget);
    r.Ok? && (r.value.pathBudgetExhausted || PathBytes(a, r.value.paths) > budget.remainingPathBytes)
  }

  /** What is true of the candidate inspected at step `k` when it raises the issue. */
  ghost predicate Reason(s: Scene, capacity: nat, run: seq<Point>, k: nat, i: Issue)
    requires k < |run| && run[k].walk.stack != []
  {
    var a, w := s.a, run[k].walk;
    var budget := RoomFor(capacity, w, run[k].remaining);
    i.path == Top(w).path &&
    match i.kind
    case RelativePath => !a.isAbsolute(i.path)
    case MetadataIssue => i.fault.Some? && (a.validate(i.path) == i.fault || a.metadata(i.path) == Err(i.fault.value))
    case ReparsePoint => a.metadata(i.path).Ok? && a.metadata(i.path).value.isReparsePoint
    case RepeatedDirectory => exists identity :: HasIdentity(s, w, identity) && MetBefore(s, run, k, identity)
    case DepthExceeded => IsTraversed(s, i.path) && Top(w).depth >= MAX_ADMISSION_DEPTH
    case ReadDirectory => IsTraversed(s, i.path) && Unread(a, i.path, budget, i.fault)
    case LimitReached => IsTraversed(s, i.path) && (Used(w) >= capacity || OverLimit(a, i.path, budget))
    case PathBudgetExceeded =>
      (IsTraversed(s, i.path) && OverBytes(a, i.path, budget)) || 2 * |a.legacyPath(i.path)| > run[k].remaining
  }

  lemma IssuesGrow(s: Scene, capacity: nat, p: Point, q: Point)
    requires Steps(s, capacity, p, q)
    ensures p.walk.issues <= q.walk.issues
  {
    hide Examine, Flags, Bounded, SortedPaths, RoomFor;
  }

  lemma SeenGrows(s: Scene, capacity: nat, p: Point, q: Point)
    requires Steps(s, capacity, p, q)
    ensures forall identity | identity in q.walk.seen :: identity in p.walk.seen || HasIdentity(s, p.walk, identity)
  {
    hide Flags, Bounded, SortedPaths, RoomFor;
  }

  lemma {:induction false} SeenWereMet(s: Scene, roots: seq<Path>, capacity: nat, budget: nat, run: seq<Point>, k: nat)
    requires IsRun(s, roots, capacity, budget, run) && k < |run|
    ensures forall identity | identity in run[k].walk.seen :: MetBefore(s, run, k, identity)
  {
    hide Steps, HasIdentity;
    if k > 0 {
      SeenWereMet(s, roots, capacity, budget, run, k - 1);
      NotStoppedBefore(s, roots, capacity, budget, run, k - 1);
      SeenGrows(s, capacity, run[k - 1], run[k]);
    }
  }

  lemma RefusalReason(s: Scene, roots: seq<Path>, capacity: nat, budget: nat, run: seq<Point>, k: nat)
    requires IsRun(s, roots, capacity, budget, run) && k < |run| - 1
    requires run[k].walk.stack != [] && VerdictAt(s, run[k].walk).Refuse?
    ensures var v := VerdictAt(s, run[k].walk);
      Reason(s, capacity, run, k, Issue(Top(run[k].walk).path, v.kind, v.fault))
  {
    hide Steps, MetBefore, Unread, OverLimit, OverBytes;
    var w := run[k].walk;
    SeenWereMet(s, roots, capacity, budget, run, k);
    if VerdictAt(s, w).kind.RepeatedDirectory? {
      assert HasIdentity(s, w, IdentityOf(s.a.metadata(Top(w).path).value).value);
    }
  }

  lemma OpenedReason(s: Scene, capacity: nat, run: seq<Point>, k: nat, seen: set<nat>, sorted: seq<Path>, i: nat)
    requires k < |run| && run[k].walk.stack != [] && VerdictAt(s, run[k].walk) == Expand(seen)
    requires var q := Opened(s, capacity, run[k], seen, sorted); |run[k].walk.issues| <= i < |q.walk.issues|
    ensures Reason(s, capacity, run, k, Opened(s, capacity, run[k], seen, sorted).walk.issues[i])
  {
    hide Bounded, Examine, MetBefore, HasIdentity, IsTraversed, PathBytes, Pushed, PushedTotal;
    var w := run[k].walk;
    var budget := RoomFor(capacity, w, run[k].remaining);
    VerdictExpands(s, w);
    if budget.pathLimit > 0 && s.a.readChildren(Top(w).path, budget).Ok? {
      var read := s.a.readChildren(Top(w).path, budget).value;
      BoundedMeaning(s.a, read, budget);
      BoundedFlags(s.a, read, budget);
    }
  }

  lemma VerdictExpands(s: Scene, w: Walk)
    requires w.stack != [] && VerdictAt(s, w).Expand?
    ensures IsTraversed(s, Top(w).path)
  {
  }

  lemma BoundedFlags(a: Adapter, read: Children, budget: ReadBudget)
    ensures var children := Bounded(a, read, budget);
      && children.hadErrors == read.hadErrors
      && (children.truncated <==> read.truncated || |read.paths| > budget.pathLimit)
  {
  }

  lemma StepReason(s: Scene, roots: seq<Path>, capacity: nat, budget: nat, run: seq<Point>, k: nat, i: nat)
    requires IsRun(s, roots, capacity, budget, run) && k < |run| - 1
    requires |run[k].walk.issues| <= i < |run[k + 1].walk.issues|
    ensures run[k].walk.stack != [] && Reason(s, capacity, run, k, run[k + 1].walk.issues[i])
  {
    hide Reason, Opened, Examine, SortedPaths;
    NotStoppedBefore(s, roots, capacity, budget, run, k);
    var p, q := run[k], run[k + 1];
    var sorted :| SortedPaths(s.cmp, ChildrenAt(s, capacity, p), sorted) && q == Stepped(s, capacity, p, sorted);
    match VerdictAt(s, p.walk)
    case Refuse(_, _, _) => RefusalReason(s, roots, capacity, budget, run, k);
    case Expand(seen) => OpenedReason(s, capacity, run, k, seen, sorted, i);
    case Admit(m, seen) => ExhaustionReason(s, capacity, run, k);
  }

  lemma ExhaustionReason(s: Scene, capacity: nat, run: seq<Point>, k: nat)
    requires k < |run| && run[k].walk.stack != []
    ensures 2 * |s.a.legacyPath(Top(run[k].walk).path)| > run[k].remaining ==>
              Reason(s, capacity, run, k, Issue(Top(run[k].walk).path, PathBudgetExceeded, None))
  {
  }

  /** Every issue is the surplus of the roots, or was raised by a step that had the reason
      it states. */
  lemma {:induction false} IssuesHaveReasons(s: Scene, roots: seq<Path>, capacity: nat, budget: nat, run: seq<Point>, k: nat, i: nat)
    requires IsRun(s, roots, capacity, budget, run) && k < |run| && i < |run[k].walk.issues|
    ensures || run[k].walk.issues[i] in RootIssues(roots, capacity)
            || exists j: nat :: j < k && run[j].walk.stack != [] && Reason(s, capacity, run, j, run[k].walk.issues[i])
  {
    hide Reason, Steps, RootIssues;
    if k > 0 {
      NotStoppedBefore(s, roots, capacity, budget, run, k - 1);
      IssuesGrow(s, capacity, run[k - 1], run[k]);
      if i < |run[k - 1].walk.issues| {
        IssuesHaveReasons(s, roots, capacity, budget, run, k - 1, i);
      } else {
        StepReason(s, roots, capacity, budget, run, k - 1, i);
      }
    }
  }

  /** Opening a directory stops the walk exactly when the capacity has been used up. */
  lemma StopsWhenFull(s: Scene, capacity: nat, p: Point, seen: set<nat>, sorted: seq<Path>)
    requires p.walk.stack != [] && Used(p.walk) <= capacity
    ensures Opened(s, capacity, p, seen, sorted).stopped <==> Used(p.walk) == capacity
  {
  }
}
