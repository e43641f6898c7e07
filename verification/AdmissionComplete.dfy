/** When a walk reports nothing: the exact condition, candidate by candidate. */
module AdmissionComplete {
  import opened Machine
  import opened Orders
  import opened Paths
  import opened AdmissionModel
  import opened AdmissionWalk
  import opened AdmissionRun
  import opened Wrappers

  datatype Candidate = Candidate(path: Path, depth: nat)

  /** The verdict on a candidate that nothing met before resembles. */
  function FirstVerdict(s: Scene, c: Candidate): Verdict {
    Examine(s.a, s.mode, {}, c.path, c.depth)
  }

  ghost function Kids(s: Scene, c: Candidate): seq<Path> {
    if FirstVerdict(s, c).Expand? then SortedOf(s.cmp, s.tree(c.path)) else []
  }

  /** A candidate and everything below it, depth first. */
  ghost function Below(s: Scene, c: Candidate): seq<Candidate>
    requires c.depth <= MAX_ADMISSION_DEPTH
    decreases MAX_ADMISSION_DEPTH - c.depth, 0
  {
    [c] + if FirstVerdict(s, c).Expand? then AllBelow(s, Kids(s, c), c.depth + 1) else []
  }

  ghost function AllBelow(s: Scene, paths: seq<Path>, depth: nat): seq<Candidate>
    requires depth <= MAX_ADMISSION_DEPTH
    decreases MAX_ADMISSION_DEPTH - depth, 1 + |paths|
  {
    if paths == [] then [] else Below(s, Candidate(paths[0], depth)) + AllBelow(s, paths[1..], depth)
  }

  /** All candidates of a call, in the order of the walk. */
  ghost function Candidates(s: Scene, roots: seq<Path>): seq<Candidate> {
    AllBelow(s, SortedOf(s.cmp, roots), 0)
  }

  // ----- What a list of candidates adds up to -----

  ghost function KidCount(s: Scene, cs: seq<Candidate>): nat {
    if cs == [] then 0 else KidCount(s, cs[..|cs| - 1]) + |Kids(s, cs[|cs| - 1])|
  }

  ghost function KidBytes(s: Scene, cs: seq<Candidate>): nat {
    if cs == [] then 0 else KidBytes(s, cs[..|cs| - 1]) + PathBytes(s.a, Kids(s, cs[|cs| - 1]))
  }

  function OwnBytes(s: Scene, cs: seq<Candidate>): nat {
    if cs == [] then 0 else OwnBytes(s, cs[..|cs| - 1]) + 2 * s.a.units(cs[|cs| - 1].path)
  }

  function RowOf(s: Scene, c: Candidate): seq<Item> {
    match FirstVerdict(s, c)
    case Admit(m, _) => [ItemOf(s.a, c.path, m)]
    case _ => []
  }

  function Rows(s: Scene, cs: seq<Candidate>): seq<Item> {
    if cs == [] then [] else Rows(s, cs[..|cs| - 1]) + RowOf(s, cs[|cs| - 1])
  }

  function IdentityAt(s: Scene, c: Candidate): Option<nat> {
    match s.a.metadata(c.path)
    case Ok(m) => if m.isDirectory then m.directoryIdentity else None
    case Err(_) => None
  }

  function Identities(s: Scene, cs: seq<Candidate>): set<nat> {
    set i | 0 <= i < |cs| && IdentityAt(s, cs[i]).Some? :: IdentityAt(s, cs[i]).value
  }

  /** The candidates met when the first `k` have been inspected. */
  ghost function Met(s: Scene, roots: seq<Path>, cs: seq<Candidate>, k: nat): nat
    requires k <= |cs|
  {
    |roots| + KidCount(s, cs[..k])
  }

  /** The bytes of the paths that then wait. */
  ghost function WaitingBytes(s: Scene, roots: seq<Path>, cs: seq<Candidate>, k: nat): int
    requires k <= |cs|
  {
    PathBytes(s.a, roots) + KidBytes(s, cs[..k]) - OwnBytes(s, cs[..k])
  }

  // ----- The conditions at one candidate -----

  ghost predicate Fresh(s: Scene, cs: seq<Candidate>, k: nat)
    requires k < |cs|
  {
    IdentityAt(s, cs[k]).Some? ==> IdentityAt(s, cs[k]).value !in Identities(s, cs[..k])
  }

  /** The bytes beside the rows admitted and the other paths that wait. */
  ghost function BytesLeft(s: Scene, roots: seq<Path>, budget: nat, cs: seq<Candidate>, k: nat): nat
    requires k < |cs|
  {
    var admitted, waiting := ItemBytes(Rows(s, cs[..k])), WaitingBytes(s, roots, cs, k) - 2 * s.a.units(cs[k].path);
    if admitted + waiting <= budget then budget - admitted - waiting else 0
  }

  ghost predicate BytesFitAt(s: Scene, roots: seq<Path>, budget: nat, cs: seq<Candidate>, k: nat)
    requires k < |cs|
  {
    if FirstVerdict(s, cs[k]).Expand? then PathBytes(s.a, Kids(s, cs[k])) <= BytesLeft(s, roots, budget, cs, k)
    else ItemBytes(Rows(s, cs[..k])) + ItemBytes(RowOf(s, cs[k])) <= budget
  }

  ghost predicate RoomAt(s: Scene, roots: seq<Path>, capacity: nat, cs: seq<Candidate>, k: nat)
    requires k < |cs|
  {
    FirstVerdict(s, cs[k]).Expand? ==> Met(s, roots, cs, k) < capacity && Met(s, roots, cs, k + 1) <= capacity
  }

  /** What the read of a directory may return when its turn has come. */
  ghost function RoomOf(s: Scene, roots: seq<Path>, capacity: nat, budget: nat, cs: seq<Candidate>, k: nat): ReadBudget
    requires k < |cs|
  {
    ReadBudget(SaturatingSub(capacity, Met(s, roots, cs, k)), BytesLeft(s, roots, budget, cs, k))
  }

  predicate ReadsWell(a: Adapter, path: Path, room: ReadBudget) {
    var r := a.readChildren(path, room);
    r.Ok? && !r.value.hadErrors && !r.value.truncated && !r.value.pathBudgetExhausted
  }

  /** A directory can be read, without errors and without a flag, when its turn has come. */
  ghost predicate ReadsAt(s: Scene, roots: seq<Path>, capacity: nat, budget: nat, cs: seq<Candidate>, k: nat)
    requires k < |cs|
  {
    FirstVerdict(s, cs[k]).Expand? ==> ReadsWell(s.a, cs[k].path, RoomOf(s, roots, capacity, budget, cs, k))
  }

  /** The candidate can be inspected without an issue. */
  ghost predicate PassesAt(s: Scene, roots: seq<Path>, capacity: nat, budget: nat, cs: seq<Candidate>, k: nat)
    requires k < |cs|
  {
    && !FirstVerdict(s, cs[k]).Refuse? && Fresh(s, cs, k) && RoomAt(s, roots, capacity, cs, k)
    && ReadsAt(s, roots, capacity, budget, cs, k) && BytesFitAt(s, roots, budget, cs, k)
  }

  // ----- A clean walk follows the candidates -----

  ghost function StackBelow(s: Scene, stack: seq<Frame>): seq<Candidate>
    requires Shallow(stack)
  {
    if stack == [] then []
    else
      var top := stack[|stack| - 1];
      Below(s, Candidate(top.path, top.depth)) + StackBelow(s, stack[..|stack| - 1])
  }

  function PathsOf(stack: seq<Frame>): (r: seq<Path>)
    ensures |r| == |stack| && forall i | 0 <= i < |r| :: r[i] == stack[i].path
  {
    seq(|stack|, i requires 0 <= i < |stack| => stack[i].path)
  }

  /** The point after the first `k` candidates were inspected without an issue. */
  ghost predicate Follows(s: Scene, roots: seq<Path>, capacity: nat, budget: nat, cs: seq<Candidate>, k: nat, p: Point) {
    var w := p.walk;
    && k <= |cs| && Shallow(w.stack) && Measured(s.a, w.stack) && cs[k..] == StackBelow(s, w.stack)
    && w.inspected == k && |w.stack| + k == Met(s, roots, cs, k) <= capacity <= MAX_ADMITTED_SOURCES
    && w.stackBytes == PathBytes(s.a, PathsOf(w.stack)) == WaitingBytes(s, roots, cs, k) <= MAX_USIZE
    && w.items == Rows(s, cs[..k]) && p.remaining + ItemBytes(w.items) == budget <= MAX_ADMITTED_PATH_BYTES
    && w.seen == Identities(s, cs[..k]) && w.issues == [] && !p.stopped
  }

  lemma PushBelow(s: Scene, stack: seq<Frame>, f: Frame)
    requires Shallow(stack) && f.depth <= MAX_ADMISSION_DEPTH
    ensures Shallow(stack + [f]) && StackBelow(s, stack + [f]) == Below(s, Candidate(f.path, f.depth)) + StackBelow(s, stack)
  {
    hide Below;
    assert (stack + [f])[..|stack|] == stack;
  }

  lemma {:induction false} PushedBelow(s: Scene, stack: seq<Frame>, sorted: seq<Path>, depth: nat)
    requires Shallow(stack) && depth <= MAX_ADMISSION_DEPTH
    ensures Shallow(stack + Pushed(s.a, sorted, depth))
    ensures StackBelow(s, stack + Pushed(s.a, sorted, depth)) == AllBelow(s, sorted, depth) + StackBelow(s, stack)
  {
    hide Below, StackBelow;
    if sorted == [] {
      assert stack + Pushed(s.a, sorted, depth) == stack;
    } else {
      var below, top := stack + Pushed(s.a, sorted[1..], depth), FrameOf(s.a, sorted[0], depth);
      PushedBelow(s, stack, sorted[1..], depth);
      PushBelow(s, below, top);
      assert stack + Pushed(s.a, sorted, depth) == below + [top];
    }
  }

  lemma {:induction false} PushedPathBytes(a: Adapter, stack: seq<Frame>, sorted: seq<Path>, depth: nat)
    ensures PathBytes(a, PathsOf(stack + Pushed(a, sorted, depth))) == PathBytes(a, PathsOf(stack)) + PathBytes(a, sorted)
  {
    if sorted == [] {
      assert stack + Pushed(a, sorted, depth) == stack;
    } else {
      var below, top := stack + Pushed(a, sorted[1..], depth), FrameOf(a, sorted[0], depth);
      PushedPathBytes(a, stack, sorted[1..], depth);
      assert stack + Pushed(a, sorted, depth) == below + [top];
      assert PathsOf(below + [top]) == PathsOf(below) + [sorted[0]];
      PathBytesAppend(a, PathsOf(below), [sorted[0]]);
    }
  }

  /** Taking one more candidate into the sums. */
  lemma OneMore(s: Scene, cs: seq<Candidate>, k: nat)
    requires k < |cs|
    ensures KidCount(s, cs[..k + 1]) == KidCount(s, cs[..k]) + |Kids(s, cs[k])|
    ensures KidBytes(s, cs[..k + 1]) == KidBytes(s, cs[..k]) + PathBytes(s.a, Kids(s, cs[k]))
    ensures OwnBytes(s, cs[..k + 1]) == OwnBytes(s, cs[..k]) + 2 * s.a.units(cs[k].path)
    ensures Rows(s, cs[..k + 1]) == Rows(s, cs[..k]) + RowOf(s, cs[k])
  {
    hide Kids, RowOf, PathBytes;
    assert cs[..k + 1][..k] == cs[..k];
  }

  lemma OneMoreIdentity(s: Scene, cs: seq<Candidate>, k: nat)
    requires k < |cs|
    ensures Identities(s, cs[..k + 1])
         == Identities(s, cs[..k]) + if IdentityAt(s, cs[k]).Some? then {IdentityAt(s, cs[k]).value} else {}
  {
    hide IdentityAt;
    var front, now := cs[..k], cs[..k + 1];
    forall x ensures x in Identities(s, now) <==>
                     x in Identities(s, front) || (IdentityAt(s, cs[k]).Some? && x == IdentityAt(s, cs[k]).value)
    {
      if x in Identities(s, front) {
        var i :| 0 <= i < |front| && IdentityAt(s, front[i]).Some? && IdentityAt(s, front[i]).value == x;
        assert now[i] == front[i];
      }
      if IdentityAt(s, cs[k]).Some? && x == IdentityAt(s, cs[k]).value {
        assert now[k] == cs[k];
      }
      if x in Identities(s, now) {
        var i :| 0 <= i < |now| && IdentityAt(s, now[i]).Some? && IdentityAt(s, now[i]).value == x;
        if i < k { assert front[i] == now[i]; }
      }
    }
  }

  /** What the seen identities change about a verdict. */
  lemma VerdictWithSeen(s: Scene, seen: set<nat>, c: Candidate)
    ensures var v, first := Examine(s.a, s.mode, seen, c.path, c.depth), FirstVerdict(s, c);
      var repeated := IdentityAt(s, c).Some? && IdentityAt(s, c).value in seen;
      && (v.Refuse? <==> first.Refuse? || repeated)
      && (!first.Refuse? && !repeated ==>
            && (v.Expand? <==> first.Expand?) && (v.Admit? <==> first.Admit?)
            && (v.Admit? ==> v.metadata == first.metadata)
            && v.seen == seen + if IdentityAt(s, c).Some? then {IdentityAt(s, c).value} else {})
  {
  }

  lemma TopIsNext(s: Scene, roots: seq<Path>, capacity: nat, budget: nat, cs: seq<Candidate>, k: nat, p: Point)
    requires Follows(s, roots, capacity, budget, cs, k, p) && p.walk.stack != []
    ensures k < |cs| && cs[k] == Candidate(Top(p.walk).path, Top(p.walk).depth)
    ensures cs[k + 1..] == (if FirstVerdict(s, cs[k]).Expand? then AllBelow(s, Kids(s, cs[k]), cs[k].depth + 1) else [])
                           + StackBelow(s, Popped(p.walk).stack)
  {
    hide AllBelow, Kids, FirstVerdict, Met, WaitingBytes, Rows, Identities, Measured, PathBytes;
    var c := Candidate(Top(p.walk).path, Top(p.walk).depth);
    assert cs[k..] == Below(s, c) + StackBelow(s, Popped(p.walk).stack);
    assert cs[k..][0] == c && cs[k + 1..] == cs[k..][1..];
  }

  lemma PoppedBytes(a: Adapter, w: Walk)
    requires w.stack != [] && Measured(a, w.stack) && w.stackBytes == PathBytes(a, PathsOf(w.stack)) <= MAX_USIZE
    ensures Popped(w).stackBytes == PathBytes(a, PathsOf(Popped(w).stack)) == w.stackBytes - 2 * a.units(Top(w).path)
  {
    var front := Popped(w).stack;
    assert PathsOf(w.stack) == PathsOf(front) + [Top(w).path];
    PathBytesAppend(a, PathsOf(front), [Top(w).path]);
    assert [Top(w).path][1..] == [];
  }

  lemma PoppedFrames(a: Adapter, w: Walk)
    requires w.stack != [] && Shallow(w.stack) && Measured(a, w.stack)
    ensures Shallow(Popped(w).stack) && Measured(a, Popped(w).stack)
  {
  }

  /** What the completeness theorem asks of comparator and adapter: an order, and honest
      reads of the directories of this call. In direct mode no directory is read. */
  ghost predicate Reliable(s: Scene, cs: seq<Candidate>) {
    TotalPreorder(s.cmp) && forall i | 0 <= i < |cs| && FirstVerdict(s, cs[i]).Expand? :: HonestAt(s, cs[i].path)
  }

  lemma RowBytesOf(s: Scene, c: Candidate)
    ensures match FirstVerdict(s, c)
            case Admit(m, _) => RowOf(s, c) == [ItemOf(s.a, c.path, m)] && ItemBytes(RowOf(s, c)) == 2 * |s.a.legacyPath(c.path)|
            case _ => RowOf(s, c) == [] && ItemBytes(RowOf(s, c)) == 0
  {
    if FirstVerdict(s, c).Admit? {
      RowBytes([], s.a, c.path, FirstVerdict(s, c).metadata);
      assert [] + [ItemOf(s.a, c.path, FirstVerdict(s, c).metadata)] == [ItemOf(s.a, c.path, FirstVerdict(s, c).metadata)];
    }
  }

  /** An admitted candidate passes exactly when its text fits, and the walk goes on behind it. */
  lemma AdmitFollows(s: Scene, roots: seq<Path>, capacity: nat, budget: nat, cs: seq<Candidate>, k: nat, p: Point,
                     m: Metadata, seen: set<nat>)
    requires Follows(s, roots, capacity, budget, cs, k, p) && p.walk.stack != [] && VerdictAt(s, p.walk) == Admit(m, seen)
    ensures k < |cs|
    ensures Admitted(s, p, m, seen).walk.issues == [] <==> PassesAt(s, roots, capacity, budget, cs, k)
    ensures PassesAt(s, roots, capacity, budget, cs, k) ==>
              Follows(s, roots, capacity, budget, cs, k + 1, Admitted(s, p, m, seen))
  {
    hide Shallow, Measured, StackBelow, Below, Kids, Identities, IdentityAt, PathBytes, KidCount, KidBytes, OwnBytes, Rows,
         ItemBytes, RowOf, ItemOf, Examine, FirstVerdict;
    TopIsNext(s, roots, capacity, budget, cs, k, p);
    VerdictWithSeen(s, p.walk.seen, cs[k]);
    NoKids(s, cs[k]);
    RowBytesOf(s, cs[k]);
    PoppedBytes(s.a, p.walk);
    PoppedFrames(s.a, p.walk);
    OneMore(s, cs, k);
    OneMoreIdentity(s, cs, k);
    RowBytes(p.walk.items, s.a, Top(p.walk).path, m);
  }

  lemma NoKids(s: Scene, c: Candidate)
    ensures !FirstVerdict(s, c).Expand? ==> Kids(s, c) == [] && PathBytes(s.a, Kids(s, c)) == 0
  {
  }

  lemma RefusalFails(s: Scene, roots: seq<Path>, capacity: nat, budget: nat, cs: seq<Candidate>, k: nat, p: Point)
    requires Follows(s, roots, capacity, budget, cs, k, p) && p.walk.stack != [] && VerdictAt(s, p.walk).Refuse?
    ensures k < |cs| && !PassesAt(s, roots, capacity, budget, cs, k)
  {
    hide Shallow, Measured, StackBelow, Below, Kids, Identities, IdentityAt, PathBytes, KidCount, KidBytes, OwnBytes, Rows,
         ItemBytes, RowOf, Examine, FirstVerdict, RoomAt, BytesFitAt;
    TopIsNext(s, roots, capacity, budget, cs, k, p);
    VerdictWithSeen(s, p.walk.seen, cs[k]);
  }

  predicate Unflagged(c: Children) {
    !c.hadErrors && !c.truncated && !c.pathBudgetExhausted
  }

  /** A bounded read of an honest directory is unflagged exactly when the read was and the
      whole directory fits. */
  lemma HonestRead(s: Scene, path: Path, room: ReadBudget)
    requires HonestAt(s, path) && s.a.readChildren(path, room).Ok?
    ensures var children := Bounded(s.a, s.a.readChildren(path, room).value, room);
      var fits := |s.tree(path)| <= room.pathLimit && PathBytes(s.a, s.tree(path)) <= room.remainingPathBytes;
      && (Unflagged(children) <==> ReadsWell(s.a, path, room) && fits)
      && (Unflagged(children) ==> children == Children(s.tree(path), false, false, false))
  {
    var read := s.a.readChildren(path, room).value;
    hide PathBytes, Bounded;
    BoundedMeaning(s.a, read, room);
    KeepsFlags(s.a, read, room);
  }

  lemma KeepsFlags(a: Adapter, read: Children, budget: ReadBudget)
    ensures read.truncated ==> Bounded(a, read, budget).truncated
    ensures read.pathBudgetExhausted ==> Bounded(a, read, budget).pathBudgetExhausted
    ensures read.hadErrors <==> Bounded(a, read, budget).hadErrors
  {
  }

  /** The kids measure what the directory's listing measures. */
  lemma KidsMeasure(s: Scene, c: Candidate, sorted: seq<Path>)
    requires FirstVerdict(s, c).Expand? && TotalPreorder(s.cmp) && SortedPaths(s.cmp, s.tree(c.path), sorted)
    ensures sorted == Kids(s, c) && |Kids(s, c)| == |s.tree(c.path)|
    ensures PathBytes(s.a, Kids(s, c)) == PathBytes(s.a, s.tree(c.path))
  {
    hide TotalPreorder, SortedOf;
    PathBytesReordered(s.a, sorted, s.tree(c.path));
  }

  /** Whatever the order of the children of an unsorted read, the stable sort measures the same. */
  lemma KidsMeasureAlways(s: Scene, c: Candidate)
    requires FirstVerdict(s, c).Expand? && TotalPreorder(s.cmp)
    ensures |Kids(s, c)| == |s.tree(c.path)| && PathBytes(s.a, Kids(s, c)) == PathBytes(s.a, s.tree(c.path))
  {
    SortedOfKeeps(s.cmp, s.tree(c.path));
    PathBytesReordered(s.a, Kids(s, c), s.tree(c.path));
  }

  lemma SortedOfKeeps(cmp: Comparator<Path>, paths: seq<Path>)
    requires TotalPreorder(cmp)
    ensures multiset(SortedOf(cmp, paths)) == multiset(paths) && |SortedOf(cmp, paths)| == |paths|
  {
    var t := SortedOf(cmp, paths);
    if exists u :: StableSortOf(cmp, paths, u) {
      PreorderEverywhere(cmp, paths);
      StableSortMeaning(cmp, paths, t, t);
    }
    assert |multiset(t)| == |t| && |multiset(paths)| == |paths|;
  }

  /** The room of the next read, in terms of the candidates. */
  lemma RoomAtFollows(s: Scene, roots: seq<Path>, capacity: nat, budget: nat, cs: seq<Candidate>, k: nat, p: Point)
    requires Follows(s, roots, capacity, budget, cs, k, p) && p.walk.stack != []
    ensures k < |cs|
    ensures RoomFor(capacity, p.walk, p.remaining) == RoomOf(s, roots, capacity, budget, cs, k)
    ensures Met(s, roots, cs, k) <= capacity
  {
    hide Shallow, Measured, StackBelow, Below, Kids, Identities, PathBytes, KidCount, KidBytes, OwnBytes, Rows, ItemBytes,
         Examine, FirstVerdict;
    TopIsNext(s, roots, capacity, budget, cs, k, p);
    PoppedBytes(s.a, p.walk);
  }

  /** An opened directory passes exactly when there is room for it and all its children. */
  lemma OpenedPasses(s: Scene, roots: seq<Path>, capacity: nat, budget: nat, cs: seq<Candidate>, k: nat, p: Point,
                     seen: set<nat>, sorted: seq<Path>)
    requires Reliable(s, cs) && Follows(s, roots, capacity, budget, cs, k, p) && p.walk.stack != []
    requires VerdictAt(s, p.walk) == Expand(seen) && SortedPaths(s.cmp, ChildrenAt(s, capacity, p), sorted)
    ensures k < |cs|
    ensures Opened(s, capacity, p, seen, sorted).walk.issues == [] <==> PassesAt(s, roots, capacity, budget, cs, k)
    ensures PassesAt(s, roots, capacity, budget, cs, k) ==>
              && RoomFor(capacity, p.walk, p.remaining).pathLimit > 0
              && ChildrenAt(s, capacity, p) == s.tree(cs[k].path) && sorted == Kids(s, cs[k])
              && PathBytes(s.a, sorted) <= RoomFor(capacity, p.walk, p.remaining).remainingPathBytes
  {
    hide Shallow, Measured, StackBelow, Below, AllBelow, Kids, Identities, IdentityAt, PathBytes, KidCount, KidBytes, OwnBytes,
         Rows, ItemBytes, RowOf, Examine, FirstVerdict, Bounded, HonestAt, SortedOf, RoomFor, SortedPaths;
    VerdictMeaning(s, p.walk);
    TopIsNext(s, roots, capacity, budget, cs, k, p);
    RoomAtFollows(s, roots, capacity, budget, cs, k, p);
    VerdictWithSeen(s, p.walk.seen, cs[k]);
    var room, c := RoomFor(capacity, p.walk, p.remaining), cs[k];
    KidsMeasureAlways(s, c);
    OneMore(s, cs, k);
    if room.pathLimit > 0 {
      if s.a.readChildren(c.path, room).Ok? {
        HonestRead(s, c.path, room);
      }
      if ChildrenAt(s, capacity, p) == s.tree(c.path) {
        KidsMeasure(s, c, sorted);
      }
    }
  }

  /** The walk with the kids of its top candidate pushed. */
  ghost function WithKids(s: Scene, w: Walk, seen: set<nat>, kids: seq<Path>): Walk
    requires w.stack != []
  {
    Walk(Popped(w).stack + Pushed(s.a, kids, Top(w).depth + 1), Popped(w).stackBytes + PathBytes(s.a, kids), seen,
         w.inspected + 1, w.items, w.issues)
  }

  lemma WithKidsFollows(s: Scene, roots: seq<Path>, capacity: nat, budget: nat, cs: seq<Candidate>, k: nat, p: Point,
                        seen: set<nat>)
    requires Follows(s, roots, capacity, budget, cs, k, p) && p.walk.stack != []
    requires k < |cs| && FirstVerdict(s, cs[k]).Expand? && cs[k].depth < MAX_ADMISSION_DEPTH
    requires Met(s, roots, cs, k + 1) <= capacity && seen == Identities(s, cs[..k + 1])
    requires Popped(p.walk).stackBytes + PathBytes(s.a, Kids(s, cs[k])) <= MAX_USIZE
    ensures Follows(s, roots, capacity, budget, cs, k + 1, Point(WithKids(s, p.walk, seen, Kids(s, cs[k])), p.remaining, false))
  {
    hide Shallow, Measured, StackBelow, Below, AllBelow, Kids, Identities, PathBytes, KidCount, KidBytes, OwnBytes,
         Rows, ItemBytes, RowOf, Examine, FirstVerdict, Pushed;
    TopIsNext(s, roots, capacity, budget, cs, k, p);
    PoppedBytes(s.a, p.walk);
    PoppedFrames(s.a, p.walk);
    OneMore(s, cs, k);
    RowBytesOf(s, cs[k]);
    var kids, depth := Kids(s, cs[k]), Top(p.walk).depth + 1;
    PushedBelow(s, Popped(p.walk).stack, kids, depth);
    PushedPathBytes(s.a, Popped(p.walk).stack, kids, depth);
    PushedShape(s.a, Popped(p.walk).stack, kids, depth);
  }

  lemma OpenedIsWithKids(s: Scene, capacity: nat, p: Point, seen: set<nat>, kids: seq<Path>)
    requires p.walk.stack != []
    requires RoomFor(capacity, p.walk, p.remaining).pathLimit > 0
    requires Opened(s, capacity, p, seen, kids).walk.issues == p.walk.issues
    requires Popped(p.walk).stackBytes + PathBytes(s.a, kids) <= MAX_USIZE
    ensures Opened(s, capacity, p, seen, kids) == Point(WithKids(s, p.walk, seen, kids), p.remaining, false)
  {
    hide Bounded, Flags, Pushed, PushedTotal, PathBytes;
    PushedTotalIsSum(s.a, kids, Popped(p.walk).stackBytes);
  }

  /** And then the walk goes on with the children. */
  lemma OpenedFollows(s: Scene, roots: seq<Path>, capacity: nat, budget: nat, cs: seq<Candidate>, k: nat, p: Point,
                      seen: set<nat>, sorted: seq<Path>)
    requires Reliable(s, cs) && Follows(s, roots, capacity, budget, cs, k, p) && p.walk.stack != []
    requires VerdictAt(s, p.walk) == Expand(seen) && SortedPaths(s.cmp, ChildrenAt(s, capacity, p), sorted)
    requires k < |cs| && PassesAt(s, roots, capacity, budget, cs, k)
    ensures Follows(s, roots, capacity, budget, cs, k + 1, Opened(s, capacity, p, seen, sorted))
  {
    hide Follows, Opened, Steps, Examine, FirstVerdict, HonestAt, TotalPreorder, Kids, Identities, IdentityAt, PathBytes,
         ChildrenAt, SortedPaths, BytesFitAt, Met, WithKids;
    OpenedPasses(s, roots, capacity, budget, cs, k, p, seen, sorted);
    VerdictMeaning(s, p.walk);
    FollowsFacts(s, roots, capacity, budget, cs, k, p);
    VerdictWithSeen(s, p.walk.seen, cs[k]);
    OneMoreIdentity(s, cs, k);
    OpenedIsWithKids(s, capacity, p, seen, sorted);
    WithKidsFollows(s, roots, capacity, budget, cs, k, p, seen);
  }

  lemma FollowsFacts(s: Scene, roots: seq<Path>, capacity: nat, budget: nat, cs: seq<Candidate>, k: nat, p: Point)
    requires Follows(s, roots, capacity, budget, cs, k, p) && p.walk.stack != []
    ensures k < |cs| && cs[k] == Candidate(Top(p.walk).path, Top(p.walk).depth)
    ensures p.walk.issues == [] && p.walk.seen == Identities(s, cs[..k])
    ensures Popped(p.walk).stackBytes + RoomFor(capacity, p.walk, p.remaining).remainingPathBytes <= MAX_USIZE
  {
    hide Shallow, Measured, StackBelow, Identities, PathBytes, Met, WaitingBytes, Rows, ItemBytes;
    TopIsNext(s, roots, capacity, budget, cs, k, p);
  }

  // ----- Whole runs -----

  lemma CleanStep(s: Scene, roots: seq<Path>, capacity: nat, budget: nat, cs: seq<Candidate>, k: nat, p: Point, q: Point)
    requires Reliable(s, cs) && Follows(s, roots, capacity, budget, cs, k, p) && Steps(s, capacity, p, q)
    ensures k < |cs| && (q.walk.issues == [] <==> PassesAt(s, roots, capacity, budget, cs, k))
    ensures PassesAt(s, roots, capacity, budget, cs, k) ==> Follows(s, roots, capacity, budget, cs, k + 1, q)
  {
    hide Reliable, Follows, PassesAt, Examine, Opened, Admitted, SortedPaths, ChildrenAt;
    var sorted :| SortedPaths(s.cmp, ChildrenAt(s, capacity, p), sorted) && q == Stepped(s, capacity, p, sorted);
    match VerdictAt(s, p.walk)
    case Refuse(_, _, _) => RefusalFails(s, roots, capacity, budget, cs, k, p);
    case Expand(seen) =>
      OpenedPasses(s, roots, capacity, budget, cs, k, p, seen, sorted);
      if PassesAt(s, roots, capacity, budget, cs, k) {
        OpenedFollows(s, roots, capacity, budget, cs, k, p, seen, sorted);
      }
    case Admit(m, seen) => AdmitFollows(s, roots, capacity, budget, cs, k, p, m, seen);
  }

  lemma StartFollows(s: Scene, roots: seq<Path>, capacity: nat, budget: nat, p: Point)
    requires Starts(s, roots, capacity, budget, p) && |roots| <= capacity <= MAX_ADMITTED_SOURCES
    requires TotalPreorder(s.cmp) && PathBytes(s.a, roots) <= MAX_USIZE && budget <= MAX_ADMITTED_PATH_BYTES
    ensures Follows(s, roots, capacity, budget, Candidates(s, roots), 0, p)
  {
    hide TotalPreorder, Below, AllBelow, StackBelow, PathBytes, PushedTotal, SortedOf, Shallow, Measured;
    var sorted :| SortedPaths(s.cmp, roots, sorted) && p == StartPoint(s, roots, capacity, budget, sorted);
    var stack, cs := [] + Pushed(s.a, sorted, 0), Candidates(s, roots);
    PathBytesReordered(s.a, sorted, roots);
    EmptyStack(s);
    PushedBelow(s, [], sorted, 0);
    PushedPathBytes(s.a, [], sorted, 0);
    PushedShape(s.a, [], sorted, 0);
    PushedTotalIsSum(s.a, sorted, 0);
    assert cs[0..] == cs && cs[..0] == [] && StackBelow(s, stack) == cs;
  }

  lemma EmptyStack(s: Scene)
    ensures Shallow([]) && Measured(s.a, []) && StackBelow(s, []) == [] && PathBytes(s.a, PathsOf([])) == 0
  {
    assert PathsOf([]) == [];
  }

  /** The first `n` candidates pass. */
  ghost predicate PassUpTo(s: Scene, roots: seq<Path>, capacity: nat, budget: nat, n: nat) {
    var cs := Candidates(s, roots);
    |roots| <= capacity && n <= |cs| && forall k | 0 <= k < n :: PassesAt(s, roots, capacity, budget, cs, k)
  }

  lemma {:induction false} CleanWhilePassing(s: Scene, roots: seq<Path>, capacity: nat, budget: nat, run: seq<Point>, k: nat)
    requires Reliable(s, Candidates(s, roots)) && IsRun(s, roots, capacity, budget, run) && k < |run|
    requires capacity <= MAX_ADMITTED_SOURCES && budget <= MAX_ADMITTED_PATH_BYTES && PathBytes(s.a, roots) <= MAX_USIZE
    ensures run[k].walk.issues == [] <==> PassUpTo(s, roots, capacity, budget, k)
    ensures run[k].walk.issues == [] ==> Follows(s, roots, capacity, budget, Candidates(s, roots), k, run[k])
  {
    hide Follows, PassesAt, Steps, Candidates, FirstVerdict, HonestAt, TotalPreorder, PathBytes;
    if k == 0 {
      if |roots| <= capacity {
        StartFollows(s, roots, capacity, budget, run[0]);
        FollowsIsClean(s, roots, capacity, budget, Candidates(s, roots), 0, run[0]);
      }
    } else {
      CleanWhilePassing(s, roots, capacity, budget, run, k - 1);
      NotStoppedBefore(s, roots, capacity, budget, run, k - 1);
      IssuesGrow(s, capacity, run[k - 1], run[k]);
      if run[k - 1].walk.issues == [] {
        CleanStep(s, roots, capacity, budget, Candidates(s, roots), k - 1, run[k - 1], run[k]);
      }
    }
  }

  lemma FollowsIsClean(s: Scene, roots: seq<Path>, capacity: nat, budget: nat, cs: seq<Candidate>, k: nat, p: Point)
    requires Follows(s, roots, capacity, budget, cs, k, p)
    ensures p.walk.issues == [] && !p.stopped && k <= |cs| && (p.walk.stack == [] <==> k == |cs|)
    ensures p.walk.items == Rows(s, cs[..k])
  {
    hide Measured, Met, WaitingBytes, PathBytes, Rows, ItemBytes, Identities;
    if p.walk.stack != [] {
      TopIsNext(s, roots, capacity, budget, cs, k, p);
    }
  }

  /** A complete run reports nothing exactly when every candidate passes. */
  lemma CompleteIsCleanExactly(s: Scene, roots: seq<Path>, capacity: nat, budget: nat, run: seq<Point>)
    requires Reliable(s, Candidates(s, roots)) && IsRun(s, roots, capacity, budget, run) && Complete(run)
    requires capacity <= MAX_ADMITTED_SOURCES && budget <= MAX_ADMITTED_PATH_BYTES && PathBytes(s.a, roots) <= MAX_USIZE
    ensures Last(run).walk.issues == [] <==> PassUpTo(s, roots, capacity, budget, |Candidates(s, roots)|)
    ensures Last(run).walk.issues == [] ==> Last(run).walk.items == Rows(s, Candidates(s, roots))
  {
    hide Follows, PassesAt, Steps, Starts, Candidates, Reliable, PathBytes;
    var cs, n := Candidates(s, roots), |run| - 1;
    CleanWhilePassing(s, roots, capacity, budget, run, n);
    if Last(run).walk.issues == [] {
      FollowsIsClean(s, roots, capacity, budget, cs, n, run[n]);
      assert cs[..n] == cs;
    } else if PassUpTo(s, roots, capacity, budget, |cs|) {
      if n >= |cs| {
        CleanWhilePassing(s, roots, capacity, budget, run, |cs|);
        FollowsIsClean(s, roots, capacity, budget, cs, |cs|, run[|cs|]);
        if n > |cs| {
          NotStoppedBefore(s, roots, capacity, budget, run, |cs|);
        }
      }
      assert false;
    }
  }

  // ----- The condition on the whole tree -----

  ghost predicate NoneRefused(s: Scene, cs: seq<Candidate>) {
    forall i | 0 <= i < |cs| :: !FirstVerdict(s, cs[i]).Refuse?
  }

  lemma {:induction false} RowsConcat(s: Scene, x: seq<Candidate>, y: seq<Candidate>)
    ensures Rows(s, x + y) == Rows(s, x) + Rows(s, y)
  {
    hide RowOf;
    if y == [] {
      assert x + y == x;
    } else {
      assert (x + y)[..|x + y| - 1] == x + y[..|y| - 1];
      RowsConcat(s, x, y[..|y| - 1]);
      assert Rows(s, x) + (Rows(s, y[..|y| - 1]) + RowOf(s, y[|y| - 1])) == Rows(s, x) + Rows(s, y);
    }
  }

  lemma {:induction false} SumsConcat(s: Scene, x: seq<Candidate>, y: seq<Candidate>)
    ensures KidCount(s, x + y) == KidCount(s, x) + KidCount(s, y)
    ensures KidBytes(s, x + y) == KidBytes(s, x) + KidBytes(s, y)
    ensures OwnBytes(s, x + y) == OwnBytes(s, x) + OwnBytes(s, y)
  {
    hide Kids, PathBytes;
    if y == [] {
      assert x + y == x;
    } else {
      assert (x + y)[..|x + y| - 1] == x + y[..|y| - 1];
      SumsConcat(s, x, y[..|y| - 1]);
    }
  }

  lemma SumsOfOne(s: Scene, c: Candidate)
    ensures KidCount(s, [c]) == |Kids(s, c)| && KidBytes(s, [c]) == PathBytes(s.a, Kids(s, c))
    ensures OwnBytes(s, [c]) == 2 * s.a.units(c.path) && Rows(s, [c]) == RowOf(s, c)
  {
    hide Kids, RowOf, PathBytes;
    OneMore(s, [c], 0);
    assert [c][..1] == [c] && [c][..0] == [];
  }

  /** Every candidate but the first ones is a kid of one before it. */
  lemma {:induction false} BelowAddsUp(s: Scene, c: Candidate)
    requires c.depth <= MAX_ADMISSION_DEPTH
    ensures |Below(s, c)| == 1 + KidCount(s, Below(s, c))
    ensures OwnBytes(s, Below(s, c)) == 2 * s.a.units(c.path) + KidBytes(s, Below(s, c))
    decreases MAX_ADMISSION_DEPTH - c.depth, 0
  {
    hide KidCount, KidBytes, OwnBytes, PathBytes, AllBelow, Kids;
    var rest := if FirstVerdict(s, c).Expand? then AllBelow(s, Kids(s, c), c.depth + 1) else [];
    SumsConcat(s, [c], rest);
    SumsOfOne(s, c);
    NoKids(s, c);
    if FirstVerdict(s, c).Expand? {
      AllBelowAddUp(s, Kids(s, c), c.depth + 1);
    } else {
      NothingSummed(s);
    }
  }

  lemma NothingSummed(s: Scene)
    ensures KidCount(s, []) == 0 && KidBytes(s, []) == 0 && OwnBytes(s, []) == 0
  {
  }

  lemma {:induction false} AllBelowAddUp(s: Scene, paths: seq<Path>, depth: nat)
    requires depth <= MAX_ADMISSION_DEPTH
    ensures |AllBelow(s, paths, depth)| == |paths| + KidCount(s, AllBelow(s, paths, depth))
    ensures OwnBytes(s, AllBelow(s, paths, depth)) == PathBytes(s.a, paths) + KidBytes(s, AllBelow(s, paths, depth))
    decreases MAX_ADMISSION_DEPTH - depth, 1 + |paths|
  {
    hide Below, Kids;
    if paths != [] {
      var c := Candidate(paths[0], depth);
      BelowAddsUp(s, c);
      AllBelowAddUp(s, paths[1..], depth);
      SumsConcat(s, Below(s, c), AllBelow(s, paths[1..], depth));
    }
  }

  /** The listing exists when no candidate is refused, and then it holds their rows. */
  lemma {:induction false} BelowIsListed(s: Scene, c: Candidate)
    requires c.depth <= MAX_ADMISSION_DEPTH
    ensures Listing(s, c.path, c.depth) == if NoneRefused(s, Below(s, c)) then Some(Rows(s, Below(s, c))) else None
    decreases MAX_ADMISSION_DEPTH - c.depth, 0
  {
    hide Rows, AllBelow, ListAll, RowOf, Listing, FirstVerdict, Kids, NoneRefused;
    ListingByVerdict(s, c);
    RefusedAlone(s, c);
    var rest := if FirstVerdict(s, c).Expand? then AllBelow(s, Kids(s, c), c.depth + 1) else [];
    assert Below(s, c) == [c] + rest;
    NoneRefusedConcat(s, [c], rest);
    RowsConcat(s, [c], rest);
    SumsOfOne(s, c);
    NoRows(s);
    assert RowOf(s, c) + [] == RowOf(s, c) && [] + Rows(s, rest) == Rows(s, rest);
    if FirstVerdict(s, c).Expand? {
      AllBelowAreListed(s, Kids(s, c), c.depth + 1);
    }
  }

  lemma ListingByVerdict(s: Scene, c: Candidate)
    requires c.depth <= MAX_ADMISSION_DEPTH
    ensures var v := FirstVerdict(s, c);
      && (v.Refuse? ==> Listing(s, c.path, c.depth) == None)
      && (v.Expand? ==> c.depth < MAX_ADMISSION_DEPTH && RowOf(s, c) == []
                        && Listing(s, c.path, c.depth) == ListAll(s, Kids(s, c), c.depth + 1))
      && (v.Admit? ==> Listing(s, c.path, c.depth) == Some(RowOf(s, c)))
  {
    hide ListAll, SortedOf;
  }

  lemma RefusedAlone(s: Scene, c: Candidate)
    ensures NoneRefused(s, [c]) <==> !FirstVerdict(s, c).Refuse?
  {
    hide FirstVerdict;
    assert [c][0] == c;
  }

  lemma NoRows(s: Scene)
    ensures Rows(s, []) == [] && NoneRefused(s, [])
  {
  }

  lemma NoneRefusedConcat(s: Scene, x: seq<Candidate>, y: seq<Candidate>)
    ensures NoneRefused(s, x + y) <==> NoneRefused(s, x) && NoneRefused(s, y)
  {
    hide FirstVerdict;
    if NoneRefused(s, x + y) {
      assert forall i | 0 <= i < |x| :: x[i] == (x + y)[i];
      assert forall i | 0 <= i < |y| :: y[i] == (x + y)[|x| + i];
    }
  }

  lemma {:induction false} AllBelowAreListed(s: Scene, paths: seq<Path>, depth: nat)
    requires depth <= MAX_ADMISSION_DEPTH
    ensures var cs := AllBelow(s, paths, depth);
            ListAll(s, paths, depth) == if NoneRefused(s, cs) then Some(Rows(s, cs)) else None
    decreases MAX_ADMISSION_DEPTH - depth, 1 + |paths|
  {
    hide Below, Listing, Rows, NoneRefused;
    NoRows(s);
    if paths != [] {
      var c := Candidate(paths[0], depth);
      BelowIsListed(s, c);
      AllBelowAreListed(s, paths[1..], depth);
      RowsConcat(s, Below(s, c), AllBelow(s, paths[1..], depth));
      NoneRefusedConcat(s, Below(s, c), AllBelow(s, paths[1..], depth));
    }
  }

  /** No two candidates are the same directory. */
  ghost predicate DistinctDirectories(s: Scene, cs: seq<Candidate>) {
    forall i, j | 0 <= i < j < |cs| ::
      IdentityAt(s, cs[i]).Some? && IdentityAt(s, cs[j]).Some? ==> IdentityAt(s, cs[i]) != IdentityAt(s, cs[j])
  }

  lemma DistinctMeansFresh(s: Scene, cs: seq<Candidate>)
    ensures DistinctDirectories(s, cs) <==> forall k | 0 <= k < |cs| :: Fresh(s, cs, k)
  {
    hide IdentityAt;
    if DistinctDirectories(s, cs) {
      forall k | 0 <= k < |cs| ensures Fresh(s, cs, k) {
        assert forall i | 0 <= i < k :: cs[..k][i] == cs[i];
      }
    }
    if forall k | 0 <= k < |cs| :: Fresh(s, cs, k) {
      forall i, j | 0 <= i < j < |cs| && IdentityAt(s, cs[i]).Some? && IdentityAt(s, cs[j]).Some?
        ensures IdentityAt(s, cs[i]) != IdentityAt(s, cs[j])
      {
        assert Fresh(s, cs, j) && cs[..j][i] == cs[i];
      }
    }
  }

  /** The capacity is not used up before a directory is opened. */
  ghost predicate RoomToOpen(s: Scene, roots: seq<Path>, capacity: nat, cs: seq<Candidate>) {
    forall k | 0 <= k < |cs| && FirstVerdict(s, cs[k]).Expand? :: Met(s, roots, cs, k) < capacity
  }

  ghost predicate BytesFit(s: Scene, roots: seq<Path>, budget: nat, cs: seq<Candidate>) {
    forall k | 0 <= k < |cs| :: BytesFitAt(s, roots, budget, cs, k)
  }

  ghost predicate ReadsFine(s: Scene, roots: seq<Path>, capacity: nat, budget: nat, cs: seq<Candidate>) {
    forall k | 0 <= k < |cs| :: ReadsAt(s, roots, capacity, budget, cs, k)
  }

  /** The condition for a report without issues: everything can be listed, no directory
      is met twice, all candidates are within the capacity, which is never used up before
      a directory is opened, each directory then reads without errors and flags, and the
      bytes fit at every candidate. */
  ghost predicate Clear(s: Scene, roots: seq<Path>, capacity: nat, budget: nat) {
    var cs := Candidates(s, roots);
    && ListAll(s, SortedOf(s.cmp, roots), 0).Some? && DistinctDirectories(s, cs)
    && |cs| <= capacity && RoomToOpen(s, roots, capacity, cs)
    && ReadsFine(s, roots, capacity, budget, cs) && BytesFit(s, roots, budget, cs)
  }

  lemma {:induction false} MetGrows(s: Scene, roots: seq<Path>, cs: seq<Candidate>, j: nat, k: nat)
    requires j <= k <= |cs|
    ensures Met(s, roots, cs, j) <= Met(s, roots, cs, k)
  {
    hide KidCount, Kids, Rows, KidBytes, OwnBytes;
    if j < k {
      MetGrows(s, roots, cs, j, k - 1);
      OneMore(s, cs, k - 1);
    }
  }

  lemma MetInAll(s: Scene, roots: seq<Path>)
    requires TotalPreorder(s.cmp)
    ensures var cs := Candidates(s, roots); Met(s, roots, cs, |cs|) == |cs|
    ensures var cs := Candidates(s, roots); OwnBytes(s, cs) == PathBytes(s.a, roots) + KidBytes(s, cs)
  {
    hide TotalPreorder, SortedOf, AllBelow, KidCount, KidBytes, OwnBytes, PathBytes;
    var cs := Candidates(s, roots);
    SortedOfKeeps(s.cmp, roots);
    PathBytesReordered(s.a, SortedOf(s.cmp, roots), roots);
    AllBelowAddUp(s, SortedOf(s.cmp, roots), 0);
    assert cs[..|cs|] == cs;
  }

  lemma {:induction false} MetWithin(s: Scene, roots: seq<Path>, capacity: nat, budget: nat, k: nat)
    requires PassUpTo(s, roots, capacity, budget, k)
    ensures Met(s, roots, Candidates(s, roots), k) <= capacity
  {
    hide FirstVerdict, Fresh, BytesFitAt, ReadsAt, Candidates, Kids;
    var cs := Candidates(s, roots);
    if k == 0 {
      assert cs[..0] == [];
    } else {
      MetWithin(s, roots, capacity, budget, k - 1);
      assert PassesAt(s, roots, capacity, budget, cs, k - 1);
      OneMore(s, cs, k - 1);
      NoKids(s, cs[k - 1]);
    }
  }

  lemma PassingIsClear(s: Scene, roots: seq<Path>, capacity: nat, budget: nat)
    requires TotalPreorder(s.cmp) && PassUpTo(s, roots, capacity, budget, |Candidates(s, roots)|)
    ensures Clear(s, roots, capacity, budget)
  {
    hide TotalPreorder, FirstVerdict, AllBelow, BytesFitAt, ReadsAt, Fresh, Met, SortedOf, ListAll, DistinctDirectories;
    var cs := Candidates(s, roots);
    forall k | 0 <= k < |cs|
      ensures !FirstVerdict(s, cs[k]).Refuse? && BytesFitAt(s, roots, budget, cs, k) && Fresh(s, cs, k)
      ensures ReadsAt(s, roots, capacity, budget, cs, k)
      ensures FirstVerdict(s, cs[k]).Expand? ==> Met(s, roots, cs, k) < capacity
    {
      assert PassesAt(s, roots, capacity, budget, cs, k);
    }
    AllBelowAreListed(s, SortedOf(s.cmp, roots), 0);
    DistinctMeansFresh(s, cs);
    MetWithin(s, roots, capacity, budget, |cs|);
    MetInAll(s, roots);
  }

  lemma ClearPassesAt(s: Scene, roots: seq<Path>, capacity: nat, budget: nat, cs: seq<Candidate>, k: nat)
    requires k < |cs| && NoneRefused(s, cs) && Fresh(s, cs, k) && BytesFitAt(s, roots, budget, cs, k)
    requires RoomToOpen(s, roots, capacity, cs) && Met(s, roots, cs, |cs|) <= capacity
    requires ReadsAt(s, roots, capacity, budget, cs, k)
    ensures PassesAt(s, roots, capacity, budget, cs, k)
  {
    hide FirstVerdict, BytesFitAt, ReadsAt, Fresh, Met;
    MetGrows(s, roots, cs, k + 1, |cs|);
  }

  lemma ClearIsPassing(s: Scene, roots: seq<Path>, capacity: nat, budget: nat)
    requires TotalPreorder(s.cmp) && Clear(s, roots, capacity, budget)
    ensures PassUpTo(s, roots, capacity, budget, |Candidates(s, roots)|)
  {
    hide TotalPreorder, FirstVerdict, AllBelow, BytesFitAt, ReadsAt, Fresh, SortedOf, ListAll, DistinctDirectories, KidCount,
         PassesAt, NoneRefused, RoomToOpen;
    var cs := Candidates(s, roots);
    AllBelowAreListed(s, SortedOf(s.cmp, roots), 0);
    DistinctMeansFresh(s, cs);
    MetInAll(s, roots);
    forall k | 0 <= k < |cs| ensures PassesAt(s, roots, capacity, budget, cs, k) {
      ClearPassesAt(s, roots, capacity, budget, cs, k);
    }
  }

  /** The exact condition for a report without issues, which then holds the listing. */
  lemma IssueFreeExactly(s: Scene, roots: seq<Path>, capacity: nat, budget: nat, run: seq<Point>)
    requires Reliable(s, Candidates(s, roots)) && IsRun(s, roots, capacity, budget, run) && Complete(run)
    requires capacity <= MAX_ADMITTED_SOURCES && budget <= MAX_ADMITTED_PATH_BYTES && PathBytes(s.a, roots) <= MAX_USIZE
    ensures ReportOf(run).issues == [] <==> Clear(s, roots, capacity, budget)
    ensures ReportOf(run).issues == [] ==> Some(ReportOf(run).items) == ListAll(s, SortedOf(s.cmp, roots), 0)
  {
    hide IsRun, Complete, PassUpTo, TotalPreorder, HonestAt, PathBytes, FirstVerdict, AllBelow, ListAll, SortedOf, Rows,
         DistinctDirectories, RoomToOpen, ReadsFine, BytesFit, NoneRefused;
    CompleteIsCleanExactly(s, roots, capacity, budget, run);
    AllBelowAreListed(s, SortedOf(s.cmp, roots), 0);
    if PassUpTo(s, roots, capacity, budget, |Candidates(s, roots)|) {
      PassingIsClear(s, roots, capacity, budget);
    }
    if Clear(s, roots, capacity, budget) {
      ClearIsPassing(s, roots, capacity, budget);
    }
  }

  // ----- Readable cases -----

  lemma {:induction false} RowsWithinOwnBytes(s: Scene, cs: seq<Candidate>, k: nat)
    requires LegacyFits(s.a) && k <= |cs|
    ensures ItemBytes(Rows(s, cs[..k])) <= OwnBytes(s, cs[..k])
  {
    hide RowOf, FirstVerdict, LegacyFits, Rows, OwnBytes, KidCount, Kids, KidBytes;
    if k == 0 {
      assert cs[..0] == [];
      NoRows(s);
    } else {
      RowsWithinOwnBytes(s, cs, k - 1);
      OneMore(s, cs, k - 1);
      RowFits(s, cs[k - 1]);
      ItemBytesAppend(s, Rows(s, cs[..k - 1]), cs[k - 1]);
    }
  }

  lemma RowFits(s: Scene, c: Candidate)
    requires LegacyFits(s.a)
    ensures ItemBytes(RowOf(s, c)) <= 2 * s.a.units(c.path)
  {
    RowBytesOf(s, c);
  }

  lemma ItemBytesAppend(s: Scene, items: seq<Item>, c: Candidate)
    ensures ItemBytes(items + RowOf(s, c)) == ItemBytes(items) + ItemBytes(RowOf(s, c))
  {
    RowBytesOf(s, c);
    if FirstVerdict(s, c).Admit? {
      RowBytes(items, s.a, c.path, FirstVerdict(s, c).metadata);
    } else {
      assert items + [] == items;
    }
  }

  lemma {:induction false} SumsGrow(s: Scene, cs: seq<Candidate>, j: nat, k: nat)
    requires j <= k <= |cs|
    ensures KidBytes(s, cs[..j]) <= KidBytes(s, cs[..k]) && OwnBytes(s, cs[..j]) <= OwnBytes(s, cs[..k])
  {
    hide KidCount, Kids, Rows, KidBytes, OwnBytes, PathBytes;
    if j < k {
      SumsGrow(s, cs, j, k - 1);
      OneMore(s, cs, k - 1);
    }
  }

  /** Bytes for every candidate's path are enough when no legacy text is longer. */
  lemma AmpleBytesFit(s: Scene, roots: seq<Path>, budget: nat, k: nat)
    requires TotalPreorder(s.cmp) && LegacyFits(s.a) && OwnBytes(s, Candidates(s, roots)) <= budget
    requires k < |Candidates(s, roots)|
    ensures BytesFitAt(s, roots, budget, Candidates(s, roots), k)
  {
    hide TotalPreorder, LegacyFits, Candidates, FirstVerdict, Kids, KidCount, KidBytes, OwnBytes, PathBytes, Rows, RowOf, ItemBytes;
    var cs := Candidates(s, roots);
    assert cs[..|cs|] == cs;
    RowsWithinOwnBytes(s, cs, k);
    RowFits(s, cs[k]);
    OneMore(s, cs, k);
    SumsGrow(s, cs, k + 1, |cs|);
    MetInAll(s, roots);
  }

  /** The directory always reads without errors, and only real overflow is flagged. */
  ghost predicate CandidAt(s: Scene, path: Path) {
    forall room: ReadBudget ::
      var r := s.a.readChildren(path, room);
      && r.Ok? && !r.value.hadErrors
      && (|s.tree(path)| <= room.pathLimit && PathBytes(s.a, s.tree(path)) <= room.remainingPathBytes ==>
            !r.value.truncated && !r.value.pathBudgetExhausted)
  }

  ghost predicate Candid(s: Scene, cs: seq<Candidate>) {
    forall i | 0 <= i < |cs| && FirstVerdict(s, cs[i]).Expand? :: CandidAt(s, cs[i].path)
  }

  lemma AmpleReads(s: Scene, roots: seq<Path>, capacity: nat, budget: nat, cs: seq<Candidate>, k: nat)
    requires TotalPreorder(s.cmp) && Candid(s, cs) && k < |cs|
    requires Met(s, roots, cs, k + 1) <= capacity && BytesFitAt(s, roots, budget, cs, k)
    ensures ReadsAt(s, roots, capacity, budget, cs, k)
  {
    hide TotalPreorder, FirstVerdict, Kids, BytesLeft, PathBytes, KidCount;
    if FirstVerdict(s, cs[k]).Expand? {
      KidsMeasureAlways(s, cs[k]);
      OneMore(s, cs, k);
      assert CandidAt(s, cs[k].path);
    }
  }

  /** With capacity to spare and bytes for every candidate, a tree that can be listed and
      read and meets no directory twice is reported whole and without issues. */
  lemma AmpleIsClear(s: Scene, roots: seq<Path>, capacity: nat, budget: nat)
    requires TotalPreorder(s.cmp) && LegacyFits(s.a)
    requires var cs := Candidates(s, roots);
      && ListAll(s, SortedOf(s.cmp, roots), 0).Some? && DistinctDirectories(s, cs) && Candid(s, cs)
      && |cs| < capacity && OwnBytes(s, cs) <= budget
    ensures Clear(s, roots, capacity, budget)
  {
    hide TotalPreorder, LegacyFits, Candidates, FirstVerdict, BytesFitAt, ReadsAt, Met, SortedOf, ListAll, DistinctDirectories,
         OwnBytes, Candid;
    var cs := Candidates(s, roots);
    MetInAll(s, roots);
    forall k | 0 <= k < |cs|
      ensures Met(s, roots, cs, k) < capacity && BytesFitAt(s, roots, budget, cs, k)
      ensures ReadsAt(s, roots, capacity, budget, cs, k)
    {
      MetGrows(s, roots, cs, k, |cs|);
      MetGrows(s, roots, cs, k + 1, |cs|);
      AmpleBytesFit(s, roots, budget, k);
      AmpleReads(s, roots, capacity, budget, cs, k);
    }
  }

  lemma CollectsEverything(s: Scene, roots: seq<Path>, capacity: nat, budget: nat, run: seq<Point>)
    requires Reliable(s, Candidates(s, roots)) && LegacyFits(s.a) && IsRun(s, roots, capacity, budget, run) && Complete(run)
    requires capacity <= MAX_ADMITTED_SOURCES && budget <= MAX_ADMITTED_PATH_BYTES && PathBytes(s.a, roots) <= MAX_USIZE
    requires var cs := Candidates(s, roots);
      && ListAll(s, SortedOf(s.cmp, roots), 0).Some? && DistinctDirectories(s, cs) && Candid(s, cs)
      && |cs| < capacity && OwnBytes(s, cs) <= budget
    ensures ReportOf(run).issues == [] && Some(ReportOf(run).items) == ListAll(s, SortedOf(s.cmp, roots), 0)
  {
    hide IsRun, Complete, Clear, Candid, HonestAt, TotalPreorder, LegacyFits, Candidates, DistinctDirectories, ListAll, SortedOf,
         OwnBytes, PathBytes, FirstVerdict;
    AmpleIsClear(s, roots, capacity, budget);
    IssueFreeExactly(s, roots, capacity, budget, run);
  }

  // ----- Direct mode -----

  lemma {:induction false} DirectHasNoKids(s: Scene, cs: seq<Candidate>)
    requires s.mode.Direct?
    ensures KidCount(s, cs) == 0
  {
    if cs != [] {
      DirectHasNoKids(s, cs[..|cs| - 1]);
    }
  }

  lemma DirectCandidates(s: Scene, roots: seq<Path>)
    requires s.mode.Direct? && TotalPreorder(s.cmp)
    ensures |Candidates(s, roots)| == |roots|
  {
    hide TotalPreorder, Candidates, KidCount;
    DirectHasNoKids(s, Candidates(s, roots));
    MetInAll(s, roots);
    assert Candidates(s, roots)[..|Candidates(s, roots)|] == Candidates(s, roots);
  }

  lemma {:induction false} RowBytesGrow(s: Scene, cs: seq<Candidate>, j: nat, k: nat)
    requires j <= k <= |cs|
    ensures ItemBytes(Rows(s, cs[..j])) <= ItemBytes(Rows(s, cs[..k]))
  {
    hide Rows, RowOf, ItemBytes;
    if j < k {
      RowBytesGrow(s, cs, j, k - 1);
      OneMore(s, cs, k - 1);
      ItemBytesAppend(s, Rows(s, cs[..k - 1]), cs[k - 1]);
    }
  }

  lemma DirectBytesAt(s: Scene, roots: seq<Path>, budget: nat, cs: seq<Candidate>, k: nat)
    requires s.mode.Direct? && k < |cs|
    ensures BytesFitAt(s, roots, budget, cs, k) <==> ItemBytes(Rows(s, cs[..k])) + ItemBytes(RowOf(s, cs[k])) <= budget
  {
    hide Rows, RowOf, ItemBytes, PathBytes, Kids, WaitingBytes, NewItem;
  }

  lemma DirectBytesFit(s: Scene, roots: seq<Path>, budget: nat, cs: seq<Candidate>)
    requires s.mode.Direct?
    ensures BytesFit(s, roots, budget, cs) <==> cs == [] || ItemBytes(Rows(s, cs)) <= budget
  {
    hide Rows, RowOf, ItemBytes, BytesFitAt;
    assert cs[..|cs|] == cs;
    forall k | 0 <= k < |cs|
      ensures ItemBytes(Rows(s, cs)) <= budget ==> BytesFitAt(s, roots, budget, cs, k)
      ensures k == |cs| - 1 && BytesFitAt(s, roots, budget, cs, k) ==> ItemBytes(Rows(s, cs)) <= budget
    {
      OneMore(s, cs, k);
      ItemBytesAppend(s, Rows(s, cs[..k]), cs[k]);
      RowBytesGrow(s, cs, k + 1, |cs|);
      DirectBytesAt(s, roots, budget, cs, k);
    }
    if cs != [] && BytesFit(s, roots, budget, cs) {
      assert BytesFitAt(s, roots, budget, cs, |cs| - 1);
    }
  }

  /** In direct mode the condition is on the listing alone, whatever the adapter reads. */
  lemma DirectIssueFreeExactly(s: Scene, roots: seq<Path>, capacity: nat, budget: nat, run: seq<Point>)
    requires s.mode.Direct? && TotalPreorder(s.cmp) && IsRun(s, roots, capacity, budget, run) && Complete(run)
    requires capacity <= MAX_ADMITTED_SOURCES && budget <= MAX_ADMITTED_PATH_BYTES && PathBytes(s.a, roots) <= MAX_USIZE
    ensures var listing := ListAll(s, SortedOf(s.cmp, roots), 0);
      ReportOf(run).issues == [] <==>
        && listing.Some? && |roots| <= capacity && ItemBytes(listing.value) <= budget
        && DistinctDirectories(s, Candidates(s, roots))
  {
    hide IsRun, Complete, HonestAt, TotalPreorder, PathBytes, SortedOf, DistinctDirectories, AllBelow, ListAll, Rows, BytesFit;
    var cs := Candidates(s, roots);
    assert forall k | 0 <= k < |cs| :: !FirstVerdict(s, cs[k]).Expand?;
    IssueFreeExactly(s, roots, capacity, budget, run);
    DirectCandidates(s, roots);
    DirectBytesFit(s, roots, budget, cs);
    AllBelowAreListed(s, SortedOf(s.cmp, roots), 0);
    NoRows(s);
    assert ItemBytes([]) == 0;
  }

  // ----- When the limit drops something -----

  /** The walk reaches candidate `k` without an issue if those before it pass. */
  lemma ReachesCandidate(s: Scene, roots: seq<Path>, capacity: nat, budget: nat, run: seq<Point>, k: nat)
    requires Reliable(s, Candidates(s, roots)) && IsRun(s, roots, capacity, budget, run) && Complete(run)
    requires capacity <= MAX_ADMITTED_SOURCES && budget <= MAX_ADMITTED_PATH_BYTES && PathBytes(s.a, roots) <= MAX_USIZE
    requires PassUpTo(s, roots, capacity, budget, k) && k < |Candidates(s, roots)|
    ensures k < |run| - 1 && Follows(s, roots, capacity, budget, Candidates(s, roots), k, run[k])
  {
    hide Follows, PassesAt, Steps, Starts, Candidates, Reliable, PathBytes;
    var cs, n := Candidates(s, roots), |run| - 1;
    if n <= k {
      assert PassUpTo(s, roots, capacity, budget, n);
      CleanWhilePassing(s, roots, capacity, budget, run, n);
      FollowsIsClean(s, roots, capacity, budget, cs, n, run[n]);
      assert false;
    }
    CleanWhilePassing(s, roots, capacity, budget, run, k);
  }

  lemma FullStop(s: Scene, roots: seq<Path>, capacity: nat, budget: nat, cs: seq<Candidate>, k: nat, p: Point, q: Point)
    requires Follows(s, roots, capacity, budget, cs, k, p) && Steps(s, capacity, p, q)
    requires k < |cs| && FirstVerdict(s, cs[k]).Expand? && Fresh(s, cs, k) && Met(s, roots, cs, k) == capacity
    ensures q.stopped && q.walk.items == Rows(s, cs[..k]) && q.walk.issues == [Issue(cs[k].path, LimitReached, None)]
  {
    hide Shallow, Measured, StackBelow, Below, Kids, Identities, PathBytes, KidCount, KidBytes, OwnBytes, Rows, ItemBytes,
         Examine, FirstVerdict, SortedPaths, IdentityAt, ChildrenAt;
    TopIsNext(s, roots, capacity, budget, cs, k, p);
    VerdictWithSeen(s, p.walk.seen, cs[k]);
    RoomAtFollows(s, roots, capacity, budget, cs, k, p);
  }

  /** If the first trouble is a directory that meets a used-up capacity, the report has
      that one issue and misses exactly the rows from there on: nothing, when none of the
      candidates left is a row. */
  lemma FullWalkDropsTheRest(s: Scene, roots: seq<Path>, capacity: nat, budget: nat, run: seq<Point>, k: nat)
    requires Reliable(s, Candidates(s, roots)) && IsRun(s, roots, capacity, budget, run) && Complete(run)
    requires capacity <= MAX_ADMITTED_SOURCES && budget <= MAX_ADMITTED_PATH_BYTES && PathBytes(s.a, roots) <= MAX_USIZE
    requires PassUpTo(s, roots, capacity, budget, k) && k < |Candidates(s, roots)|
    requires var cs := Candidates(s, roots);
      FirstVerdict(s, cs[k]).Expand? && Fresh(s, cs, k) && Met(s, roots, cs, k) == capacity
    ensures var cs, report, listing := Candidates(s, roots), ReportOf(run), ListAll(s, SortedOf(s.cmp, roots), 0);
      && report.issues == [Issue(cs[k].path, LimitReached, None)]
      && (listing.Some? ==> listing.value == report.items + Rows(s, cs[k..]))
  {
    hide Follows, PassesAt, Steps, Starts, Reliable, PathBytes, FirstVerdict, Fresh, Met, AllBelow, ListAll, SortedOf, Rows;
    var cs := Candidates(s, roots);
    ReachesCandidate(s, roots, capacity, budget, run, k);
    NotStoppedBefore(s, roots, capacity, budget, run, k);
    FullStop(s, roots, capacity, budget, cs, k, run[k], run[k + 1]);
    if k + 1 < |run| - 1 {
      NotStoppedBefore(s, roots, capacity, budget, run, k + 1);
    }
    AllBelowAreListed(s, SortedOf(s.cmp, roots), 0);
    RowsConcat(s, cs[..k], cs[k..]);
    assert cs == cs[..k] + cs[k..];
  }

  lemma LoneListing(cmp: Comparator<Path>, path: Path)
    ensures SortedPaths(cmp, [path], [path]) && SortedPaths(cmp, [], [])
    ensures TotalPreorder(cmp) ==> SortedOf(cmp, [path]) == [path] && SortedOf(cmp, []) == []
  {
    if TotalPreorder(cmp) {
      SortedOfKeeps(cmp, [path]);
      SortedOfKeeps(cmp, []);
      var t := SortedOf(cmp, [path]);
      assert t[0] in multiset(t);
    }
  }

  /** One empty directory as the only root and a capacity of one: the listing is empty and
      complete, yet the run reports the limit. */
  lemma EmptyDirectoryMeetsLimit(s: Scene, path: Path, budget: nat) returns (run: seq<Point>)
    requires TotalPreorder(s.cmp) && FirstVerdict(s, Candidate(path, 0)).Expand? && s.tree(path) == []
    ensures IsRun(s, [path], 1, budget, run) && Complete(run)
    ensures ListAll(s, SortedOf(s.cmp, [path]), 0) == Some([])
    ensures ReportOf(run) == Report([], [Issue(path, LimitReached, None)])
  {
    hide TotalPreorder, SortedPaths, SortedOf, PushedTotal, ListAll, StartPoint, Stepped, ChildrenAt, FirstVerdict;
    LoneListing(s.cmp, path);
    var start := StartPoint(s, [path], 1, budget, [path]);
    FullAtOnce(s, path, budget);
    var stop := Stepped(s, 1, start, []);
    run := [start, stop];
    EmptyListing(s, path);
  }

  lemma FullAtOnce(s: Scene, path: Path, budget: nat)
    requires FirstVerdict(s, Candidate(path, 0)).Expand?
    ensures var start := StartPoint(s, [path], 1, budget, [path]);
      && start.walk.stack != [] && !start.stopped && ChildrenAt(s, 1, start) == []
      && var stop := Stepped(s, 1, start, []);
         stop.stopped && stop.walk.items == [] && stop.walk.issues == [Issue(path, LimitReached, None)]
  {
    hide PushedTotal, Examine;
    var start := StartPoint(s, [path], 1, budget, [path]);
    assert start.walk.stack == [FrameOf(s.a, path, 0)];
  }

  lemma NothingListed(s: Scene, depth: nat)
    requires depth <= MAX_ADMISSION_DEPTH
    ensures ListAll(s, [], depth) == Some([])
  {
  }

  lemma OneListed(s: Scene, path: Path)
    ensures ListAll(s, [path], 0) == Plus(Listing(s, path, 0), ListAll(s, [], 0))
  {
    var rest: seq<Path> := [path][1..];
    assert rest == [];
  }

  lemma EmptyListing(s: Scene, path: Path)
    requires TotalPreorder(s.cmp) && FirstVerdict(s, Candidate(path, 0)).Expand? && s.tree(path) == []
    ensures ListAll(s, SortedOf(s.cmp, [path]), 0) == Some([])
  {
    hide TotalPreorder, SortedPaths, SortedOf, Listing, FirstVerdict, ListAll, RowOf;
    LoneListing(s.cmp, path);
    ListingByVerdict(s, Candidate(path, 0));
    NothingListed(s, 0);
    NothingListed(s, 1);
    OneListed(s, path);
    PlusNothing(Some([]));
  }
}
