/** Collecting sources: the cancellable walk itself. */
module Admission {
  import opened Machine
  import opened Orders
  import opened Polling
  import opened AdmissionModel
  import opened AdmissionRun
  import opened AdmissionWalk
  import AdmissionSort
  import opened Wrappers

  /** Sorts a listing; the paths are the same paths. */
  method SortListing(cmp: Comparator<Path>, paths: seq<Path>, probe: Probe, clock: nat)
    returns (cancelled: bool, polls: nat, sorted: seq<Path>)
    requires |paths| <= MAX_USIZE
    ensures Polled(probe, clock, polls, cancelled)
    ensures !cancelled ==> SortedPaths(cmp, paths, sorted)
  {
    hide Polled, PreorderOn, SortedOf, StableSortOf;
    var slots := new Path[|paths|](i requires 0 <= i < |paths| => paths[i]);
    assert slots[..] == paths;
    cancelled, polls := AdmissionSort.SortPathsCancellable(slots, cmp, probe, clock);
    sorted := slots[..];
    if !cancelled {
      ghost var order :| Permutes(order, |paths|) && sorted == Permuted(paths, order);
      PermutedMultiset(paths, order);
      if TotalPreorder(cmp) {
        PreorderEverywhere(cmp, paths);
        SortedOfIs(cmp, paths, sorted);
      }
    }
  }

  /** Pushes the paths in reverse, so that the first is inspected next. */
  method PushPaths(a: Adapter, stack: seq<Frame>, stackBytes: nat, sorted: seq<Path>, depth: nat, probe: Probe, clock: nat)
    returns (cancelled: bool, polls: nat, pushed: seq<Frame>, bytes: nat)
    ensures Polled(probe, clock, polls, cancelled)
    ensures !cancelled ==> pushed == stack + Pushed(a, sorted, depth) && bytes == PushedTotal(a, sorted, stackBytes)
  {
    cancelled, polls, pushed, bytes := false, clock, stack, stackBytes;
    for k := |sorted| downto 0
      invariant Polled(probe, clock, polls, false)
      invariant pushed == stack + Pushed(a, sorted[k..], depth)
      invariant bytes == PushedTotal(a, sorted[k..], stackBytes)
    {
      polls := polls + 1;
      if probe(polls - 1) {
        cancelled := true;
        return;
      }
      assert sorted[k..] == [sorted[k]] + sorted[k + 1..];
      var frame := FrameOf(a, sorted[k], depth);
      bytes := SaturatingAdd(bytes, frame.bytes);
      pushed := pushed + [frame];
    }
    assert sorted[0..] == sorted;
  }

  /** The longest prefix of the children that fits the byte limit. */
  method VerifiedPrefix(a: Adapter, paths: seq<Path>, limit: nat) returns (kept: nat)
    requires limit <= MAX_ADMITTED_PATH_BYTES
    ensures kept <= |paths| && PathBytes(a, paths[..kept]) <= limit
    ensures kept < |paths| ==> PathBytes(a, paths[..kept + 1]) > limit
    ensures kept == FittingPrefix(a, paths, limit)
  {
    hide PathBytes, FittingPrefix;
    var verified := 0;
    kept := 0;
    FittingFrom(a, paths, 0, limit);
    while kept < |paths|
      invariant kept <= |paths| && verified == PathBytes(a, paths[..kept]) <= limit
      invariant FittingPrefix(a, paths, limit) == kept + FittingPrefix(a, paths[kept..], limit - verified)
    {
      FittingStep(a, paths, kept, limit - verified);
      var units := a.units(paths[kept]);
      if units * 2 > MAX_USIZE {
        return;
      }
      if verified + units * 2 > MAX_USIZE {
        return;
      }
      if verified + units * 2 > limit {
        return;
      }
      verified := verified + units * 2;
      kept := kept + 1;
    }
    FittingFrom(a, paths, |paths|, limit - verified);
  }

  lemma FittingFrom(a: Adapter, paths: seq<Path>, k: nat, limit: nat)
    requires k == 0 || k == |paths|
    ensures k <= |paths| && PathBytes(a, []) == 0 && paths[..0] == []
    ensures k == 0 ==> paths[k..] == paths
    ensures k == |paths| ==> FittingPrefix(a, paths[k..], limit) == 0
  {
  }

  lemma FittingStep(a: Adapter, paths: seq<Path>, k: nat, room: nat)
    requires k < |paths|
    ensures PathBytes(a, paths[..k + 1]) == PathBytes(a, paths[..k]) + 2 * a.units(paths[k])
    ensures FittingPrefix(a, paths[k..], room)
         == if 2 * a.units(paths[k]) > room then 0 else 1 + FittingPrefix(a, paths[k + 1..], room - 2 * a.units(paths[k]))
  {
    assert paths[..k + 1] == paths[..k] + [paths[k]];
    PathBytesAppend(a, paths[..k], [paths[k]]);
    assert paths[k..][1..] == paths[k + 1..];
  }

  /** The default cancellable read: a poll on each side of the plain read. */
  method ReadChildrenCancellable(a: Adapter, path: Path, budget: ReadBudget, probe: Probe, clock: nat)
    returns (polls: nat, r: Option<Outcome<Children>>)
    ensures Polled(probe, clock, polls, r.None?)
    ensures r.Some? ==> r.value == a.readChildren(path, budget)
  {
    polls := clock + 1;
    if probe(polls - 1) {
      return polls, None;
    }
    var read := a.readChildren(path, budget);
    if read.Err? {
      return polls, Some(read);
    }
    polls := polls + 1;
    r := if probe(polls - 1) then None else Some(read);
  }

  /** Examines one candidate, polling before each look at the filesystem. */
  method ExamineCancellable(a: Adapter, mode: Mode, seen: set<nat>, path: Path, depth: nat, probe: Probe, clock: nat)
    returns (cancelled: bool, polls: nat, verdict: Verdict)
    ensures Polled(probe, clock, polls, cancelled)
    ensures !cancelled ==> verdict == Examine(a, mode, seen, path, depth)
  {
    cancelled, polls, verdict := false, clock, Refuse(RelativePath, None, seen);
    if !a.isAbsolute(path) {
      return;
    }
    var invalid := a.validate(path);
    if invalid.Some? {
      verdict := Refuse(MetadataIssue, invalid, seen);
      return;
    }
    polls := polls + 1;
    if probe(polls - 1) {
      cancelled := true;
      return;
    }
    var observed := a.metadata(path);
    if observed.Err? {
      verdict := Refuse(MetadataIssue, Some(observed.fault), seen);
      return;
    }
    polls := polls + 1;
    if probe(polls - 1) {
      cancelled := true;
      return;
    }
    var m := observed.value;
    var known := seen;
    if m.isReparsePoint {
      verdict := Refuse(ReparsePoint, None, seen);
      return;
    }
    if m.isDirectory {
      if m.directoryIdentity.Some? {
        if m.directoryIdentity.value in known {
          verdict := Refuse(RepeatedDirectory, None, known);
          return;
        }
        known := known + {m.directoryIdentity.value};
      }
      if mode.Recurse? {
        verdict := if depth >= MAX_ADMISSION_DEPTH then Refuse(DepthExceeded, None, known) else Expand(known);
        return;
      }
    }
    verdict := Admit(m, known);
  }

  /** Cuts a read down to the count and byte limits, flagging every cut. */
  method BoundedChildren(a: Adapter, read: Children, budget: ReadBudget) returns (children: Children)
    requires budget.remainingPathBytes <= MAX_ADMITTED_PATH_BYTES
    ensures children == Bounded(a, read, budget)
  {
    var paths, truncated, exhausted := read.paths, read.truncated, read.pathBudgetExhausted;
    if |paths| > budget.pathLimit {
      paths, truncated := paths[..budget.pathLimit], true;
    }
    var kept := VerifiedPrefix(a, paths, budget.remainingPathBytes);
    if kept < |paths| {
      exhausted := true;
    }
    children := Children(paths[..kept], read.hadErrors, truncated, exhausted);
  }

  method FlagAll(w: Walk, path: Path, children: Children) returns (next: Walk)
    ensures next == WithIssues(w, Flags(path, children))
  {
    next := w;
    if children.hadErrors {
      next := WithIssue(next, path, ReadDirectory, None);
    }
    if children.truncated {
      next := WithIssue(next, path, LimitReached, None);
    }
    if children.pathBudgetExhausted {
      next := WithIssue(next, path, PathBudgetExceeded, None);
    }
  }

  // ----- The turns of the loop -----

  lemma NothingToSort(s: Scene, capacity: nat, p: Point, q: Point)
    requires p.walk.stack != [] && !p.stopped && ChildrenAt(s, capacity, p) == [] && q == Stepped(s, capacity, p, [])
    ensures Steps(s, capacity, p, q)
  {
    hide Stepped, ChildrenAt;
    var none: seq<Path> := [];
    assert IsStableOrder(s.cmp, none, []) && none == Permuted(none, []);
    if TotalPreorder(s.cmp) {
      SortedOfIs(s.cmp, none, none);
    }
    assert SortedPaths(s.cmp, none, none);
  }

  /** A directory gives way to its children, or says why not. */
  method ExpandDirectory(ghost s: Scene, w: Walk, seen: set<nat>, a: Adapter, cmp: Comparator<Path>, capacity: nat,
                         remaining: nat, probe: Probe, clock: nat)
    returns (flow: Flow, polls: nat, next: Walk)
    requires w.stack != [] && a == s.a && cmp == s.cmp && capacity <= MAX_ADMITTED_SOURCES
    requires remaining <= MAX_ADMITTED_PATH_BYTES && VerdictAt(s, w) == Expand(seen)
    ensures Polled(probe, clock, polls, flow.Cancelled?)
    ensures !flow.Cancelled? ==> Steps(s, capacity, Point(w, remaining, false), Point(next, remaining, flow.Stop?))
  {
    hide Examine, Bounded, Flags, SortedPaths, PushedTotal, Pushed, Polled;
    ghost var p := Point(w, remaining, false);
    var path, depth := Top(w).path, Top(w).depth;
    next, polls := WithSeen(Popped(w), seen), clock;
    var budget := ReadBudget(SaturatingSub(SaturatingSub(capacity, next.inspected), |next.stack|),
                             SaturatingSub(remaining, next.stackBytes));
    if budget.pathLimit == 0 {
      next := WithIssue(next, path, LimitReached, None);
      NothingToSort(s, capacity, p, Point(next, remaining, true));
      NotPolled(probe, clock);
      return Stop, polls, next;
    }
    var answer;
    polls, answer := ReadChildrenCancellable(a, path, budget, probe, polls);
    if answer.None? {
      return Cancelled, polls, next;
    }
    var read := answer.value;
    if read.Err? {
      next := WithIssue(next, path, ReadDirectory, Some(read.fault));
      NothingToSort(s, capacity, p, Point(next, remaining, false));
      return Continue, polls, next;
    }
    ghost var at := polls;
    var children := BoundedChildren(a, read.value, budget);
    BoundedMeaning(a, read.value, budget);
    var cancelled, sorted, stack, bytes;
    cancelled, polls, sorted := SortListing(cmp, children.paths, probe, polls);
    PollsJoin(probe, clock, at, polls, cancelled);
    if cancelled {
      return Cancelled, polls, next;
    }
    at := polls;
    cancelled, polls, stack, bytes := PushPaths(a, next.stack, next.stackBytes, sorted, depth + 1, probe, polls);
    PollsJoin(probe, clock, at, polls, cancelled);
    if cancelled {
      return Cancelled, polls, next;
    }
    next := WithStack(next, stack, bytes);
    next := FlagAll(next, path, children);
    assert Point(next, remaining, false) == Stepped(s, capacity, p, sorted);
    assert ChildrenAt(s, capacity, p) == children.paths;
    return Continue, polls, next;
  }

  lemma NotPolled(probe: Probe, clock: nat)
    ensures Polled(probe, clock, clock, false)
  {
  }

  lemma PollsJoin(probe: Probe, from: nat, at: nat, to: nat, cancelled: bool)
    requires Polled(probe, from, at, false) && Polled(probe, at, to, cancelled)
    ensures Polled(probe, from, to, cancelled)
  {
  }

  /** Admits the top candidate if its complete legacy text fits the budget. */
  method AdmitRow(ghost s: Scene, w: Walk, m: Metadata, seen: set<nat>, a: Adapter, budget: PathBudget)
    returns (flow: Flow, next: Walk)
    requires w.stack != [] && a == s.a && budget.remainingBytes <= MAX_ADMITTED_PATH_BYTES
    modifies budget
    ensures !flow.Cancelled?
    ensures Point(next, budget.remainingBytes, flow.Stop?) == Admitted(s, Point(w, old(budget.remainingBytes), false), m, seen)
  {
    var path := Top(w).path;
    next := WithSeen(Popped(w), seen);
    var legacy := a.legacyPath(path);
    var r := budget.ReserveUtf16Units(|legacy|);
    if r.Exhausted? {
      return Stop, WithIssue(next, path, PathBudgetExceeded, None);
    }
    return Continue, WithItem(next, ItemOf(a, path, m));
  }

  /** One turn of the loop, from the pop to the next pop. The limit test cannot succeed. */
  method InspectTop(ghost s: Scene, w: Walk, a: Adapter, mode: Mode, capacity: nat, cmp: Comparator<Path>,
                    budget: PathBudget, probe: Probe, clock: nat)
    returns (flow: Flow, polls: nat, next: Walk)
    requires w.stack != [] && a == s.a && mode == s.mode && cmp == s.cmp
    requires Used(w) <= capacity <= MAX_ADMITTED_SOURCES && budget.remainingBytes <= MAX_ADMITTED_PATH_BYTES
    modifies budget
    ensures Polled(probe, clock, polls, flow.Cancelled?)
    ensures !flow.Cancelled? ==>
              Steps(s, capacity, Point(w, old(budget.remainingBytes), false), Point(next, budget.remainingBytes, flow.Stop?))
  {
    hide Examine, Opened, Admitted, Steps;
    next, polls := w, clock + 1;
    if probe(polls - 1) {
      flow := Cancelled;
      return;
    }
    if w.inspected >= capacity {
      assert false;
    }
    ghost var p := Point(w, budget.remainingBytes, false);
    var cancelled, verdict;
    cancelled, polls, verdict := ExamineCancellable(a, mode, w.seen, Top(w).path, Top(w).depth, probe, polls);
    if cancelled {
      flow := Cancelled;
      return;
    }
    match verdict
    case Refuse(kind, fault, seen) =>
      next := WithIssue(WithSeen(Popped(w), seen), Top(w).path, kind, fault);
      flow := Continue;
      NothingToSort(s, capacity, p, Point(next, budget.remainingBytes, false));
    case Expand(seen) =>
      flow, polls, next := ExpandDirectory(s, w, seen, a, cmp, capacity, budget.remainingBytes, probe, polls);
    case Admit(m, seen) =>
      flow, next := AdmitRow(s, w, m, seen, a, budget);
      NothingToSort(s, capacity, p, Point(next, budget.remainingBytes, flow.Stop?));
  }

  lemma StepBounds(s: Scene, capacity: nat, p: Point, q: Point)
    requires Steps(s, capacity, p, q) && Used(p.walk) <= capacity
    ensures Used(q.walk) <= capacity && q.remaining <= p.remaining && q.walk.inspected == p.walk.inspected + 1
  {
    hide Examine, Flags, PathBytes, PushedTotal, SortedOf, TotalPreorder;
    var sorted :| SortedPaths(s.cmp, ChildrenAt(s, capacity, p), sorted) && q == Stepped(s, capacity, p, sorted);
    var budget := RoomFor(capacity, p.walk, p.remaining);
    if VerdictAt(s, p.walk).Expand? && budget.pathLimit > 0 && s.a.readChildren(Top(p.walk).path, budget).Ok? {
      BoundedMeaning(s.a, s.a.readChildren(Top(p.walk).path, budget).value, budget);
    }
  }

  /** Runs the loop to its end, turn by turn. */
  method WalkAll(ghost s: Scene, ghost roots: seq<Path>, start: Walk, a: Adapter, mode: Mode, capacity: nat,
                 cmp: Comparator<Path>, budget: PathBudget, probe: Probe, clock: nat)
    returns (cancelled: bool, polls: nat, w: Walk, ghost run: seq<Point>)
    requires a == s.a && mode == s.mode && cmp == s.cmp
    requires Used(start) <= capacity <= MAX_ADMITTED_SOURCES && budget.remainingBytes <= MAX_ADMITTED_PATH_BYTES
    requires Starts(s, roots, capacity, budget.remainingBytes, Point(start, budget.remainingBytes, false))
    modifies budget
    ensures Polled(probe, clock, polls, cancelled)
    ensures !cancelled ==> IsRun(s, roots, capacity, old(budget.remainingBytes), run) && Complete(run) && Last(run).walk == w
  {
    hide Starts, Steps, Polled;
    NotPolled(probe, clock);
    cancelled, polls, w := false, clock, start;
    run := [Point(start, budget.remainingBytes, false)];
    while w.stack != []
      invariant Polled(probe, clock, polls, false)
      invariant IsRun(s, roots, capacity, old(budget.remainingBytes), run) && Last(run) == Point(w, budget.remainingBytes, false)
      invariant Used(w) <= capacity && budget.remainingBytes <= MAX_ADMITTED_PATH_BYTES
      decreases capacity - w.inspected
    {
      ghost var at, p := polls, Last(run);
      var flow;
      flow, polls, w := InspectTop(s, w, a, mode, capacity, cmp, budget, probe, polls);
      PollsJoin(probe, clock, at, polls, flow.Cancelled?);
      if flow.Cancelled? {
        cancelled := true;
        return;
      }
      ghost var q := Point(w, budget.remainingBytes, flow.Stop?);
      StepBounds(s, capacity, p, q);
      run := run + [q];
      if flow.Stop? {
        return;
      }
    }
  }

  datatype Answer = Collected(report: Report) | AdmissionCancelled

  /** Collects the sources below `roots`: the report of a complete run of the walk. Polls
      decide cancellation and nothing else; a cancelled call shows no partial report. */
  method Collect(a: Adapter, roots: seq<Path>, mode: Mode, capacity: nat, bytes: nat, cmp: Comparator<Path>, probe: Probe,
                 ghost tree: Path -> seq<Path>)
    returns (answer: Answer, polls: nat, ghost run: seq<Point>)
    requires |roots| <= MAX_USIZE
    ensures Polled(probe, 0, polls, answer.AdmissionCancelled?)
    ensures var s, limit, budget := Scene(a, mode, cmp, tree), Min(capacity, MAX_ADMITTED_SOURCES), Min(bytes, MAX_ADMITTED_PATH_BYTES);
            answer.Collected? ==>
              && IsRun(s, roots, limit, budget, run) && Complete(run) && answer.report == ReportOf(run)
              && Promised(s, roots, limit, budget, answer.report)
  {
    hide SortedPaths, Pushed, PushedTotal, Promised, IsRun, Polled, Complete;
    var pathBudget := new PathBudget.FromRemainingBytes(bytes);
    var limit := Min(capacity, MAX_ADMITTED_SOURCES);
    ghost var s, budget := Scene(a, mode, cmp, tree), pathBudget.remainingBytes;
    polls, run := 1, [];
    if probe(polls - 1) {
      OnePoll(probe);
      return AdmissionCancelled, polls, run;
    }
    OnePoll(probe);
    var kept, issues := roots, [];
    if |roots| > limit {
      issues := [Issue(roots[limit], LimitReached, None)];
      kept := roots[..limit];
    }
    ghost var at := polls;
    var cancelled, sorted, stack, stackBytes;
    cancelled, polls, sorted := SortListing(cmp, kept, probe, polls);
    PollsJoin(probe, 0, at, polls, cancelled);
    if cancelled {
      return AdmissionCancelled, polls, run;
    }
    at := polls;
    cancelled, polls, stack, stackBytes := PushPaths(a, [], 0, sorted, 0, probe, polls);
    PollsJoin(probe, 0, at, polls, cancelled);
    if cancelled {
      return AdmissionCancelled, polls, run;
    }
    at := polls;
    var start := Walk(stack, stackBytes, {}, 0, [], issues);
    assert Point(start, budget, false) == StartPoint(s, roots, limit, budget, sorted) && kept == KeptRoots(roots, limit);
    SortedCount(cmp, kept, sorted);
    var w;
    cancelled, polls, w, run := WalkAll(s, roots, start, a, mode, limit, cmp, pathBudget, probe, polls);
    PollsJoin(probe, 0, at, polls, cancelled);
    if cancelled {
      return AdmissionCancelled, polls, run;
    }
    RunPromises(s, roots, limit, budget, run);
    return Collected(Report(w.items, w.issues)), polls, run;
  }

  lemma OnePoll(probe: Probe)
    ensures Polled(probe, 0, 1, probe(0))
  {
  }

  lemma SortedCount(cmp: Comparator<Path>, kept: seq<Path>, sorted: seq<Path>)
    requires SortedPaths(cmp, kept, sorted)
    ensures |sorted| == |kept|
  {
  }
}
