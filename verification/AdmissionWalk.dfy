/** The bounded depth-first walk over an explicit stack of candidates. */
module AdmissionWalk {
  import opened Machine
  import opened Orders
  import opened Paths
  import opened AdmissionModel
  import opened Wrappers

  datatype Frame = Frame(path: Path, depth: nat, bytes: nat)

  datatype Walk = Walk(
    stack: seq<Frame>,
    stackBytes: nat,
    seen: set<nat>,
    inspected: nat,
    items: seq<Item>,
    issues: seq<Issue>)

  datatype Flow = Continue | Stop | Cancelled

  function FrameOf(a: Adapter, path: Path, depth: nat): Frame {
    Frame(path, depth, SaturatingMul(a.units(path), 2))
  }

  /** The first of the sorted paths ends on top of the stack. */
  function Pushed(a: Adapter, sorted: seq<Path>, depth: nat): (r: seq<Frame>)
    ensures |r| == |sorted|
    ensures forall i | 0 <= i < |r| :: r[i] == FrameOf(a, sorted[|sorted| - 1 - i], depth)
  {
    if sorted == [] then [] else Pushed(a, sorted[1..], depth) + [FrameOf(a, sorted[0], depth)]
  }

  function StackBytes(stack: seq<Frame>): nat {
    if stack == [] then 0 else StackBytes(stack[..|stack| - 1]) + stack[|stack| - 1].bytes
  }

  ghost predicate Shallow(stack: seq<Frame>) {
    forall i | 0 <= i < |stack| :: stack[i].depth <= MAX_ADMISSION_DEPTH
  }

  ghost predicate Measured(a: Adapter, stack: seq<Frame>) {
    forall i | 0 <= i < |stack| :: stack[i].bytes == SaturatingMul(a.units(stack[i].path), 2)
  }

  /** What the candidates still on the stack would list, topmost first. */
  ghost function StackListing(s: Scene, stack: seq<Frame>): Option<seq<Item>>
    requires Shallow(stack)
  {
    if stack == [] then Some([])
    else Plus(Listing(s, stack[|stack| - 1].path, stack[|stack| - 1].depth), StackListing(s, stack[..|stack| - 1]))
  }

  lemma PushOne(s: Scene, stack: seq<Frame>, f: Frame)
    requires Shallow(stack) && f.depth <= MAX_ADMISSION_DEPTH
    ensures Shallow(stack + [f])
    ensures StackListing(s, stack + [f]) == Plus(Listing(s, f.path, f.depth), StackListing(s, stack))
    ensures StackBytes(stack + [f]) == StackBytes(stack) + f.bytes
  {
    hide Listing;
    assert (stack + [f])[..|stack|] == stack;
  }

  lemma {:induction false} PushedListing(s: Scene, stack: seq<Frame>, sorted: seq<Path>, depth: nat)
    requires Shallow(stack) && depth <= MAX_ADMISSION_DEPTH
    ensures Shallow(stack + Pushed(s.a, sorted, depth))
    ensures StackListing(s, stack + Pushed(s.a, sorted, depth)) == Plus(ListAll(s, sorted, depth), StackListing(s, stack))
  {
    hide Listing, StackListing;
    if sorted == [] {
      assert stack + Pushed(s.a, sorted, depth) == stack;
      PlusNothing(StackListing(s, stack));
    } else {
      var below, top := stack + Pushed(s.a, sorted[1..], depth), FrameOf(s.a, sorted[0], depth);
      PushedListing(s, stack, sorted[1..], depth);
      PushOne(s, below, top);
      PlusAssociates(Listing(s, top.path, depth), ListAll(s, sorted[1..], depth), StackListing(s, stack));
      assert stack + Pushed(s.a, sorted, depth) == below + [top];
    }
  }

  lemma {:induction false} PushedBytes(s: Scene, stack: seq<Frame>, sorted: seq<Path>, depth: nat)
    requires PathBytes(s.a, sorted) <= MAX_USIZE && Shallow(stack) && depth <= MAX_ADMISSION_DEPTH
    ensures StackBytes(stack + Pushed(s.a, sorted, depth)) == StackBytes(stack) + PathBytes(s.a, sorted)
  {
    hide StackListing, StackBytes;
    if sorted == [] {
      assert stack + Pushed(s.a, sorted, depth) == stack;
    } else {
      var below, top := stack + Pushed(s.a, sorted[1..], depth), FrameOf(s.a, sorted[0], depth);
      PushedBytes(s, stack, sorted[1..], depth);
      PushOne(s, below, top);
      assert stack + Pushed(s.a, sorted, depth) == below + [top];
    }
  }

  /** A root, or a child some read returned for a directory one level up. */
  ghost predicate Reached(a: Adapter, roots: seq<Path>, path: Path, depth: nat)
    decreases depth
  {
    if depth == 0 then path in roots
    else exists parent, budget :: Reached(a, roots, parent, depth - 1) && ReadReturns(a, parent, budget, path)
  }

  ghost predicate ReadReturns(a: Adapter, parent: Path, budget: ReadBudget, path: Path) {
    a.readChildren(parent, budget).Ok? && path in a.readChildren(parent, budget).value.paths
  }

  ghost predicate AllReturned(a: Adapter, parent: Path, budget: ReadBudget, paths: seq<Path>) {
    forall i | 0 <= i < |paths| :: ReadReturns(a, parent, budget, paths[i])
  }

  /** The row of a real candidate no deeper than the limit. */
  ghost predicate Found(a: Adapter, roots: seq<Path>, item: Item) {
    exists path, depth: nat ::
      && depth <= MAX_ADMISSION_DEPTH && Reached(a, roots, path, depth)
      && a.metadata(path).Ok? && Describes(item, a, path, a.metadata(path).value)
  }

  ghost predicate AllReached(a: Adapter, roots: seq<Path>, stack: seq<Frame>) {
    forall i | 0 <= i < |stack| :: Reached(a, roots, stack[i].path, stack[i].depth)
  }

  ghost predicate AllFound(a: Adapter, roots: seq<Path>, items: seq<Item>) {
    forall i | 0 <= i < |items| :: Found(a, roots, items[i])
  }

  /** Only a directory's children were refused for want of bytes, never a candidate. */
  ghost predicate FrontierOnly(s: Scene, issues: seq<Issue>) {
    forall i | 0 <= i < |issues| && issues[i].kind.PathBudgetExceeded? ::
      s.mode.Recurse? && s.a.metadata(issues[i].path).Ok? && s.a.metadata(issues[i].path).value.isDirectory
  }

  ghost predicate IsTraversed(s: Scene, path: Path) {
    s.mode.Recurse? && s.a.metadata(path).Ok? && s.a.metadata(path).value.isDirectory
  }

  ghost predicate Unread(a: Adapter, path: Path, budget: ReadBudget, fault: Option<Fault>) {
    match a.readChildren(path, budget)
    case Err(f) => fault == Some(f)
    case Ok(children) => children.hadErrors && fault == None
  }

  ghost predicate LegacyFits(a: Adapter) {
    forall path :: |a.legacyPath(path)| <= a.units(path)
  }

  /** What a whole walk is measured against. */
  datatype Goal = Goal(s: Scene, roots: seq<Path>, capacity: nat, budget: nat, exact: bool, wanted: Option<seq<Item>>, fits: bool)

  /** The candidates met so far: inspected or waiting. */
  function Used(w: Walk): nat {
    w.inspected + |w.stack|
  }

  ghost predicate Good(g: Goal, w: Walk, remaining: nat) {
    && Used(w) <= g.capacity <= MAX_ADMITTED_SOURCES
    && |w.items| <= w.inspected && Shallow(w.stack) && Measured(g.s.a, w.stack)
    && ItemBytes(w.items) + remaining == g.budget <= MAX_ADMITTED_PATH_BYTES
    && AllReached(g.s.a, g.roots, w.stack) && AllFound(g.s.a, g.roots, w.items)
    && (g.exact ==> Honest(g.s) && TotalPreorder(g.s.cmp))
    && (g.exact && w.issues == [] ==> Plus(Some(w.items), StackListing(g.s, w.stack)) == g.wanted)
    && (g.fits ==> LegacyFits(g.s.a) && w.stackBytes == StackBytes(w.stack) <= remaining && FrontierOnly(g.s, w.issues))
  }

  function Top(w: Walk): Frame
    requires w.stack != []
  {
    w.stack[|w.stack| - 1]
  }

  function Popped(w: Walk): Walk
    requires w.stack != []
  {
    Walk(w.stack[..|w.stack| - 1], SaturatingSub(w.stackBytes, Top(w).bytes), w.seen, w.inspected + 1, w.items, w.issues)
  }

  function WithIssue(w: Walk, path: Path, kind: IssueKind, fault: Option<Fault>): Walk {
    Walk(w.stack, w.stackBytes, w.seen, w.inspected, w.items, w.issues + [Issue(path, kind, fault)])
  }

  function WithSeen(w: Walk, seen: set<nat>): Walk {
    Walk(w.stack, w.stackBytes, seen, w.inspected, w.items, w.issues)
  }

  function WithItem(w: Walk, item: Item): Walk {
    Walk(w.stack, w.stackBytes, w.seen, w.inspected, w.items + [item], w.issues)
  }

  function WithStack(w: Walk, stack: seq<Frame>, stackBytes: nat): Walk {
    Walk(stack, stackBytes, w.seen, w.inspected, w.items, w.issues)
  }

  // ----- Each kind of step keeps the walk good -----

  lemma RefusalKeeps(g: Goal, w: Walk, remaining: nat, seen: set<nat>, kind: IssueKind, fault: Option<Fault>)
    requires Good(g, w, remaining) && w.stack != [] && !kind.PathBudgetExceeded?
    ensures Good(g, WithIssue(WithSeen(Popped(w), seen), Top(w).path, kind, fault), remaining)
  {
    hide Reached, Found, Honest, TotalPreorder, LegacyFits, StackListing, ItemBytes;
  }

  lemma TopFits(g: Goal, w: Walk, remaining: nat)
    requires Good(g, w, remaining) && w.stack != [] && g.fits
    ensures 2 * |g.s.a.legacyPath(Top(w).path)| <= Top(w).bytes <= w.stackBytes
    ensures Popped(w).stackBytes == StackBytes(Popped(w).stack) == w.stackBytes - Top(w).bytes
  {
    hide Reached, Found, Honest, TotalPreorder, StackListing, ItemBytes;
  }

  lemma RowIsFound(g: Goal, w: Walk, remaining: nat, m: Metadata)
    requires Good(g, w, remaining) && w.stack != [] && g.s.a.metadata(Top(w).path) == Ok(m)
    ensures Found(g.s.a, g.roots, ItemOf(g.s.a, Top(w).path, m))
  {
    hide Reached, Honest, TotalPreorder, LegacyFits, StackListing, ItemBytes;
    assert Reached(g.s.a, g.roots, Top(w).path, Top(w).depth);
  }

  lemma RowIsListed(s: Scene, w: Walk, seen: set<nat>, m: Metadata)
    requires w.stack != [] && Shallow(w.stack)
    requires Examine(s.a, s.mode, w.seen, Top(w).path, Top(w).depth) == Admit(m, seen)
    ensures Plus(Some(w.items + [ItemOf(s.a, Top(w).path, m)]), StackListing(s, Popped(w).stack))
            == Plus(Some(w.items), StackListing(s, w.stack))
  {
    hide ItemOf;
    var row := Some([ItemOf(s.a, Top(w).path, m)]);
    assert Listing(s, Top(w).path, Top(w).depth) == row;
    PlusAssociates(Some(w.items), row, StackListing(s, Popped(w).stack));
  }

  lemma ExaminedOk(s: Scene, w: Walk, seen: set<nat>, m: Metadata)
    requires w.stack != [] && Examine(s.a, s.mode, w.seen, Top(w).path, Top(w).depth) == Admit(m, seen)
    ensures s.a.metadata(Top(w).path) == Ok(m)
  {
  }

  lemma RowBytes(items: seq<Item>, a: Adapter, path: Path, m: Metadata)
    ensures ItemBytes(items + [ItemOf(a, path, m)]) == ItemBytes(items) + 2 * |a.legacyPath(path)|
  {
    assert (items + [ItemOf(a, path, m)])[..|items|] == items;
  }

  lemma OneMoreFound(a: Adapter, roots: seq<Path>, items: seq<Item>, item: Item)
    requires AllFound(a, roots, items) && Found(a, roots, item)
    ensures AllFound(a, roots, items + [item])
  {
  }

  lemma AdmissionKeeps(g: Goal, w: Walk, remaining: nat, seen: set<nat>, m: Metadata)
    requires Good(g, w, remaining) && w.stack != []
    requires Examine(g.s.a, g.s.mode, w.seen, Top(w).path, Top(w).depth) == Admit(m, seen)
    requires 2 * |g.s.a.legacyPath(Top(w).path)| <= remaining
    ensures Good(g, WithItem(WithSeen(Popped(w), seen), ItemOf(g.s.a, Top(w).path, m)),
                 remaining - 2 * |g.s.a.legacyPath(Top(w).path)|)
  {
    hide AllFound, Found, Reached, Honest, TotalPreorder, LegacyFits, StackListing, ItemBytes, ItemOf, Examine;
    var item := ItemOf(g.s.a, Top(w).path, m);
    ExaminedOk(g.s, w, seen, m);
    RowIsFound(g, w, remaining, m);
    OneMoreFound(g.s.a, g.roots, w.items, item);
    RowIsListed(g.s, w, seen, m);
    RowBytes(w.items, g.s.a, Top(w).path, m);
    if g.fits {
      TopFits(g, w, remaining);
    }
  }

  /** The final reservation fails only if the roots did not fit or a legacy text outgrew
      its measured path. */
  lemma ExhaustionKeeps(g: Goal, w: Walk, remaining: nat, seen: set<nat>)
    requires Good(g, w, remaining) && w.stack != []
    requires 2 * |g.s.a.legacyPath(Top(w).path)| > remaining && g.s.a.metadata(Top(w).path).Ok?
    ensures !g.fits
    ensures Good(g, WithIssue(WithSeen(Popped(w), seen), Top(w).path, PathBudgetExceeded, None), remaining)
  {
    hide Reached, Found, Honest, TotalPreorder, LegacyFits, StackListing, ItemBytes;
    if g.fits {
      TopFits(g, w, remaining);
    }
  }

  /** The children kept from one read: within the count and the bytes, and all of the
      directory when nothing was flagged. */
  ghost predicate ReadWithin(g: Goal, w: Walk, remaining: nat, kept: seq<Path>, flagged: bool)
    requires w.stack != []
  {
    && Examine(g.s.a, g.s.mode, w.seen, Top(w).path, Top(w).depth).Expand?
    && |kept| + |w.stack| + w.inspected <= g.capacity
    && PathBytes(g.s.a, kept) <= SaturatingSub(remaining, Popped(w).stackBytes)
    && (exists budget :: AllReturned(g.s.a, Top(w).path, budget, kept))
    && (!flagged && Honest(g.s) ==> kept == g.s.tree(Top(w).path))
  }

  ghost predicate SortedPaths(cmp: Comparator<Path>, kept: seq<Path>, sorted: seq<Path>) {
    multiset(sorted) == multiset(kept) && |sorted| == |kept| && (TotalPreorder(cmp) ==> sorted == SortedOf(cmp, kept))
  }

  function Flags(path: Path, children: Children): seq<Issue> {
    (if children.hadErrors then [Issue(path, ReadDirectory, None)] else [])
    + (if children.truncated then [Issue(path, LimitReached, None)] else [])
    + if children.pathBudgetExhausted then [Issue(path, PathBudgetExceeded, None)] else []
  }

  function WithIssues(w: Walk, added: seq<Issue>): Walk {
    Walk(w.stack, w.stackBytes, w.seen, w.inspected, w.items, w.issues + added)
  }

  /** The walk after a directory's sorted children were pushed. */
  function Expanded(a: Adapter, w: Walk, seen: set<nat>, sorted: seq<Path>, bytes: nat, added: seq<Issue>): Walk
    requires w.stack != []
  {
    WithIssues(WithStack(WithSeen(Popped(w), seen), Popped(w).stack + Pushed(a, sorted, Top(w).depth + 1), bytes), added)
  }

  lemma ChildrenAreReached(g: Goal, w: Walk, remaining: nat, kept: seq<Path>, sorted: seq<Path>, flagged: bool)
    requires Good(g, w, remaining) && w.stack != [] && ReadWithin(g, w, remaining, kept, flagged)
    requires multiset(sorted) == multiset(kept)
    ensures AllReached(g.s.a, g.roots, Popped(w).stack + Pushed(g.s.a, sorted, Top(w).depth + 1))
  {
    hide Honest, TotalPreorder, LegacyFits, StackListing, ItemBytes, AllFound, PathBytes, StackBytes;
    var budget :| AllReturned(g.s.a, Top(w).path, budget, kept);
    assert Reached(g.s.a, g.roots, Top(w).path, Top(w).depth);
    forall i | 0 <= i < |sorted| ensures Reached(g.s.a, g.roots, sorted[i], Top(w).depth + 1) {
      assert sorted[i] in multiset(sorted);
      var k :| 0 <= k < |kept| && kept[k] == sorted[i];
      assert ReadReturns(g.s.a, Top(w).path, budget, kept[k]);
    }
  }

  lemma ChildrenAreListed(g: Goal, w: Walk, remaining: nat, kept: seq<Path>, sorted: seq<Path>)
    requires Good(g, w, remaining) && w.stack != [] && ReadWithin(g, w, remaining, kept, false)
    requires SortedPaths(g.s.cmp, kept, sorted) && g.exact
    ensures Shallow(Popped(w).stack + Pushed(g.s.a, sorted, Top(w).depth + 1))
    ensures StackListing(g.s, Popped(w).stack + Pushed(g.s.a, sorted, Top(w).depth + 1)) == StackListing(g.s, w.stack)
  {
    hide Honest, TotalPreorder, LegacyFits, ItemBytes, AllFound, AllReached, AllReturned, PathBytes, StackBytes, SortedOf, ListAll;
    PushedListing(g.s, Popped(w).stack, sorted, Top(w).depth + 1);
    assert Listing(g.s, Top(w).path, Top(w).depth) == ListAll(g.s, sorted, Top(w).depth + 1);
  }

  lemma ChildrenFit(g: Goal, w: Walk, remaining: nat, kept: seq<Path>, sorted: seq<Path>, flagged: bool)
    requires Good(g, w, remaining) && w.stack != [] && ReadWithin(g, w, remaining, kept, flagged)
    requires multiset(sorted) == multiset(kept)
    ensures PathBytes(g.s.a, sorted) == PathBytes(g.s.a, kept) <= remaining
    ensures g.fits ==> Popped(w).stackBytes + PathBytes(g.s.a, sorted)
                       == StackBytes(Popped(w).stack + Pushed(g.s.a, sorted, Top(w).depth + 1)) <= remaining
  {
    hide Honest, TotalPreorder, LegacyFits, StackListing, ItemBytes, AllFound, AllReached, AllReturned, PathBytes, StackBytes;
    PathBytesReordered(g.s.a, sorted, kept);
    PushedBytes(g.s, Popped(w).stack, sorted, Top(w).depth + 1);
    if g.fits {
      TopFits(g, w, remaining);
    }
  }

  lemma PushedShape(a: Adapter, stack: seq<Frame>, sorted: seq<Path>, depth: nat)
    requires Shallow(stack) && Measured(a, stack) && depth <= MAX_ADMISSION_DEPTH
    ensures Shallow(stack + Pushed(a, sorted, depth)) && Measured(a, stack + Pushed(a, sorted, depth))
  {
  }

  lemma PoppedShape(a: Adapter, w: Walk)
    requires w.stack != [] && Shallow(w.stack) && Measured(a, w.stack)
    ensures Shallow(Popped(w).stack) && Measured(a, Popped(w).stack)
  {
  }

  lemma FlagsAreFrontier(s: Scene, issues: seq<Issue>, path: Path, children: Children)
    requires FrontierOnly(s, issues)
    requires s.mode.Recurse? && s.a.metadata(path).Ok? && s.a.metadata(path).value.isDirectory
    ensures FrontierOnly(s, issues + Flags(path, children))
  {
    assert forall i | 0 <= i < |Flags(path, children)| :: Flags(path, children)[i].path == path;
  }

  lemma ExpansionKeeps(g: Goal, w: Walk, remaining: nat, seen: set<nat>, kept: seq<Path>, sorted: seq<Path>,
                       children: Children, bytes: nat)
    requires Good(g, w, remaining) && w.stack != [] && SortedPaths(g.s.cmp, kept, sorted)
    requires ReadWithin(g, w, remaining, kept, Flags(Top(w).path, children) != [])
    requires Popped(w).stackBytes + PathBytes(g.s.a, sorted) <= MAX_USIZE ==>
               bytes == Popped(w).stackBytes + PathBytes(g.s.a, sorted)
    ensures Good(g, Expanded(g.s.a, w, seen, sorted, bytes, Flags(Top(w).path, children)), remaining)
  {
    hide Honest, TotalPreorder, LegacyFits, StackListing, ItemBytes, AllFound, AllReached, AllReturned, PathBytes,
         StackBytes, Pushed, Flags, FrontierOnly, Shallow, Measured;
    var added := Flags(Top(w).path, children);
    PoppedShape(g.s.a, w);
    PushedShape(g.s.a, Popped(w).stack, sorted, Top(w).depth + 1);
    if g.fits {
      FlagsAreFrontier(g.s, w.issues, Top(w).path, children);
    }
    ChildrenAreReached(g, w, remaining, kept, sorted, added != []);
    ChildrenFit(g, w, remaining, kept, sorted, added != []);
    if added == [] && g.exact && w.issues == [] {
      ChildrenAreListed(g, w, remaining, kept, sorted);
    }
  }
}
