/** The role graph of the tooling manifest: reference checks, the cycle check, and the
    closure whose unguarded recursion relies on that check. */
module ToolingGraph {
  import opened Picking
  import opened Wrappers

  datatype Result<T> = Ok(value: T) | Err(error: Error)

  const TOOLING_NAMESPACE := "darkrenamer_tooling"

  datatype Kind = PowerShell | Python | PythonPackage

  datatype Entry = Entry(role: string, kind: Kind, moduleName: Option<string>, dependencies: seq<string>)

  datatype Error =
    | NoRootPackage
    | UnknownDependencies(role: string, unknown: seq<string>)
    | NoModuleName(role: string)
    | MissingPackage(role: string, package: string)
    | UndeclaredPackage(role: string, package: string)
    | DependencyCycle(role: string)
    | NothingRequired
    | RequiredNotUnique
    | RequiredAbsent

  type Graph = map<string, Entry>

  /** The entries by role; a later entry with the same role replaces an earlier one. */
  function ByRole(entries: seq<Entry>): (g: Graph)
    ensures forall r :: r in g ==> g[r] in entries && g[r].role == r
    ensures forall e | e in entries :: e.role in g
  {
    if entries == [] then map[]
    else
      var last := entries[|entries| - 1];
      assert entries == entries[..|entries| - 1] + [last];
      ByRole(entries[..|entries| - 1])[last.role := last]
  }

  function PackagesByModule(entries: seq<Entry>): (m: map<Option<string>, Entry>)
    ensures forall n :: n in m ==> m[n] in entries && m[n].kind.PythonPackage? && m[n].moduleName == n
    ensures forall e | e in entries && e.kind.PythonPackage? :: e.moduleName in m
  {
    if entries == [] then map[]
    else
      var last := entries[|entries| - 1];
      assert entries == entries[..|entries| - 1] + [last];
      var rest := PackagesByModule(entries[..|entries| - 1]);
      if last.kind.PythonPackage? then rest[last.moduleName := last] else rest
  }

  /** Of several entries with one role the last stands for it. */
  lemma {:induction false} LastEntryWins(entries: seq<Entry>, i: nat)
    requires i < |entries| && forall j | i < j < |entries| :: entries[j].role != entries[i].role
    ensures entries[i].role in ByRole(entries) && ByRole(entries)[entries[i].role] == entries[i]
  {
    if i < |entries| - 1 {
      LastEntryWins(entries[..|entries| - 1], i);
    }
  }

  lemma {:induction false} LastPackageWins(entries: seq<Entry>, i: nat)
    requires i < |entries| && entries[i].kind.PythonPackage?
    requires forall j | i < j < |entries| && entries[j].kind.PythonPackage? :: entries[j].moduleName != entries[i].moduleName
    ensures entries[i].moduleName in PackagesByModule(entries) && PackagesByModule(entries)[entries[i].moduleName] == entries[i]
  {
    if i < |entries| - 1 {
      LastPackageWins(entries[..|entries| - 1], i);
    }
  }

  // ----- Ancestor packages of a dotted module name -----

  function Split(name: string): (parts: seq<string>)
    ensures parts != []
  {
    if name == "" then [""]
    else
      var rest := Split(name[1..]);
      if name[0] == '.' then [""] + rest else [[name[0]] + rest[0]] + rest[1..]
  }

  function Join(parts: seq<string>): string
    requires parts != []
  {
    if |parts| == 1 then parts[0] else parts[0] + "." + Join(parts[1..])
  }

  predicate IsAncestor(ancestor: string, name: string) {
    |ancestor| < |name| && name[..|ancestor|] == ancestor && name[|ancestor|] == '.'
  }

  lemma JoinLonger(c: char, parts: seq<string>)
    requires parts != []
    ensures Join([[c] + parts[0]] + parts[1..]) == [c] + Join(parts)
  {
    if |parts| > 1 {
      assert ([[c] + parts[0]] + parts[1..])[1..] == parts[1..];
    }
  }

  /** Taking components off the end of a module name stops exactly before a dot. */
  lemma {:induction false} JoinedPrefixIsAncestor(name: string, count: nat)
    requires 1 <= count < |Split(name)|
    ensures IsAncestor(Join(Split(name)[..count]), name)
  {
    var rest := Split(name[1..]);
    if name[0] == '.' {
      if count > 1 {
        JoinedPrefixIsAncestor(name[1..], count - 1);
        assert Split(name)[..count] == [""] + rest[..count - 1];
      }
    } else {
      JoinedPrefixIsAncestor(name[1..], count);
      assert Split(name)[..count] == [[name[0]] + rest[..count][0]] + rest[..count][1..];
      JoinLonger(name[0], rest[..count]);
    }
  }

  lemma {:induction false} JoinGrows(parts: seq<string>, i: nat, j: nat)
    requires 1 <= i <= j <= |parts|
    ensures |Join(parts[..i])| <= |Join(parts[..j])|
  {
    if i > 1 {
      JoinGrows(parts[1..], i - 1, j - 1);
      assert parts[..i][1..] == parts[1..][..i - 1] && parts[..j][1..] == parts[1..][..j - 1];
    }
  }

  /** Every prefix that ends before a dot is reached by some number of components. */
  lemma {:induction false} AncestorIsJoinedPrefix(ancestor: string, name: string) returns (count: nat)
    requires IsAncestor(ancestor, name)
    ensures 1 <= count < |Split(name)| && Join(Split(name)[..count]) == ancestor
  {
    var rest := Split(name[1..]);
    if ancestor == "" {
      count := 1;
    } else {
      assert name[0] == ancestor[0] && name[1..][..|ancestor| - 1] == ancestor[1..];
      var n := AncestorIsJoinedPrefix(ancestor[1..], name[1..]);
      if name[0] == '.' {
        assert Split(name)[..n + 1] == [""] + rest[..n];
        count := n + 1;
      } else {
        assert Split(name)[..n] == [[name[0]] + rest[..n][0]] + rest[..n][1..];
        JoinLonger(name[0], rest[..n]);
        count := n;
      }
    }
  }

  // ----- Paths -----

  ghost predicate IsPath(g: Graph, p: seq<string>) {
    && p != []
    && forall k | 0 <= k < |p| - 1 :: p[k] in g && p[k + 1] in g[p[k]].dependencies
  }

  ghost predicate PathBetween(g: Graph, p: seq<string>, from: string, to: string) {
    IsPath(g, p) && p[0] == from && p[|p| - 1] == to
  }

  ghost predicate Reachable(g: Graph, from: string, to: string) {
    exists p :: PathBetween(g, p, from, to)
  }

  ghost predicate OnCycle(g: Graph, role: string) {
    exists p :: PathBetween(g, p, role, role) && |p| >= 2
  }

  ghost predicate Acyclic(g: Graph) {
    forall role :: !OnCycle(g, role)
  }

  ghost predicate DependenciesKnown(g: Graph) {
    forall r, d | r in g && d in g[r].dependencies :: d in g
  }

  ghost predicate DependencyClosed(g: Graph, roles: set<string>) {
    forall r, d | r in roles && r in g && d in g[r].dependencies :: d in roles
  }

  ghost function Elements(s: seq<string>): set<string> {
    set x | x in s
  }

  /** Each role comes after all the roles it depends on. */
  ghost predicate Topological(g: Graph, order: seq<string>) {
    forall i | 0 <= i < |order| :: order[i] in g && forall d | d in g[order[i]].dependencies :: d in order[..i]
  }

  function Rank(order: seq<string>, role: string): (i: nat)
    requires role in order
    ensures i < |order| && order[i] == role && role !in order[..i]
  {
    if order[0] == role then 0
    else
      assert order == [order[0]] + order[1..];
      var i := Rank(order[1..], role);
      assert order[..i + 1] == [order[0]] + order[1..][..i];
      i + 1
  }

  lemma DependencyRanksLower(g: Graph, order: seq<string>, role: string, dependency: string)
    requires Topological(g, order) && role in order && dependency in g[role].dependencies
    ensures dependency in order && Rank(order, dependency) < Rank(order, role)
  {
    var i := Rank(order, role);
    assert dependency in order[..i];
    var j :| 0 <= j < i && order[j] == dependency;
  }

  lemma {:induction false} PathsDescend(g: Graph, order: seq<string>, p: seq<string>)
    requires Topological(g, order) && IsPath(g, p) && p[0] in order
    ensures p[|p| - 1] in order
    ensures |p| >= 2 ==> Rank(order, p[|p| - 1]) < Rank(order, p[0])
  {
    if |p| >= 2 {
      DependencyRanksLower(g, order, p[0], p[1]);
      PathsDescend(g, order, p[1..]);
    }
  }

  lemma OrderGrows(g: Graph, order: seq<string>, role: string)
    requires Topological(g, order) && role in g && forall d | d in g[role].dependencies :: d in order
    ensures Topological(g, order + [role])
    ensures Elements(order + [role]) == Elements(order) + {role}
  {
    var longer := order + [role];
    assert forall i | 0 <= i < |order| :: longer[i] == order[i] && longer[..i] == order[..i];
    assert longer[..|order|] == order;
  }

  lemma OrderedIsAcyclic(g: Graph, order: seq<string>)
    requires Topological(g, order) && forall r :: r in g ==> r in order
    ensures Acyclic(g)
  {
    forall role ensures !OnCycle(g, role) {
      if OnCycle(g, role) {
        var p :| PathBetween(g, p, role, role) && |p| >= 2;
        PathsDescend(g, order, p);
      }
    }
  }

  lemma {:induction false} ClosedKeepsPaths(g: Graph, roles: set<string>, p: seq<string>)
    requires DependencyClosed(g, roles) && IsPath(g, p) && p[0] in roles
    ensures p[|p| - 1] in roles
  {
    if |p| >= 2 {
      ClosedKeepsPaths(g, roles, p[1..]);
    }
  }

  lemma ClosedKeepsReachable(g: Graph, roles: set<string>, from: string, to: string)
    requires DependencyClosed(g, roles) && from in roles && Reachable(g, from, to)
    ensures to in roles
  {
    var p :| PathBetween(g, p, from, to);
    ClosedKeepsPaths(g, roles, p);
  }

  lemma ReachesItself(g: Graph, role: string)
    ensures Reachable(g, role, role)
  {
    assert PathBetween(g, [role], role, role);
  }

  lemma ReachStep(g: Graph, from: string, via: string, to: string)
    requires from in g && via in g[from].dependencies && Reachable(g, via, to)
    ensures Reachable(g, from, to)
  {
    var p :| PathBetween(g, p, via, to);
    assert PathBetween(g, [from] + p, from, to);
  }

  lemma ReachSplit(g: Graph, from: string, to: string) returns (via: string)
    requires Reachable(g, from, to) && from != to
    ensures from in g && via in g[from].dependencies && Reachable(g, via, to)
  {
    var p :| PathBetween(g, p, from, to);
    via := p[1];
    assert PathBetween(g, p[1..], via, to);
  }

  // ----- The cycle check -----

  class DependencyCheck {
    const byRole: Graph
    var visiting: set<string>
    var visited: set<string>
    ghost var order: seq<string>

    constructor (byRole: Graph)
      ensures this.byRole == byRole && visiting == {} && Valid() && order == []
    {
      this.byRole := byRole;
      visiting, visited, order := {}, {}, [];
    }

    ghost predicate Valid()
      reads this
    {
      Topological(byRole, order) && visited == Elements(order)
    }

    /** A fault names a role on a real cycle; without one the role and everything it
        needs have been put in dependency order. */
    method Visit(role: string, ghost stack: seq<string>) returns (fault: Option<string>)
      requires DependenciesKnown(byRole) && role in byRole && Valid()
      requires visiting == Elements(stack) && IsPath(byRole, stack + [role])
      modifies this
      ensures fault.Some? ==> OnCycle(byRole, fault.value)
      ensures fault.None? ==> Valid() && visiting == old(visiting) && {role} + old(visited) <= visited
      decreases byRole.Keys - visiting
    {
      hide Topological;
      if role in visiting {
        StackCloses(byRole, stack, role);
        return Some(role);
      }
      if role in visited {
        return None;
      }
      visiting := visiting + {role};
      var dependencies := byRole[role].dependencies;
      for i := 0 to |dependencies|
        invariant Valid() && visiting == old(visiting) + {role} && old(visited) <= visited
        invariant forall k | 0 <= k < i :: dependencies[k] in visited
      {
        StackGrows(byRole, stack, role, dependencies[i]);
        fault := Visit(dependencies[i], stack + [role]);
        if fault.Some? {
          return;
        }
      }
      visiting := visiting - {role};
      OrderGrows(byRole, order, role);
      visited, order := visited + {role}, order + [role];
      return None;
    }

    method VisitAll(entries: seq<Entry>) returns (fault: Option<string>)
      requires byRole == ByRole(entries) && DependenciesKnown(byRole) && Valid() && visiting == {}
      modifies this
      ensures fault.Some? ==> OnCycle(byRole, fault.value)
      ensures fault.None? ==> Topological(byRole, order) && forall r :: r in byRole ==> r in order
    {
      hide Topological, ByRole, OnCycle, DependenciesKnown;
      for i := 0 to |entries|
        invariant Valid() && visiting == {}
        invariant forall k | 0 <= k < i :: entries[k].role in visited
      {
        assert IsPath(byRole, [] + [entries[i].role]);
        fault := Visit(entries[i].role, []);
        if fault.Some? {
          return;
        }
      }
      return None;
    }
  }

  lemma StackCloses(g: Graph, stack: seq<string>, role: string)
    requires IsPath(g, stack + [role]) && role in stack
    ensures OnCycle(g, role)
  {
    var i :| 0 <= i < |stack| && stack[i] == role;
    var p := (stack + [role])[i..];
    assert PathBetween(g, p, role, role);
  }

  lemma StackGrows(g: Graph, stack: seq<string>, role: string, dependency: string)
    requires IsPath(g, stack + [role]) && role in g && dependency in g[role].dependencies
    ensures IsPath(g, stack + [role] + [dependency])
    ensures Elements(stack + [role]) == Elements(stack) + {role}
  {
  }

  // ----- Acceptance -----

  function UnknownOf(g: Graph, dependencies: seq<string>): (unknown: seq<string>)
    ensures unknown == [] <==> forall d | d in dependencies :: d in g
  {
    if dependencies == [] then []
    else
      var (front, last) := (dependencies[..|dependencies| - 1], dependencies[|dependencies| - 1]);
      assert dependencies == front + [last];
      UnknownOf(g, front) + if last in g then [] else [last]
  }

  /** The dependencies that no entry declares, in their order. */
  ghost predicate AreUnknown(g: Graph, dependencies: seq<string>, unknown: seq<string>) {
    exists positions: seq<nat> ::
      && PickedAt(dependencies, positions, unknown)
      && forall k: nat :: k in positions <==> k < |dependencies| && dependencies[k] !in g
  }

  lemma {:induction false} UnknownMeaning(g: Graph, dependencies: seq<string>) returns (positions: seq<nat>)
    ensures PickedAt(dependencies, positions, UnknownOf(g, dependencies))
    ensures forall k: nat :: k in positions <==> k < |dependencies| && dependencies[k] !in g
  {
    positions := [];
    if dependencies != [] {
      var n := |dependencies| - 1;
      assert dependencies == dependencies[..n] + [dependencies[n]];
      positions := UnknownMeaning(g, dependencies[..n]);
      PickNext(dependencies[..n], dependencies[n], positions, UnknownOf(g, dependencies[..n]));
      if dependencies[n] !in g {
        positions := positions + [n];
      }
    }
  }

  lemma UnknownAre(g: Graph, dependencies: seq<string>)
    ensures AreUnknown(g, dependencies, UnknownOf(g, dependencies))
  {
    var positions := UnknownMeaning(g, dependencies);
  }

  ghost predicate DeclaresPackage(packages: map<Option<string>, Entry>, e: Entry, ancestor: string) {
    Some(ancestor) in packages && packages[Some(ancestor)].role in e.dependencies
  }

  ghost predicate AllKnown(g: Graph, e: Entry) {
    forall d | d in e.dependencies :: d in g
  }

  ghost predicate EntryReferenced(g: Graph, packages: map<Option<string>, Entry>, e: Entry) {
    && AllKnown(g, e)
    && (!e.kind.PowerShell? ==>
          && e.moduleName.Some?
          && forall a | IsAncestor(a, e.moduleName.value) :: DeclaresPackage(packages, e, a))
  }

  /** All ancestors that are shorter than `ancestor` are declared. */
  ghost predicate DeclaredBelow(packages: map<Option<string>, Entry>, e: Entry, ancestor: string)
    requires e.moduleName.Some?
  {
    forall a | IsAncestor(a, e.moduleName.value) && |a| < |ancestor| :: DeclaresPackage(packages, e, a)
  }

  /** The first fault of an entry: unknown dependencies before the module name, and the
      name before its ancestors from the shortest on. */
  ghost predicate Explains(g: Graph, packages: map<Option<string>, Entry>, e: Entry, error: Error) {
    match error
    case UnknownDependencies(role, unknown) => role == e.role && unknown != [] && AreUnknown(g, e.dependencies, unknown)
    case NoModuleName(role) =>
      role == e.role && AllKnown(g, e) && !e.kind.PowerShell? && e.moduleName.None?
    case MissingPackage(role, package) =>
      && role == e.role && AllKnown(g, e) && !e.kind.PowerShell? && e.moduleName.Some?
      && IsAncestor(package, e.moduleName.value) && Some(package) !in packages && DeclaredBelow(packages, e, package)
    case UndeclaredPackage(role, package) =>
      && role == e.role && AllKnown(g, e) && !e.kind.PowerShell? && e.moduleName.Some? && package !in e.dependencies
      && exists a :: && IsAncestor(a, e.moduleName.value) && Some(a) in packages && packages[Some(a)].role == package
                     && DeclaredBelow(packages, e, a)
    case _ => false
  }

  ghost predicate Referenced(entries: seq<Entry>) {
    var g, packages := ByRole(entries), PackagesByModule(entries);
    && ((exists e :: e in entries && !e.kind.PowerShell?) ==> Some(TOOLING_NAMESPACE) in packages)
    && forall e | e in entries :: EntryReferenced(g, packages, e)
  }

  /** What a refusal of the graph means; reference faults are the first in manifest order. */
  ghost predicate GraphFault(entries: seq<Entry>, error: Error) {
    var g, packages := ByRole(entries), PackagesByModule(entries);
    match error
    case NoRootPackage => (exists e :: e in entries && !e.kind.PowerShell?) && Some(TOOLING_NAMESPACE) !in packages
    case DependencyCycle(role) => Referenced(entries) && OnCycle(g, role)
    case _ => exists i :: 0 <= i < |entries| && FirstFault(g, packages, entries, i, error)
  }

  ghost predicate FirstFault(g: Graph, packages: map<Option<string>, Entry>, entries: seq<Entry>, i: nat, error: Error)
    requires i < |entries|
  {
    Explains(g, packages, entries[i], error) && forall k | 0 <= k < i :: EntryReferenced(g, packages, entries[k])
  }

  lemma DeclaredSoFar(packages: map<Option<string>, Entry>, e: Entry, index: nat)
    requires e.moduleName.Some? && 1 <= index < |Split(e.moduleName.value)|
    requires forall k | 1 <= k < index :: DeclaresPackage(packages, e, Join(Split(e.moduleName.value)[..k]))
    ensures DeclaredBelow(packages, e, Join(Split(e.moduleName.value)[..index]))
  {
    var name := e.moduleName.value;
    forall a | IsAncestor(a, name) && |a| < |Join(Split(name)[..index])| ensures DeclaresPackage(packages, e, a) {
      var k := AncestorIsJoinedPrefix(a, name);
      if index <= k {
        JoinGrows(Split(name), index, k);
      }
    }
  }

  method CheckAncestors(ghost g: Graph, packages: map<Option<string>, Entry>, e: Entry) returns (error: Option<Error>)
    requires AllKnown(g, e) && !e.kind.PowerShell? && e.moduleName.Some?
    ensures error.None? <==> forall a | IsAncestor(a, e.moduleName.value) :: DeclaresPackage(packages, e, a)
    ensures error.Some? ==> Explains(g, packages, e, error.value)
  {
    hide Split, Join, IsAncestor, DeclaredBelow;
    var name := e.moduleName.value;
    var parts := Split(name);
    for index := 1 to |parts|
      invariant forall k | 1 <= k < index :: DeclaresPackage(packages, e, Join(parts[..k]))
    {
      var ancestor := Join(parts[..index]);
      JoinedPrefixIsAncestor(name, index);
      DeclaredSoFar(packages, e, index);
      if Some(ancestor) !in packages {
        return Some(MissingPackage(e.role, ancestor));
      }
      if packages[Some(ancestor)].role !in e.dependencies {
        return Some(UndeclaredPackage(e.role, packages[Some(ancestor)].role));
      }
    }
    forall a | IsAncestor(a, name) ensures DeclaresPackage(packages, e, a) {
      var k := AncestorIsJoinedPrefix(a, name);
    }
    return None;
  }

  method CheckEntry(g: Graph, packages: map<Option<string>, Entry>, e: Entry) returns (error: Option<Error>)
    ensures error.None? <==> EntryReferenced(g, packages, e)
    ensures error.Some? ==> Explains(g, packages, e, error.value)
  {
    var unknown := UnknownOf(g, e.dependencies);
    if unknown != [] {
      UnknownAre(g, e.dependencies);
      return Some(UnknownDependencies(e.role, unknown));
    }
    if !e.kind.PowerShell? {
      if e.moduleName.None? {
        return Some(NoModuleName(e.role));
      }
      error := CheckAncestors(g, packages, e);
      return;
    }
    return None;
  }

  method CheckReferences(entries: seq<Entry>) returns (error: Option<Error>)
    ensures error.None? <==> Referenced(entries)
    ensures error.Some? ==> GraphFault(entries, error.value) && !error.value.DependencyCycle?
  {
    hide ByRole, PackagesByModule, EntryReferenced;
    var g, packages := ByRole(entries), PackagesByModule(entries);
    if (exists e | e in entries :: !e.kind.PowerShell?) && Some(TOOLING_NAMESPACE) !in packages {
      return Some(NoRootPackage);
    }
    for i := 0 to |entries|
      invariant forall k | 0 <= k < i :: EntryReferenced(g, packages, entries[k])
    {
      error := CheckEntry(g, packages, entries[i]);
      if error.Some? {
        assert FirstFault(g, packages, entries, i, error.value);
        return;
      }
    }
    return None;
  }

  /** The manifest's graph is accepted exactly when every reference is good and no role is
      on a cycle; a cycle fault names a role on one. */
  method ParseGraph(entries: seq<Entry>) returns (error: Option<Error>, ghost order: seq<string>)
    ensures error.None? <==> Referenced(entries) && Acyclic(ByRole(entries))
    ensures error.Some? ==> GraphFault(entries, error.value)
    ensures error.None? ==> Topological(ByRole(entries), order) && forall r :: r in ByRole(entries) ==> r in order
  {
    order := [];
    error := CheckReferences(entries);
    if error.Some? {
      return;
    }
    var check := new DependencyCheck(ByRole(entries));
    var fault := check.VisitAll(entries);
    if fault.Some? {
      return Some(DependencyCycle(fault.value)), [];
    }
    order := check.order;
    OrderedIsAcyclic(check.byRole, order);
  }

  // ----- The closure -----

  lemma OrderedRoleIsKnown(g: Graph, order: seq<string>, role: string)
    requires Topological(g, order) && role in order
    ensures role in g
  {
    var i := Rank(order, role);
  }

  lemma ClosedGrows(g: Graph, roles: set<string>, role: string)
    requires DependencyClosed(g, roles) && role in g
    requires forall j | 0 <= j < |g[role].dependencies| :: g[role].dependencies[j] in roles
    ensures DependencyClosed(g, roles + {role})
  {
  }

  class Selection {
    const byRole: Graph
    var closure: set<string>

    constructor (byRole: Graph)
      ensures this.byRole == byRole && closure == {}
    {
      this.byRole := byRole;
      closure := {};
    }

    /** Adds exactly what the role reaches. The recursion has no guard against cycles: it
        ends because an accepted graph has a dependency order. */
    method Select(role: string, ghost order: seq<string>)
      requires Topological(byRole, order) && role in order && DependencyClosed(byRole, closure)
      modifies this
      ensures DependencyClosed(byRole, closure)
      ensures forall x :: x in closure <==> x in old(closure) || Reachable(byRole, role, x)
      decreases Rank(order, role)
    {
      hide Reachable, DependencyClosed, Topological, Rank;
      if role in closure {
        forall x | Reachable(byRole, role, x) ensures x in closure {
          ClosedKeepsReachable(byRole, closure, role, x);
        }
        return;
      }
      OrderedRoleIsKnown(byRole, order, role);
      var dependencies := byRole[role].dependencies;
      for i := 0 to |dependencies|
        invariant DependencyClosed(byRole, closure)
        invariant forall x :: x in closure <==>
                              x in old(closure) || exists j :: 0 <= j < i && Reachable(byRole, dependencies[j], x)
      {
        DependencyRanksLower(byRole, order, role, dependencies[i]);
        Select(dependencies[i], order);
      }
      ReachableThrough(byRole, role);
      forall j | 0 <= j < |dependencies| ensures dependencies[j] in closure {
        ReachesItself(byRole, dependencies[j]);
      }
      ClosedGrows(byRole, closure, role);
      closure := closure + {role};
    }
  }

  lemma ReachableThrough(g: Graph, role: string)
    requires role in g
    ensures forall x :: Reachable(g, role, x) <==>
                        x == role || exists j :: 0 <= j < |g[role].dependencies| && Reachable(g, g[role].dependencies[j], x)
  {
    var dependencies := g[role].dependencies;
    ReachesItself(g, role);
    forall x, j | 0 <= j < |dependencies| && Reachable(g, dependencies[j], x) ensures Reachable(g, role, x) {
      ReachStep(g, role, dependencies[j], x);
    }
    forall x | Reachable(g, role, x) && x != role
      ensures exists j :: 0 <= j < |dependencies| && Reachable(g, dependencies[j], x)
    {
      var via := ReachSplit(g, role, x);
    }
  }

  ghost predicate Needed(g: Graph, required: seq<string>, role: string) {
    exists i :: 0 <= i < |required| && Reachable(g, required[i], role)
  }

  ghost predicate IsClosure(g: Graph, required: seq<string>, roles: set<string>) {
    forall x :: x in roles <==> Needed(g, required, x)
  }

  predicate Distinct(roles: seq<string>) {
    forall i, j | 0 <= i < j < |roles| :: roles[i] != roles[j]
  }

  function Chosen(entries: seq<Entry>, roles: set<string>): seq<Entry> {
    if entries == [] then []
    else
      var (front, last) := (entries[..|entries| - 1], entries[|entries| - 1]);
      Chosen(front, roles) + if last.role in roles then [last] else []
  }

  /** The entries at exactly the positions whose role is in the set, in manifest order. */
  lemma {:induction false} ChosenMeaning(entries: seq<Entry>, roles: set<string>) returns (positions: seq<nat>)
    ensures PickedAt(entries, positions, Chosen(entries, roles))
    ensures forall k: nat :: k in positions <==> k < |entries| && entries[k].role in roles
    ensures forall e :: e in Chosen(entries, roles) <==> e in entries && e.role in roles
  {
    positions := [];
    if entries != [] {
      var n := |entries| - 1;
      assert entries == entries[..n] + [entries[n]];
      positions := ChosenMeaning(entries[..n], roles);
      PickNext(entries[..n], entries[n], positions, Chosen(entries[..n], roles));
      if entries[n].role in roles {
        positions := positions + [n];
      }
    }
  }

  /** The entries of the closure, in manifest order. */
  method VerifyTooling(entries: seq<Entry>, required: seq<string>) returns (r: Result<seq<Entry>>)
    ensures r.Ok? <==>
            && Referenced(entries) && Acyclic(ByRole(entries))
            && required != [] && Distinct(required) && forall role | role in required :: role in ByRole(entries)
    ensures r.Err? ==>
              || GraphFault(entries, r.error)
              || (r.error.NothingRequired? && required == [])
              || (r.error.RequiredNotUnique? && !Distinct(required))
              || (r.error.RequiredAbsent? && exists role :: role in required && role !in ByRole(entries))
    ensures r.Ok? ==> exists roles :: IsClosure(ByRole(entries), required, roles) && r.value == Chosen(entries, roles)
    ensures r.Ok? ==> exists positions: seq<nat> ::
              && PickedAt(entries, positions, r.value)
              && forall k: nat :: k in positions <==> k < |entries| && Needed(ByRole(entries), required, entries[k].role)
  {
    hide Topological, ByRole, OnCycle, Reachable, PackagesByModule, Referenced, Chosen, GraphFault;
    var error, order := ParseGraph(entries);
    if error.Some? {
      return Err(error.value);
    }
    var g := ByRole(entries);
    if required == [] {
      return Err(NothingRequired);
    }
    if !Distinct(required) {
      return Err(RequiredNotUnique);
    }
    if UnknownOf(g, required) != [] {
      return Err(RequiredAbsent);
    }
    var selection := new Selection(g);
    for i := 0 to |required|
      invariant DependencyClosed(g, selection.closure)
      invariant forall x :: x in selection.closure <==> exists k :: 0 <= k < i && Reachable(g, required[k], x)
    {
      selection.Select(required[i], order);
    }
    assert IsClosure(g, required, selection.closure);
    ghost var positions := ChosenMeaning(entries, selection.closure);
    return Ok(Chosen(entries, selection.closure));
  }

  lemma ClosureIsClosed(g: Graph, required: seq<string>, roles: set<string>)
    requires IsClosure(g, required, roles)
    ensures DependencyClosed(g, roles)
  {
    forall r, d | r in roles && r in g && d in g[r].dependencies ensures d in roles {
      assert Needed(g, required, r);
      var i :| 0 <= i < |required| && Reachable(g, required[i], r);
      var p :| PathBetween(g, p, required[i], r);
      assert PathBetween(g, p + [d], required[i], d);
      assert Needed(g, required, d);
    }
  }

  lemma ClosureIsWithin(g: Graph, required: seq<string>, roles: set<string>, other: set<string>)
    requires IsClosure(g, required, roles)
    requires DependencyClosed(g, other) && forall i | 0 <= i < |required| :: required[i] in other
    ensures roles <= other
  {
    hide DependencyClosed, Reachable;
    forall x | x in roles ensures x in other {
      assert Needed(g, required, x);
      var i :| 0 <= i < |required| && Reachable(g, required[i], x);
      ClosedKeepsReachable(g, other, required[i], x);
    }
  }

  /** The closure holds the required roles and all their dependencies, and nothing that
      some other such set could do without. */
  lemma ClosureIsLeast(g: Graph, required: seq<string>, roles: set<string>)
    requires IsClosure(g, required, roles)
    ensures DependencyClosed(g, roles) && forall i | 0 <= i < |required| :: required[i] in roles
    ensures forall other: set<string> |
              DependencyClosed(g, other) && (forall i | 0 <= i < |required| :: required[i] in other) :: roles <= other
  {
    hide DependencyClosed, Reachable;
    ClosureIsClosed(g, required, roles);
    forall i | 0 <= i < |required| ensures required[i] in roles {
      ReachesItself(g, required[i]);
      assert Needed(g, required, required[i]);
    }
    forall other: set<string> |
      DependencyClosed(g, other) && (forall i | 0 <= i < |required| :: required[i] in other)
      ensures roles <= other
    {
      ClosureIsWithin(g, required, roles, other);
    }
  }

  /** A selected Python module brings every package above it. */
  lemma AncestorsAreSelected(entries: seq<Entry>, required: seq<string>, roles: set<string>, e: Entry, ancestor: string)
    requires Referenced(entries) && IsClosure(ByRole(entries), required, roles)
    requires e in entries && e in Chosen(entries, roles) && ByRole(entries)[e.role] == e
    requires !e.kind.PowerShell? && IsAncestor(ancestor, e.moduleName.value)
    ensures exists p :: p in Chosen(entries, roles) && p.kind.PythonPackage? && p.moduleName == Some(ancestor)
  {
    var _ := ChosenMeaning(entries, roles);
    ClosureIsClosed(ByRole(entries), required, roles);
    var packages := PackagesByModule(entries);
    assert DeclaresPackage(packages, e, ancestor);
    assert packages[Some(ancestor)] in Chosen(entries, roles);
  }

}
