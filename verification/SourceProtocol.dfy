/** The identity and revision protocol between lists and append indexes, over every
    run with any number of lists, clones and indexes. The history records, for each
    binding a list ever had, the source paths it had then. */
module SourceProtocol {
  import opened Orders
  import opened Paths
  import opened AppendIndex
  import opened Batch
  import opened ListState
  import opened Proposals
  import opened LegacyListModel

  type Binding = (Token, nat)

  /** An index with the comparator it is bound to for life. */
  datatype BoundIndex = BoundIndex(compareText: Comparator<Text>, state: IndexState)

  datatype World = World(
    lists: map<nat, ListState>,
    indexes: map<nat, BoundIndex>,
    ghost history: map<Binding, multiset<Text>>)

  function BindingOf(list: ListState): Binding {
    (list.identity, list.revision)
  }

  function SourceSet(list: ListState): multiset<Text> {
    multiset(Sources(list.items))
  }

  ghost predicate WellFormedIndex(index: BoundIndex) {
    && TotalPreorder(index.compareText)
    && Sorted(index.compareText, Flatten(index.state.chunks)) && Shaped(index.state.chunks)
  }

  /** An identity no list ever had: what a new `Arc` returns. */
  ghost predicate Unused(w: World, spare: Token) {
    forall b | b in w.history :: b.0 != spare
  }

  /** What the append promises about list and index, given its own requirement. */
  ghost predicate AppendContract(list: ListState, index: BoundIndex, list': ListState, index': BoundIndex, spare: Token) {
    && index'.compareText == index.compareText
    && (WellFormedIndex(index) && (CurrentFor(index.state, list) ==> Indexes(index.state, list)) ==>
          && WellFormedIndex(index')
          && ((&& (list' == list || IsInvalidated(list, list', spare))
               && CurrentFor(index'.state, list') && Indexes(index'.state, list'))
              || (list' == list && (index' == index || index'.state == Cleared))))
    && (list' == list || IsInvalidated(list, list', spare))
  }

  datatype Event =
    | CreateList(id: nat, spare: Token)
    | CloneList(from: nat, id: nat, spare: Token)
    | DropList(id: nat)
    | CreateIndex(id: nat, compareText: Comparator<Text>)
    | KeepSources(id: nat, next: ListState)
    | ChangeSources(id: nat, next: ListState, spare: Token)
    | Append(id: nat, index: nat, next: ListState, nextIndex: BoundIndex, spare: Token)

  ghost function Recorded(w: World, list: ListState): map<Binding, multiset<Text>> {
    w.history[BindingOf(list) := SourceSet(list)]
  }

  ghost function WithList(w: World, id: nat, list: ListState): World {
    World(w.lists[id := list], w.indexes, Recorded(w, list))
  }

  /** One operation on the workbench. Sorting, moving rows and editing proposals keep
      the sources; clearing, removing rows and recorded moves change them. */
  ghost predicate Step(w: World, e: Event, w': World) {
    match e
    case CreateList(id, spare) =>
      id !in w.lists && Unused(w, spare) && w' == WithList(w, id, ListState([], 0, 0, spare, 0))
    case CloneList(from, id, spare) =>
      from in w.lists && id !in w.lists && Unused(w, spare)
      && w' == WithList(w, id, w.lists[from].(identity := spare, revision := 0))
    case DropList(id) =>
      w' == w.(lists := w.lists - {id})
    case CreateIndex(id, compareText) =>
      id !in w.indexes && TotalPreorder(compareText)
      && w' == w.(indexes := w.indexes[id := BoundIndex(compareText, Cleared)])
    case KeepSources(id, next) =>
      id in w.lists && KeepsBinding(w.lists[id], next) && SourceSet(next) == SourceSet(w.lists[id])
      && w' == w.(lists := w.lists[id := next])
    case ChangeSources(id, next, spare) =>
      id in w.lists && Unused(w, spare) && IsInvalidated(w.lists[id], next, spare) && w' == WithList(w, id, next)
    case Append(id, index, next, nextIndex, spare) =>
      id in w.lists && index in w.indexes && Unused(w, spare)
      && AppendContract(w.lists[id], w.indexes[index], next, nextIndex, spare)
      && w' == WithList(w, id, next).(indexes := w.indexes[index := nextIndex])
  }

  ghost predicate ListRecorded(w: World, id: nat)
    requires id in w.lists
  {
    var list := w.lists[id];
    && BindingOf(list) in w.history && w.history[BindingOf(list)] == SourceSet(list)
    && (forall b | b in w.history && b.0 == list.identity :: b.1 <= list.revision)
  }

  ghost predicate IndexRecorded(w: World, id: nat)
    requires id in w.indexes
  {
    var index := w.indexes[id];
    && WellFormedIndex(index)
    && (index.state.model.Some? ==>
          var b := (index.state.model.value, index.state.revision);
          b in w.history && multiset(Flatten(index.state.chunks)) == w.history[b])
  }

  ghost predicate Inv(w: World) {
    && (forall id | id in w.lists :: ListRecorded(w, id))
    && (forall a, b | a in w.lists && b in w.lists && a != b :: w.lists[a].identity != w.lists[b].identity)
    && (forall id | id in w.indexes :: IndexRecorded(w, id))
  }

  /** The list's append is the append of the protocol. */
  method AppendStep(list: LegacyList, index: LegacyAppendIndex, batch: seq<Item>, granted: Reservations, spare: Token)
    returns (r: Result<nat>)
    requires Consistent(list.State()) && index.WellFormed()
    requires CurrentFor(index.State(), list.State()) ==> Indexes(index.State(), list.State())
    modifies list, index
    ensures AppendContract(old(list.State()), BoundIndex(index.compareText, old(index.State())),
                           list.State(), BoundIndex(index.compareText, index.State()), spare)
    ensures r.Err? ==> list.State() == old(list.State())
  {
    hide TotalPreorder, Sorted, Shaped, Consistent, BatchFits;
    r := list.AppendBatchIndexed(index, batch, granted, spare);
  }

  /** Reordered rows and edited proposals are steps that keep the sources. */
  lemma EditsKeepSources(before: ListState, after: ListState)
    requires KeepsBinding(before, after)
    requires multiset(after.items) == multiset(before.items)
             || (|after.items| == |before.items| && forall i | 0 <= i < |after.items| :: after.items[i].source == before.items[i].source)
    ensures SourceSet(after) == SourceSet(before)
  {
    if multiset(after.items) == multiset(before.items) {
      SourcesOfSameRows(after.items, before.items);
    } else {
      assert Sources(after.items) == Sources(before.items);
    }
  }

  /** A binding that changes is a binding that never was. */
  lemma BumpedIsNew(w: World, id: nat, next: ListState, spare: Token)
    requires Inv(w) && id in w.lists && Unused(w, spare) && IsInvalidated(w.lists[id], next, spare)
    ensures BindingOf(next) !in w.history
    ensures forall b | b in w.history && b.0 == next.identity :: b.1 < next.revision
    ensures forall other | other in w.lists && other != id :: w.lists[other].identity != next.identity
  {
    assert ListRecorded(w, id);
    forall other | other in w.lists && other != id ensures w.lists[other].identity != next.identity {
      assert ListRecorded(w, other);
    }
  }

  /** Recording a new binding leaves every other list and every index recorded. */
  lemma RecordKeepsOthers(w: World, id: nat, next: ListState)
    requires Inv(w) && BindingOf(next) !in w.history
    requires forall b | b in w.history && b.0 == next.identity :: b.1 < next.revision
    requires forall other | other in w.lists && other != id :: w.lists[other].identity != next.identity
    ensures Inv(WithList(w, id, next))
  {
    hide SourceSet, WellFormedIndex;
    var w' := WithList(w, id, next);
    forall other | other in w'.lists ensures ListRecorded(w', other) {
      if other != id { assert ListRecorded(w, other); }
    }
    forall index | index in w'.indexes ensures IndexRecorded(w', index) {
      assert IndexRecorded(w, index);
    }
  }

  lemma CurrentIndexIsExact(w: World, id: nat, index: nat)
    requires Inv(w) && id in w.lists && index in w.indexes
    requires CurrentFor(w.indexes[index].state, w.lists[id])
    ensures WellFormedIndex(w.indexes[index]) && Indexes(w.indexes[index].state, w.lists[id])
  {
    assert ListRecorded(w, id) && IndexRecorded(w, index);
  }

  lemma StepKeepsInv(w: World, e: Event, w': World)
    requires Inv(w) && Step(w, e, w')
    ensures Inv(w')
  {
    match e
    case CreateList(id, spare) =>
      FreshList(w, id, spare);
      RecordKeepsOthers(w, id, ListState([], 0, 0, spare, 0));
    case CloneList(from, id, spare) =>
      FreshList(w, id, spare);
      RecordKeepsOthers(w, id, w.lists[from].(identity := spare, revision := 0));
    case DropList(id) =>
      forall other | other in w'.lists ensures ListRecorded(w', other) { assert ListRecorded(w, other); }
      forall index | index in w'.indexes ensures IndexRecorded(w', index) { assert IndexRecorded(w, index); }
    case CreateIndex(id, compareText) =>
      NewIndexRecorded(w, id, compareText, w');
    case KeepSources(id, next) =>
      forall other | other in w'.lists ensures ListRecorded(w', other) {
        assert ListRecorded(w, id) && (other != id ==> ListRecorded(w, other));
      }
      forall index | index in w'.indexes ensures IndexRecorded(w', index) { assert IndexRecorded(w, index); }
    case ChangeSources(id, next, spare) =>
      BumpedIsNew(w, id, next, spare);
      RecordKeepsOthers(w, id, next);
    case Append(id, index, next, nextIndex, spare) =>
      AppendKeepsInv(w, id, index, next, nextIndex, spare, w');
  }

  lemma FreshList(w: World, id: nat, spare: Token)
    requires Inv(w) && Unused(w, spare)
    ensures forall b | b in w.history :: b.0 != spare
    ensures forall other | other in w.lists :: w.lists[other].identity != spare
  {
    forall other | other in w.lists ensures w.lists[other].identity != spare {
      assert ListRecorded(w, other);
    }
  }

  lemma NewIndexRecorded(w: World, id: nat, compareText: Comparator<Text>, w': World)
    requires Inv(w) && id !in w.indexes && TotalPreorder(compareText)
    requires w' == w.(indexes := w.indexes[id := BoundIndex(compareText, Cleared)])
    ensures Inv(w')
  {
    hide TotalPreorder;
    forall other | other in w'.lists ensures ListRecorded(w', other) { assert ListRecorded(w, other); }
    forall index | index in w'.indexes ensures IndexRecorded(w', index) {
      if index != id { assert IndexRecorded(w, index); }
    }
  }

  lemma AppendKeepsInv(w: World, id: nat, index: nat, next: ListState, nextIndex: BoundIndex, spare: Token, w': World)
    requires Inv(w) && id in w.lists && index in w.indexes && Unused(w, spare)
    requires AppendContract(w.lists[id], w.indexes[index], next, nextIndex, spare)
    requires w' == WithList(w, id, next).(indexes := w.indexes[index := nextIndex])
    ensures Inv(w')
  {
    var recorded := WithList(w, id, next);
    RecordKeepsInv(w, id, next, spare);
    assert IndexRecorded(w, index);
    if CurrentFor(w.indexes[index].state, w.lists[id]) {
      CurrentIndexIsExact(w, id, index);
    }
    IndexRecordedAfter(w, recorded, id, index, nextIndex);
    hide WellFormedIndex, SourceSet, AppendContract;
    forall other | other in w'.lists ensures ListRecorded(w', other) { assert ListRecorded(recorded, other); }
    forall other | other in w'.indexes ensures IndexRecorded(w', other) {
      if other != index { assert IndexRecorded(recorded, other); }
    }
  }

  lemma RecordKeepsInv(w: World, id: nat, next: ListState, spare: Token)
    requires Inv(w) && id in w.lists && Unused(w, spare)
    requires next == w.lists[id] || IsInvalidated(w.lists[id], next, spare)
    ensures Inv(WithList(w, id, next))
  {
    hide SourceSet, WellFormedIndex;
    if next == w.lists[id] {
      assert ListRecorded(w, id);
      assert WithList(w, id, next).history == w.history && WithList(w, id, next).lists == w.lists;
    } else {
      BumpedIsNew(w, id, next, spare);
      RecordKeepsOthers(w, id, next);
    }
  }

  lemma IndexRecordedAfter(w: World, recorded: World, id: nat, index: nat, nextIndex: BoundIndex)
    requires Inv(recorded) && id in recorded.lists && index in recorded.indexes
    requires WellFormedIndex(nextIndex)
    requires || (CurrentFor(nextIndex.state, recorded.lists[id]) && Indexes(nextIndex.state, recorded.lists[id]))
             || nextIndex == recorded.indexes[index] || nextIndex.state == Cleared
    ensures IndexRecorded(recorded.(indexes := recorded.indexes[index := nextIndex]), index)
  {
    hide WellFormedIndex;
    assert ListRecorded(recorded, id) && IndexRecorded(recorded, index);
  }

  /** A run: every world follows from the one before by one operation. */
  ghost predicate Run(worlds: seq<World>, events: seq<Event>) {
    && |worlds| == |events| + 1
    && worlds[0] == World(map[], map[], map[])
    && forall k | 0 <= k < |events| :: Step(worlds[k], events[k], worlds[k + 1])
  }

  lemma {:induction false} RunKeepsInv(worlds: seq<World>, events: seq<Event>, k: nat)
    requires Run(worlds, events) && k < |worlds|
    ensures Inv(worlds[k])
  {
    if k > 0 {
      RunKeepsInv(worlds, events, k - 1);
      StepKeepsInv(worlds[k - 1], events[k - 1], worlds[k]);
    }
  }

  /** Over every run: an index that reads as current for a list holds exactly that
      list's source paths, sorted, and answers for exactly its rows. */
  lemma CurrentMeansExact(worlds: seq<World>, events: seq<Event>, k: nat, id: nat, index: nat, source: Text)
    requires Run(worlds, events) && k < |worlds|
    requires id in worlds[k].lists && index in worlds[k].indexes
    requires CurrentFor(worlds[k].indexes[index].state, worlds[k].lists[id])
    ensures var list, bound := worlds[k].lists[id], worlds[k].indexes[index];
            && Sorted(bound.compareText, Flatten(bound.state.chunks))
            && multiset(Flatten(bound.state.chunks)) == SourceSet(list)
            && ((exists x :: x in Flatten(bound.state.chunks) && bound.compareText(x, source) == Equal)
                <==> Duplicate(bound.compareText, Sources(list.items), source))
  {
    RunKeepsInv(worlds, events, k);
    CurrentIndexIsExact(worlds[k], id, index);
    var flat, sources := Flatten(worlds[k].indexes[index].state.chunks), Sources(worlds[k].lists[id].items);
    assert forall x :: x in flat <==> x in multiset(flat);
    assert forall x :: x in sources <==> x in multiset(sources);
  }

  /** Changing the sources makes every index stale for that list, whatever the
      revision counter does. */
  lemma SourceChangeMakesStale(worlds: seq<World>, events: seq<Event>, k: nat, index: nat)
    requires Run(worlds, events) && k < |events| && events[k].ChangeSources?
    requires index in worlds[k + 1].indexes
    ensures !CurrentFor(worlds[k + 1].indexes[index].state, worlds[k + 1].lists[events[k].id])
  {
    RunKeepsInv(worlds, events, k);
    var w, e := worlds[k], events[k];
    assert Step(w, e, worlds[k + 1]);
    BumpedIsNew(w, e.id, e.next, e.spare);
    assert IndexRecorded(w, index);
  }

  /** A stale index stays stale: only an append through it makes it current again. */
  lemma StaleStaysStale(worlds: seq<World>, events: seq<Event>, k: nat, id: nat, index: nat)
    requires Run(worlds, events) && k < |events|
    requires index in worlds[k].indexes && index in worlds[k + 1].indexes && id in worlds[k + 1].lists
    requires id in worlds[k].lists ==> !CurrentFor(worlds[k].indexes[index].state, worlds[k].lists[id])
    requires !(events[k].Append? && events[k].id == id && events[k].index == index)
    ensures !CurrentFor(worlds[k + 1].indexes[index].state, worlds[k + 1].lists[id])
  {
    hide SourceSet, WellFormedIndex;
    RunKeepsInv(worlds, events, k);
    RunKeepsInv(worlds, events, k + 1);
    var w, e, w' := worlds[k], events[k], worlds[k + 1];
    assert Step(w, e, w');
    assert IndexRecorded(w, index) && ListRecorded(w', id);
    match e
    case ChangeSources(target, next, spare) =>
      BumpedIsNew(w, target, next, spare);
    case Append(target, through, next, nextIndex, spare) =>
      if target == id && next != w.lists[id] {
        BumpedIsNew(w, id, next, spare);
      } else if through == index && target != id {
        AppendElsewhere(w, e, w', id);
      }
    case _ =>
  }

  lemma AppendElsewhere(w: World, e: Event, w': World, id: nat)
    requires Inv(w) && Inv(w') && Step(w, e, w') && e.Append? && e.id != id && id in w.lists
    requires !CurrentFor(w.indexes[e.index].state, w.lists[id])
    ensures !CurrentFor(w'.indexes[e.index].state, w'.lists[id])
  {
    hide SourceSet;
    assert w'.lists[id].identity != w'.lists[e.id].identity;
    assert IndexRecorded(w, e.index);
    if CurrentFor(w.indexes[e.index].state, w.lists[e.id]) {
      CurrentIndexIsExact(w, e.id, e.index);
    }
  }
}
