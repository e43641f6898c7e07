/** The bounded request slots for shell icons: one worker, generations, retirement.
    The machine is a value; the class is the program's object, and every method is
    one transition of the machine. */
module IconRequests {
  import opened Machine
  import opened Wrappers

  const MAX_PENDING: nat := 64

  datatype RequestKey<K> = Bootstrap | Class(key: K)

  datatype Token = Token(session: nat, generation: nat, serial: nat)

  datatype Request<K> = Request(token: Token, key: RequestKey<K>)

  datatype Completion<K, R> = Completion(request: Request<K>, result: R)

  datatype SubmitDisposition = Queued | Coalesced | DeferredStaleInFlight | Saturated | IdentifierExhausted | SubmitRetired

  datatype CompletionDisposition = Published | Discarded | Unexpected

  datatype State<K, R> = State(
    session: nat,
    generation: nat,
    nextSerial: nat,
    queued: seq<Request<K>>,
    inFlight: Option<Request<K>>,
    completed: seq<Completion<K, R>>,
    retired: bool)

  function Initial<K, R>(session: nat): State<K, R> {
    State(session, 0, 0, [], None, [], false)
  }

  function InFlight<K, R>(s: State<K, R>): seq<Request<K>> {
    if s.inFlight.Some? then [s.inFlight.value] else []
  }

  function Finished<K, R>(s: State<K, R>): (r: seq<Request<K>>)
    ensures |r| == |s.completed| && forall i | 0 <= i < |r| :: r[i] == s.completed[i].request
  {
    seq(|s.completed|, i requires 0 <= i < |s.completed| => s.completed[i].request)
  }

  function Waiting<K, R>(s: State<K, R>): seq<Request<K>> {
    InFlight(s) + s.queued
  }

  /** Every occupied slot, oldest work first. */
  function Occupied<K, R>(s: State<K, R>): seq<Request<K>> {
    Finished(s) + Waiting(s)
  }

  function PendingCount<K, R>(s: State<K, R>): (count: nat)
    ensures count == |Occupied(s)|
  {
    |s.queued| + |InFlight(s)| + |s.completed|
  }

  predicate HoldsKey<K(==)>(requests: seq<Request<K>>, key: RequestKey<K>) {
    exists i :: 0 <= i < |requests| && requests[i].key == key
  }

  function Submit<K(==), R>(s: State<K, R>, key: RequestKey<K>): (State<K, R>, SubmitDisposition) {
    if s.retired then (s, SubmitRetired)
    else if s.inFlight.Some? && s.inFlight.value.key == key then
      (s, if s.inFlight.value.token.generation == s.generation then Coalesced else DeferredStaleInFlight)
    else if HoldsKey(s.queued, key) || HoldsKey(Finished(s), key) then (s, Coalesced)
    else if PendingCount(s) == MAX_PENDING then (s, Saturated)
    else if s.nextSerial == MAX_U64 then (s, IdentifierExhausted)
    else
      var request := Request(Token(s.session, s.generation, s.nextSerial + 1), key);
      (s.(nextSerial := s.nextSerial + 1, queued := s.queued + [request]), Queued)
  }

  function TakeNext<K, R>(s: State<K, R>): (State<K, R>, Option<Request<K>>) {
    if s.retired || s.inFlight.Some? || s.queued == [] then (s, None)
    else (s.(queued := s.queued[1..], inFlight := Some(s.queued[0])), Some(s.queued[0]))
  }

  function Complete<K, R>(s: State<K, R>, token: Token, result: R): (State<K, R>, CompletionDisposition) {
    if s.inFlight.None? || s.inFlight.value.token != token then (s, Unexpected)
    else
      var idle := s.(inFlight := None);
      if s.retired || token.generation != s.generation then (idle, Discarded)
      else (idle.(completed := s.completed + [Completion(s.inFlight.value, result)]), Published)
  }

  function Acknowledge<K, R>(s: State<K, R>, count: nat): (State<K, R>, nat) {
    var acknowledged := Min(count, |s.completed|);
    (s.(completed := s.completed[acknowledged..]), acknowledged)
  }

  function Retire<K, R>(s: State<K, R>): State<K, R> {
    s.(retired := true, queued := [], completed := [])
  }

  function AdvanceGeneration<K, R>(s: State<K, R>): (State<K, R>, bool) {
    if s.retired then (s, false)
    else if s.generation == MAX_U64 then (Retire(s), false)
    else (s.(generation := s.generation + 1, queued := [], completed := []), true)
  }

  class IconRequests<K(==), R> {
    var session: nat
    var generation: nat
    var nextSerial: nat
    var queued: seq<Request<K>>
    var inFlight: Option<Request<K>>
    var completed: seq<Completion<K, R>>
    var retired: bool

    constructor (session: nat)
      ensures Value() == Initial(session)
    {
      this.session := session;
      generation, nextSerial, queued, inFlight, completed, retired := 0, 0, [], None, [], false;
    }

    function Value(): State<K, R>
      reads this
    {
      State(session, generation, nextSerial, queued, inFlight, completed, retired)
    }

    method SubmitKey(key: RequestKey<K>) returns (r: SubmitDisposition)
      modifies this
      ensures (Value(), r) == Submit(old(Value()), key)
    {
      if retired {
        return SubmitRetired;
      }
      if inFlight.Some? && inFlight.value.key == key {
        return if inFlight.value.token.generation == generation then Coalesced else DeferredStaleInFlight;
      }
      if HoldsKey(queued, key) || HoldsKey(Finished(Value()), key) {
        return Coalesced;
      }
      if PendingCount(Value()) == MAX_PENDING {
        return Saturated;
      }
      if nextSerial == MAX_U64 {
        return IdentifierExhausted;
      }
      nextSerial := nextSerial + 1;
      queued := queued + [Request(Token(session, generation, nextSerial), key)];
      return Queued;
    }

    /** Hands out the oldest waiting request, which is then the one in flight. */
    method Take() returns (r: Option<Request<K>>)
      modifies this
      ensures (Value(), r) == TakeNext(old(Value()))
      ensures r.Some? <==> !old(retired) && old(inFlight).None? && old(queued) != []
      ensures r.Some? ==> old(queued) == [r.value] + queued && inFlight == r
      ensures Value() == if r.Some? then old(Value()).(queued := queued, inFlight := inFlight) else old(Value())
    {
      if retired || inFlight.Some? || queued == [] {
        return None;
      }
      var request := queued[0];
      queued := queued[1..];
      inFlight := Some(request);
      return Some(request);
    }

    method CompleteCall(token: Token, result: R) returns (r: CompletionDisposition)
      modifies this
      ensures (Value(), r) == Complete(old(Value()), token, result)
      ensures r.Unexpected? <==> old(inFlight).None? || old(inFlight).value.token != token
      ensures r.Published? ==> completed == old(completed) + [Completion(old(inFlight).value, result)]
      ensures Value() == if r.Unexpected? then old(Value()) else old(Value()).(inFlight := None, completed := completed)
    {
      if inFlight.None? || inFlight.value.token != token {
        return Unexpected;
      }
      var request := inFlight.value;
      inFlight := None;
      if retired || request.token.generation != generation {
        return Discarded;
      }
      completed := completed + [Completion(request, result)];
      return Published;
    }

    method AcknowledgeCompletions(count: nat) returns (acknowledged: nat)
      modifies this
      ensures (Value(), acknowledged) == Acknowledge(old(Value()), count)
      ensures acknowledged == Min(count, |old(completed)|) && completed == old(completed)[acknowledged..]
      ensures Value() == old(Value()).(completed := completed)
    {
      acknowledged := Min(count, |completed|);
      for k := 0 to acknowledged
        invariant Value() == old(Value()).(completed := completed) && completed == old(completed)[k..]
      {
        completed := completed[1..];
      }
    }

    method RetireAll()
      modifies this
      ensures Value() == Retire(old(Value())) == old(Value()).(retired := true, queued := [], completed := [])
    {
      retired, queued, completed := true, [], [];
    }

    method Advance() returns (advanced: bool)
      modifies this
      ensures (Value(), advanced) == AdvanceGeneration(old(Value()))
      ensures advanced <==> !old(retired) && old(generation) != MAX_U64
      ensures advanced ==> Value() == old(Value()).(generation := old(generation) + 1, queued := [], completed := [])
      ensures !advanced ==> Value() == if old(retired) then old(Value())
                                       else old(Value()).(retired := true, queued := [], completed := [])
    {
      if retired {
        return false;
      }
      if generation == MAX_U64 {
        RetireAll();
        return false;
      }
      generation, queued, completed := generation + 1, [], [];
      return true;
    }
  }

  // ----- Runs -----

  datatype Event<K, R> =
    | DoSubmit(key: RequestKey<K>)
    | DoTake
    | DoComplete(token: Token, result: R)
    | DoAcknowledge(count: nat)
    | DoAdvance
    | DoRetire

  /** What became of the accepted requests so far. */
  datatype Log = Log(
    accepted: nat,
    acknowledged: nat,
    discarded: nat,
    invalidated: seq<Token>,
    published: seq<Token>)

  function TokensOf<K>(requests: seq<Request<K>>): (r: seq<Token>)
    ensures |r| == |requests| && forall i | 0 <= i < |r| :: r[i] == requests[i].token
  {
    seq(|requests|, i requires 0 <= i < |requests| => requests[i].token)
  }

  /** The tokens a generation change or retirement drops. */
  function Dropped<K, R>(s: State<K, R>): seq<Token> {
    TokensOf(Finished(s)) + TokensOf(s.queued)
  }

  function Step<K(==), R>(s: State<K, R>, log: Log, e: Event<K, R>): (State<K, R>, Log) {
    match e
    case DoSubmit(key) =>
      var (t, r) := Submit(s, key);
      (t, log.(accepted := log.accepted + if r.Queued? then 1 else 0))
    case DoTake => (TakeNext(s).0, log)
    case DoComplete(token, result) =>
      var (t, r) := Complete(s, token, result);
      (t, match r
          case Published => log.(published := log.published + [token])
          case Discarded => log.(discarded := log.discarded + 1)
          case Unexpected => log)
    case DoAcknowledge(count) =>
      var (t, n) := Acknowledge(s, count);
      (t, log.(acknowledged := log.acknowledged + n))
    case DoAdvance =>
      (AdvanceGeneration(s).0, if s.retired then log else log.(invalidated := log.invalidated + Dropped(s)))
    case DoRetire =>
      (Retire(s), log.(invalidated := log.invalidated + Dropped(s)))
  }

  function Run<K(==), R>(session: nat, events: seq<Event<K, R>>): (State<K, R>, Log) {
    if events == [] then (Initial(session), Log(0, 0, 0, [], []))
    else
      var (s, log) := Run(session, events[..|events| - 1]);
      Step(s, log, events[|events| - 1])
  }

  /** Requests waiting their turn: distinct keys, serials rising and issued in this session. */
  ghost predicate Orderly<K>(requests: seq<Request<K>>, session: nat, last: nat) {
    && (forall i, j | 0 <= i < j < |requests| :: requests[i].key != requests[j].key)
    && (forall i, j | 0 <= i < j < |requests| :: requests[i].token.serial < requests[j].token.serial)
    && (forall i | 0 <= i < |requests| :: requests[i].token.session == session && requests[i].token.serial <= last)
  }

  ghost predicate AllOf<K>(requests: seq<Request<K>>, generation: nat) {
    forall i | 0 <= i < |requests| :: requests[i].token.generation == generation
  }

  ghost predicate Inv<K, R>(s: State<K, R>) {
    && |Occupied(s)| <= MAX_PENDING && s.generation <= MAX_U64 && s.nextSerial <= MAX_U64
    && Orderly(Occupied(s), s.session, s.nextSerial)
    && AllOf(Finished(s), s.generation) && AllOf(s.queued, s.generation)
    && (s.inFlight.Some? ==> s.inFlight.value.token.generation <= s.generation)
    && (s.retired ==> s.queued == [] && s.completed == [])
  }

  /** Every accepted request is still held or has one recorded end. */
  ghost predicate Conserved<K, R>(s: State<K, R>, log: Log) {
    log.accepted == |Occupied(s)| + log.acknowledged + log.discarded + |log.invalidated|
  }

  /** No token was published twice, and what waits now comes after all that was published. */
  ghost predicate PublishedOnce<K>(published: seq<Token>, waiting: seq<Request<K>>, last: nat) {
    && (forall i, j | 0 <= i < j < |published| :: published[i].serial < published[j].serial)
    && (forall i | 0 <= i < |published| :: published[i].serial <= last)
    && (forall i, j | 0 <= i < |published| && 0 <= j < |waiting| :: published[i].serial < waiting[j].token.serial)
  }

  /** Nothing invalidated is held in any slot. */
  ghost predicate Gone<K>(invalidated: seq<Token>, held: seq<Request<K>>, last: nat) {
    && (forall i | 0 <= i < |invalidated| :: invalidated[i].serial <= last)
    && (forall i, j | 0 <= i < |invalidated| && 0 <= j < |held| :: held[j].token.serial != invalidated[i].serial)
  }

  ghost predicate Sound<K, R>(s: State<K, R>, log: Log) {
    && Inv(s)
    && Conserved(s, log)
    && PublishedOnce(log.published, Waiting(s), s.nextSerial)
    && Gone(log.invalidated, Occupied(s), s.nextSerial)
  }

  lemma CutKeepsOrder<K>(x: seq<Request<K>>, y: seq<Request<K>>, z: seq<Request<K>>, session: nat, last: nat)
    requires Orderly(x + (y + z), session, last)
    ensures Orderly(x + z, session, last)
  {
    var o, p := x + (y + z), x + z;
    assert forall i | 0 <= i < |p| :: p[i] == o[if i < |x| then i else i + |y|];
  }

  lemma CutKeepsGone<K>(tokens: seq<Token>, x: seq<Request<K>>, y: seq<Request<K>>, z: seq<Request<K>>, last: nat)
    requires Gone(tokens, x + (y + z), last)
    ensures Gone(tokens, x + z, last)
  {
    var o, p := x + (y + z), x + z;
    assert forall i | 0 <= i < |p| :: p[i] == o[if i < |x| then i else i + |y|];
  }

  lemma CutKeepsPublished<K>(tokens: seq<Token>, x: seq<Request<K>>, y: seq<Request<K>>, z: seq<Request<K>>, last: nat)
    requires PublishedOnce(tokens, x + (y + z), last)
    ensures PublishedOnce(tokens, x + z, last)
  {
    var o, p := x + (y + z), x + z;
    assert forall i | 0 <= i < |p| :: p[i] == o[if i < |x| then i else i + |y|];
  }

  lemma PublishNext<K>(tokens: seq<Token>, done: seq<Request<K>>, r: Request<K>, rest: seq<Request<K>>, session: nat, last: nat)
    requires PublishedOnce(tokens, [r] + rest, last) && Orderly(done + ([r] + rest), session, last)
    ensures PublishedOnce(tokens + [r.token], rest, last)
  {
    var o, p := done + ([r] + rest), [r] + rest;
    var longer := tokens + [r.token];
    assert o[|done|] == p[0] == r;
    forall i, j | 0 <= i < |longer| && 0 <= j < |rest| ensures longer[i].serial < rest[j].token.serial {
      assert rest[j] == o[|done| + 1 + j] && rest[j] == p[1 + j];
      if i < |tokens| {
        assert tokens[i].serial < p[1 + j].token.serial;
      }
    }
    forall i, j | 0 <= i < j < |longer| ensures longer[i].serial < longer[j].serial {
      if j == |tokens| {
        assert tokens[i].serial < p[0].token.serial;
      }
    }
  }

  lemma DropAround<K>(tokens: seq<Token>, x: seq<Request<K>>, y: seq<Request<K>>, z: seq<Request<K>>, session: nat, last: nat)
    requires Gone(tokens, x + (y + z), last) && Orderly(x + (y + z), session, last)
    ensures Gone(tokens + (TokensOf(x) + TokensOf(z)), y, last) && Orderly(y, session, last)
  {
    var o, dropped := x + (y + z), TokensOf(x) + TokensOf(z);
    assert forall j | 0 <= j < |y| :: y[j] == o[|x| + j];
    forall i | 0 <= i < |dropped|
      ensures dropped[i].serial <= last && forall j | 0 <= j < |y| :: y[j].token.serial != dropped[i].serial
    {
      var k := if i < |x| then i else i + |y|;
      assert dropped[i] == o[k].token;
    }
  }

  /** A key that was not refused for itself was in no slot, whatever its generation. */
  lemma UnheldKeyIsNew<K, R>(s: State<K, R>, key: RequestKey<K>)
    requires Submit(s, key).1.Queued? || Submit(s, key).1.Saturated? || Submit(s, key).1.IdentifierExhausted?
    ensures forall i | 0 <= i < |Occupied(s)| :: Occupied(s)[i].key != key
  {
    forall i | 0 <= i < |Occupied(s)| ensures Occupied(s)[i].key != key {
      if i < |s.completed| {
        assert Finished(s)[i].key != key;
      } else if i >= |s.completed| + |InFlight(s)| {
        assert s.queued[i - |s.completed| - |InFlight(s)|].key != key;
      }
    }
  }

  /** Some slot holds the key, for this generation or for an older one. */
  ghost predicate Held<K, R>(s: State<K, R>, key: RequestKey<K>, current: bool) {
    exists i: nat :: i < |Occupied(s)| && Occupied(s)[i].key == key
                     && (Occupied(s)[i].token.generation == s.generation) == current
  }

  lemma HeldIn<K, R>(s: State<K, R>, i: nat)
    requires i < |Occupied(s)|
    ensures Held(s, Occupied(s)[i].key, Occupied(s)[i].token.generation == s.generation)
  {
  }

  lemma HeldOnce<K, R>(s: State<K, R>, key: RequestKey<K>)
    requires Inv(s)
    ensures !(Held(s, key, true) && Held(s, key, false))
  {
  }

  lemma RefusedKeyIsHeld<K, R>(s: State<K, R>, key: RequestKey<K>)
    requires Inv(s)
    ensures Submit(s, key).1.DeferredStaleInFlight? ==> Held(s, key, false)
    ensures Submit(s, key).1.Coalesced? ==> Held(s, key, true)
  {
    hide Orderly, Held;
    if s.inFlight.Some? && s.inFlight.value.key == key {
      assert Occupied(s)[|s.completed|] == s.inFlight.value;
      HeldIn(s, |s.completed|);
    } else if Submit(s, key).1.Coalesced? {
      if HoldsKey(Finished(s), key) {
        var i :| 0 <= i < |Finished(s)| && Finished(s)[i].key == key;
        assert Occupied(s)[i] == Finished(s)[i];
        HeldIn(s, i);
      } else {
        var i :| 0 <= i < |s.queued| && s.queued[i].key == key;
        assert Occupied(s)[|s.completed| + |InFlight(s)| + i] == s.queued[i];
        HeldIn(s, |s.completed| + |InFlight(s)| + i);
      }
    }
  }

  /** What an answer to a submission tells the caller, and that only an accepted
      submission changes anything. */
  lemma SubmissionMeaning<K, R>(s: State<K, R>, key: RequestKey<K>)
    requires Inv(s)
    ensures var r := Submit(s, key).1;
      && (r.SubmitRetired? <==> s.retired)
      && (r.Coalesced? <==> !s.retired && Held(s, key, true))
      && (r.DeferredStaleInFlight? <==> !s.retired && Held(s, key, false))
      && (r.Saturated? <==> !s.retired && !Held(s, key, true) && !Held(s, key, false) && |Occupied(s)| == 64)
      && (r.IdentifierExhausted? <==>
            !s.retired && !Held(s, key, true) && !Held(s, key, false) && |Occupied(s)| < 64 && s.nextSerial == MAX_U64)
    ensures Submit(s, key).0 == if !Submit(s, key).1.Queued? then s else
              s.(nextSerial := s.nextSerial + 1,
                 queued := s.queued + [Request(Token(s.session, s.generation, s.nextSerial + 1), key)])
  {
    hide HoldsKey, Orderly, AllOf, Occupied;
    RefusedKeyIsHeld(s, key);
    HeldOnce(s, key);
    var r := Submit(s, key).1;
    if r.Queued? || r.Saturated? || r.IdentifierExhausted? {
      UnheldKeyIsNew(s, key);
    }
  }

  lemma AppendKeeps<K>(published: seq<Token>, invalidated: seq<Token>, waiting: seq<Request<K>>, held: seq<Request<K>>,
                       r: Request<K>, session: nat, last: nat)
    requires Orderly(held, session, last) && PublishedOnce(published, waiting, last) && Gone(invalidated, held, last)
    requires r.token.session == session && r.token.serial == last + 1
    requires forall i | 0 <= i < |held| :: held[i].key != r.key
    ensures Orderly(held + [r], session, last + 1)
    ensures PublishedOnce(published, waiting + [r], last + 1) && Gone(invalidated, held + [r], last + 1)
  {
  }

  lemma SubmitKeeps<K, R>(s: State<K, R>, log: Log, key: RequestKey<K>)
    requires Sound(s, log)
    ensures var (t, l) := Step(s, log, DoSubmit(key)); Sound(t, l)
  {
    hide HoldsKey, Orderly, PublishedOnce, Gone;
    var (t, r) := Submit(s, key);
    if r.Queued? {
      UnheldKeyIsNew(s, key);
      var added := t.queued[|s.queued|];
      assert Finished(t) == Finished(s);
      assert Waiting(t) == Waiting(s) + [added];
      assert Occupied(t) == Occupied(s) + [added];
      AppendKeeps(log.published, log.invalidated, Waiting(s), Occupied(s), added, s.session, s.nextSerial);
    }
  }

  lemma TailAllOf<K>(requests: seq<Request<K>>, generation: nat)
    requires requests != [] && AllOf(requests, generation)
    ensures requests[0].token.generation == generation && AllOf(requests[1..], generation)
  {
  }

  lemma TakeMoves<K, R>(s: State<K, R>)
    requires !s.retired && s.inFlight.None? && s.queued != []
    ensures var t := TakeNext(s).0; Finished(t) == Finished(s) && Waiting(t) == Waiting(s) && Occupied(t) == Occupied(s)
  {
    var t := TakeNext(s).0;
    assert Waiting(t) == s.queued == Waiting(s);
    assert Finished(t) == Finished(s);
  }

  lemma TakeKeeps<K, R>(s: State<K, R>, log: Log)
    requires Sound(s, log)
    ensures Sound(TakeNext(s).0, log)
  {
    hide Orderly, PublishedOnce, Gone, AllOf, Finished, InFlight, Waiting, Occupied;
    if !s.retired && s.inFlight.None? && s.queued != [] {
      TakeMoves(s);
      TailAllOf(s.queued, s.generation);
    }
  }

  lemma PublishKeeps<K, R>(s: State<K, R>, log: Log, token: Token, result: R)
    requires Sound(s, log) && Complete(s, token, result).1.Published?
    ensures var (t, l) := Step(s, log, DoComplete(token, result)); Sound(t, l)
  {
    hide Orderly, PublishedOnce, Gone;
    var t := Complete(s, token, result).0;
    assert Finished(t) == Finished(s) + InFlight(s);
    assert Occupied(t) == Occupied(s);
    assert Waiting(t) == s.queued && Waiting(s) == [s.inFlight.value] + s.queued;
    PublishNext(log.published, Finished(s), s.inFlight.value, s.queued, s.session, s.nextSerial);
  }

  lemma DiscardKeeps<K, R>(s: State<K, R>, log: Log, token: Token, result: R)
    requires Sound(s, log) && Complete(s, token, result).1.Discarded?
    ensures var (t, l) := Step(s, log, DoComplete(token, result)); Sound(t, l)
  {
    hide Orderly, PublishedOnce, Gone;
    var t := Complete(s, token, result).0;
    assert Finished(t) == Finished(s);
    assert Occupied(t) == Finished(s) + s.queued;
    assert Waiting(t) == [] + s.queued && Waiting(s) == [] + (InFlight(s) + s.queued);
    CutKeepsOrder(Finished(s), InFlight(s), s.queued, s.session, s.nextSerial);
    CutKeepsGone(log.invalidated, Finished(s), InFlight(s), s.queued, s.nextSerial);
    CutKeepsPublished(log.published, [], InFlight(s), s.queued, s.nextSerial);
  }

  lemma AcknowledgeKeeps<K, R>(s: State<K, R>, log: Log, count: nat)
    requires Sound(s, log)
    ensures var (t, l) := Step(s, log, DoAcknowledge(count)); Sound(t, l)
  {
    hide Orderly, PublishedOnce, Gone;
    var (t, n) := Acknowledge(s, count);
    var gone, rest := Finished(s)[..n], Occupied(t);
    assert Finished(t) == Finished(s)[n..];
    assert Waiting(t) == Waiting(s);
    assert Occupied(s) == gone + rest;
    assert gone + rest == [] + (gone + rest) && rest == [] + rest;
    CutKeepsOrder([], gone, rest, s.session, s.nextSerial);
    CutKeepsGone(log.invalidated, [], gone, rest, s.nextSerial);
  }

  lemma ClearKeeps<K, R>(s: State<K, R>, t: State<K, R>, log: Log)
    requires Sound(s, log)
    requires t.queued == [] && t.completed == [] && t.inFlight == s.inFlight
    requires t.session == s.session && t.nextSerial == s.nextSerial && s.generation <= t.generation <= MAX_U64
    ensures Sound(t, log.(invalidated := log.invalidated + Dropped(s)))
  {
    hide Orderly, PublishedOnce, Gone;
    assert Finished(t) == [] && Occupied(t) == InFlight(s);
    assert Waiting(t) == InFlight(s) + [] && Waiting(s) == InFlight(s) + (s.queued + []);
    DropAround(log.invalidated, Finished(s), InFlight(s), s.queued, s.session, s.nextSerial);
    CutKeepsPublished(log.published, InFlight(s), s.queued, [], s.nextSerial);
  }

  lemma StepKeeps<K, R>(s: State<K, R>, log: Log, e: Event<K, R>)
    requires Sound(s, log)
    ensures var (t, l) := Step(s, log, e); Sound(t, l)
  {
    match e
    case DoSubmit(key) => SubmitKeeps(s, log, key);
    case DoTake => TakeKeeps(s, log);
    case DoComplete(token, result) =>
      if Complete(s, token, result).1.Published? {
        PublishKeeps(s, log, token, result);
      } else if Complete(s, token, result).1.Discarded? {
        DiscardKeeps(s, log, token, result);
      }
    case DoAcknowledge(count) => AcknowledgeKeeps(s, log, count);
    case DoAdvance =>
      if !s.retired {
        ClearKeeps(s, AdvanceGeneration(s).0, log);
      }
    case DoRetire => ClearKeeps(s, Retire(s), log);
  }

  /** Every run keeps the 64-slot bound, distinct keys, the serial order, the generations,
      conservation, and single publication. */
  lemma {:induction false} RunKeeps<K, R>(session: nat, events: seq<Event<K, R>>)
    ensures var (s, log) := Run(session, events); Sound(s, log) && |Occupied(s)| <= 64
  {
    if events != [] {
      var before := events[..|events| - 1];
      RunKeeps(session, before);
      StepKeeps(Run(session, before).0, Run(session, before).1, events[|events| - 1]);
    }
  }

  /** After any run a published result is current, not yet published and never invalidated. */
  lemma PublicationIsFresh<K, R>(session: nat, events: seq<Event<K, R>>, token: Token, result: R)
    requires Complete(Run(session, events).0, token, result).1.Published?
    ensures var (s, log) := Run(session, events);
      && !s.retired && token.session == s.session && token.generation == s.generation
      && token !in log.published && token !in log.invalidated
  {
    RunKeeps(session, events);
    var s := Run(session, events).0;
    assert Waiting(s)[0] == s.inFlight.value == Occupied(s)[|s.completed|];
  }

  /** Retirement is permanent: nothing is queued, completed, accepted or published again. */
  lemma {:induction false} RetirementIsForever<K, R>(session: nat, events: seq<Event<K, R>>, later: seq<Event<K, R>>)
    requires Run(session, events).0.retired
    ensures var (s, log) := Run(session, events + later);
      && s.retired && s.queued == [] && s.completed == []
      && log.accepted == Run(session, events).1.accepted
      && log.published == Run(session, events).1.published
  {
    if later == [] {
      assert events + later == events;
      RunKeeps(session, events);
    } else {
      var init := later[..|later| - 1];
      RetirementIsForever(session, events, init);
      assert (events + later)[..|events + later| - 1] == events + init;
    }
  }

  // ----- Every request has its turn -----

  /** The state after more events. */
  function After<K(==), R>(s: State<K, R>, events: seq<Event<K, R>>): State<K, R> {
    if events == [] then s else Next(After(s, events[..|events| - 1]), events[|events| - 1])
  }

  function Next<K(==), R>(s: State<K, R>, e: Event<K, R>): State<K, R> {
    Step(s, Log(0, 0, 0, [], []), e).0
  }

  lemma {:induction false} RunGoesOn<K, R>(session: nat, events: seq<Event<K, R>>, later: seq<Event<K, R>>)
    ensures Run(session, events + later).0 == After(Run(session, events).0, later)
  {
    if later == [] {
      assert events + later == events;
    } else {
      var init := later[..|later| - 1];
      RunGoesOn(session, events, init);
      assert (events + later)[..|events + later| - 1] == events + init;
    }
  }

  /** What the takes among the events handed out, in order. */
  function Handed<K(==), R>(s: State<K, R>, events: seq<Event<K, R>>): seq<Request<K>> {
    if events == [] then []
    else
      var init := events[..|events| - 1];
      Handed(s, init) + HandedBy(After(s, init), events[|events| - 1])
  }

  function HandedBy<K(==), R>(s: State<K, R>, e: Event<K, R>): seq<Request<K>> {
    if e.DoTake? && TakeNext(s).1.Some? then [TakeNext(s).1.value] else []
  }

  /** The requests the submissions among the events added, in order of acceptance. */
  function Added<K(==), R>(s: State<K, R>, events: seq<Event<K, R>>): seq<Request<K>> {
    if events == [] then []
    else
      var init := events[..|events| - 1];
      Added(s, init) + AddedBy(After(s, init), events[|events| - 1])
  }

  function AddedBy<K(==), R>(s: State<K, R>, e: Event<K, R>): seq<Request<K>> {
    if e.DoSubmit? && Submit(s, e.key).1.Queued? then [Request(Token(s.session, s.generation, s.nextSerial + 1), e.key)]
    else []
  }

  /** No generation change and no retirement. */
  ghost predicate Steady<K, R>(events: seq<Event<K, R>>) {
    forall i | 0 <= i < |events| :: !events[i].DoAdvance? && !events[i].DoRetire?
  }

  lemma Regrouped<T>(x: seq<T>, y: seq<T>, z: seq<T>)
    ensures x + y + z == x + (y + z)
  {
  }

  lemma QueueStep<K, R>(s: State<K, R>, e: Event<K, R>)
    requires !s.retired && !e.DoAdvance? && !e.DoRetire?
    ensures !Next(s, e).retired && Next(s, e).generation == s.generation
    ensures HandedBy(s, e) + Next(s, e).queued == s.queued + AddedBy(s, e)
    ensures e.DoTake? && s.inFlight.None? && s.queued != [] ==> |HandedBy(s, e)| == 1
  {
    hide HoldsKey, PendingCount, Finished;
    match e
    case DoSubmit(key) =>
    case DoTake =>
      if s.inFlight.None? && s.queued != [] {
        assert s.queued == [s.queued[0]] + s.queued[1..];
      }
    case DoComplete(token, result) =>
    case DoAcknowledge(count) =>
  }

  /** Requests are handed out in order of acceptance, none is lost and none comes twice:
      what was handed out and what still waits is what waited before and what was added. */
  lemma {:induction false} FirstInFirstOut<K, R>(s: State<K, R>, events: seq<Event<K, R>>)
    requires !s.retired && Steady(events)
    ensures var t := After(s, events); !t.retired && t.generation == s.generation
    ensures Handed(s, events) + After(s, events).queued == s.queued + Added(s, events)
  {
    if events != [] {
      hide Next, HandedBy, AddedBy;
      var (init, last) := (events[..|events| - 1], events[|events| - 1]);
      FirstInFirstOut(s, init);
      var now := After(s, init);
      QueueStep(now, last);
      Regrouped(Handed(s, init), HandedBy(now, last), Next(now, last).queued);
      Regrouped(Handed(s, init), now.queued, AddedBy(now, last));
      Regrouped(s.queued, Added(s, init), AddedBy(now, last));
    }
  }

  function Takes<K, R>(events: seq<Event<K, R>>): nat {
    if events == [] then 0 else Takes(events[..|events| - 1]) + if events[|events| - 1].DoTake? then 1 else 0
  }

  /** Whenever the worker takes, its call before has been completed. */
  ghost predicate IdleAtTakes<K, R>(s: State<K, R>, events: seq<Event<K, R>>) {
    forall i | 0 <= i < |events| && events[i].DoTake? :: After(s, events[..i]).inFlight.None?
  }

  lemma {:induction false} TakesHandOut<K, R>(s: State<K, R>, events: seq<Event<K, R>>)
    requires !s.retired && Steady(events) && IdleAtTakes(s, events)
    ensures |Handed(s, events)| >= Min(Takes(events), |s.queued|)
  {
    hide Next, HandedBy, AddedBy;
    if events != [] {
      var init := events[..|events| - 1];
      assert forall i | 0 <= i < |init| :: init[..i] == events[..i];
      TakesHandOut(s, init);
      FirstInFirstOut(s, init);
      QueueStep(After(s, init), events[|events| - 1]);
      assert |Handed(s, init)| + |After(s, init).queued| == |s.queued| + |Added(s, init)|;
    }
  }

  /** In a machine that keeps its generation, a request with `n` others waiting before it
      is handed out by the take after `n` more, when each call before has been completed. */
  lemma RequestHasItsTurn<K, R>(session: nat, events: seq<Event<K, R>>, later: seq<Event<K, R>>, n: nat)
    requires var s := Run(session, events).0;
      !s.retired && n < |s.queued| && Steady(later) && IdleAtTakes(s, later) && Takes(later) > n
    ensures var s := Run(session, events).0;
      && |Handed(s, later)| > n && Handed(s, later)[n] == s.queued[n]
      && !Run(session, events + later).0.retired
  {
    var s := Run(session, events).0;
    RunGoesOn(session, events, later);
    FirstInFirstOut(s, later);
    TakesHandOut(s, later);
    assert Handed(s, later)[n] == (Handed(s, later) + After(s, later).queued)[n] == (s.queued + Added(s, later))[n];
  }

  /** An acknowledgement drops the oldest completions, as many as it counts and there are. */
  lemma AcknowledgementMeaning<K, R>(s: State<K, R>, count: nat)
    ensures var (t, n) := Acknowledge(s, count);
      && n <= count && n <= |s.completed| && (n == count || n == |s.completed|)
      && t == s.(completed := s.completed[n..])
  {
  }

  /** Completing a call with its own token frees the worker, whatever the answer; nothing
      else is a completion. */
  lemma CompletionMeaning<K, R>(s: State<K, R>, token: Token, result: R)
    ensures var (t, r) := Complete(s, token, result);
      if s.inFlight == None || s.inFlight.value.token != token then r.Unexpected? && t == s
      else if !s.retired && token.generation == s.generation then
        r.Published? && t == s.(inFlight := None, completed := s.completed + [Completion(s.inFlight.value, result)])
      else r.Discarded? && t == s.(inFlight := None)
  {
  }
}
