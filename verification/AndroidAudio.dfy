/** The Android audio session: admission, focus, communication route, and route generations. */
module AndroidAudio {
  import opened Common

  datatype RouteClass = Handset | Wired | ClassicBluetooth | LeAudio | Usb | OtherRoute

  datatype RouteEvidence = InitialQuery | DeviceCallback | CommunicationCallback

  datatype RoutingContract = CommunicationMode | CommunicationDevice

  datatype PcmContract = PcmContract(sampleRateHz: u32, channels: byte, framesPerChunk: u16, queueCapacityChunks: u16)

  datatype SessionSpec = SessionSpec(
    turnContentId: string, apiLevel: u16, admitted: bool, privateOutput: bool, pcm: PcmContract,
    armedAtMs: u64, expiresAtMs: u64)

  datatype RouteObservation = RouteObservation(
    capture: seq<RouteClass>, render: seq<RouteClass>, generation: u64, observedAtMs: u64, evidence: RouteEvidence)

  datatype Receipt = Receipt(
    turnContentId: string, route: RouteObservation, duplex: bool, isFresh: bool, contract: RoutingContract,
    focusHeld: bool, communicationRouteHeld: bool, privateOutputPaused: bool, pcm: PcmContract)

  datatype Input = Arm(spec: SessionSpec) | Route(observation: RouteObservation) | Stop | Tick(nowMs: u64)

  datatype AudioError = UnsupportedApi | BadPcm | NotAdmitted | BadIdentityOrExpiry | StaleGeneration

  datatype State = State(
    session: Option<SessionSpec>, route: Option<RouteObservation>, focusHeld: bool, communicationRouteHeld: bool)

  const INITIAL := State(None, None, false, false)

  const FRESH_MS: nat := 2000

  function ContractFor(apiLevel: u16): Option<RoutingContract> {
    if 28 <= apiLevel <= 30 then Some(CommunicationMode)
    else if 31 <= apiLevel <= 35 then Some(CommunicationDevice)
    else None
  }

  predicate ValidPcm(pcm: PcmContract) {
    8_000 <= pcm.sampleRateHz <= 192_000 && 1 <= pcm.channels <= 8
    && 1 <= pcm.framesPerChunk <= 4096 && 1 <= pcm.queueCapacityChunks <= 256
  }

  predicate IsHexDigit(c: char): (r: bool)
    ensures r <==> c in "0123456789abcdefABCDEF"
  {
    var digits := "0123456789abcdefABCDEF";
    assert '0' <= c <= '9' ==> digits[c as int - '0' as int] == c;
    assert 'a' <= c <= 'f' ==> digits[10 + c as int - 'a' as int] == c;
    assert 'A' <= c <= 'F' ==> digits[16 + c as int - 'A' as int] == c;
    '0' <= c <= '9' || 'a' <= c <= 'f' || 'A' <= c <= 'F'
  }

  /** Sixty-four hexadecimal digits, in either case. */
  predicate IsContentId(id: string): (r: bool)
    ensures r <==> |id| == 64 && forall c | c in id :: c in "0123456789abcdefABCDEF"
  {
    |id| == 64 && forall k | 0 <= k < |id| :: IsHexDigit(id[k])
  }

  // ---------- Route classes in canonical order ----------

  function Rank(c: RouteClass): nat {
    match c
    case Handset => 0
    case Wired => 1
    case ClassicBluetooth => 2
    case LeAudio => 3
    case Usb => 4
    case OtherRoute => 5
  }

  const ALL_CLASSES: seq<RouteClass> := [Handset, Wired, ClassicBluetooth, LeAudio, Usb, OtherRoute]

  /** Sorted and without repetitions. */
  predicate Canonical(classes: seq<RouteClass>) {
    forall i, j | 0 <= i < j < |classes| :: Rank(classes[i]) < Rank(classes[j])
  }

  function Keep(classes: seq<RouteClass>, order: seq<RouteClass>): (kept: seq<RouteClass>)
    ensures forall c :: c in kept <==> c in order && c in classes
  {
    if order == [] then []
    else
      var rest := Keep(classes, order[1..]);
      if order[0] in classes then [order[0]] + rest else rest
  }

  lemma {:induction false} KeepIsCanonical(classes: seq<RouteClass>, order: seq<RouteClass>)
    requires Canonical(order)
    ensures Canonical(Keep(classes, order))
  {
    if order != [] {
      KeepIsCanonical(classes, order[1..]);
      var rest := Keep(classes, order[1..]);
      forall j | 0 <= j < |rest| ensures Rank(order[0]) < Rank(rest[j]) {
        assert rest[j] in order[1..];
      }
    }
  }

  lemma EveryClassListed()
    ensures Canonical(ALL_CLASSES) && forall c: RouteClass :: c in ALL_CLASSES
  {
    forall c: RouteClass ensures c in ALL_CLASSES {
      assert ALL_CLASSES[Rank(c)] == c;
    }
  }

  function Normalize(classes: seq<RouteClass>): (r: seq<RouteClass>)
    ensures Canonical(r)
    ensures forall c :: c in r <==> c in classes
  {
    EveryClassListed();
    KeepIsCanonical(classes, ALL_CLASSES);
    Keep(classes, ALL_CLASSES)
  }

  /** Sorting and removing repetitions can only give this one answer. */
  lemma {:induction false} CanonicalIsUnique(a: seq<RouteClass>, b: seq<RouteClass>)
    requires Canonical(a) && Canonical(b) && forall c :: c in a <==> c in b
    ensures a == b
  {
    assert a != [] ==> a[0] in b;
    assert b != [] ==> b[0] in a;
    if a != [] {
      assert a[0] == b[0];
      forall c ensures c in a[1..] <==> c in b[1..] {
        assert c in a[1..] <==> c in a && c != a[0];
        assert c in b[1..] <==> c in b && c != b[0];
      }
      CanonicalIsUnique(a[1..], b[1..]);
    }
  }

  // ---------- The machine ----------

  function Released(s: State): State {
    s.(session := None, focusHeld := false, communicationRouteHeld := false)
  }

  predicate Shared(route: RouteObservation) {
    exists k :: 0 <= k < |route.capture| && route.capture[k] in route.render
  }

  /** The receipt at a given time, or why there is none. */
  function ReceiptAt(s: State, nowMs: u64): Result<Option<Receipt>, AudioError> {
    if s.session.None? then Ok(None)
    else
      var session := s.session.value;
      var contract := ContractFor(session.apiLevel);
      if contract.None? then Err(UnsupportedApi)
      else
        var route := if s.route.Some? then s.route.value else RouteObservation([], [], 0, 0, InitialQuery);
        var age := if nowMs >= route.observedAtMs then nowMs - route.observedAtMs else 0;
        var isFresh := route.generation > 0 && age <= FRESH_MS;
        var duplex := Shared(route);
        var uncertain := !isFresh || route.render == [] || (session.privateOutput && !duplex);
        Ok(Some(Receipt(session.turnContentId, route, duplex, isFresh, contract.value, s.focusHeld,
                        s.communicationRouteHeld, session.privateOutput && uncertain, session.pcm)))
  }

  function ReceiptNow(s: State): Result<Option<Receipt>, AudioError> {
    ReceiptAt(s, if s.route.Some? then s.route.value.observedAtMs else 0)
  }

  predicate ValidSpec(spec: SessionSpec) {
    ContractFor(spec.apiLevel).Some? && ValidPcm(spec.pcm) && spec.admitted && IsContentId(spec.turnContentId)
    && spec.armedAtMs < spec.expiresAtMs
  }

  function ArmError(spec: SessionSpec): AudioError {
    if ContractFor(spec.apiLevel).None? then UnsupportedApi
    else if !ValidPcm(spec.pcm) then BadPcm
    else if !spec.admitted then NotAdmitted
    else BadIdentityOrExpiry
  }

  function Dispatch(s: State, input: Input): (State, Result<Option<Receipt>, AudioError>) {
    match input
    case Arm(spec) =>
      if !ValidSpec(spec) then (s, Err(ArmError(spec)))
      else
        var armed := s.(session := Some(spec), focusHeld := true, communicationRouteHeld := true);
        (armed, ReceiptNow(armed))
    case Route(observed) =>
      var observation := observed.(capture := Normalize(observed.capture), render := Normalize(observed.render));
      if s.route.Some? && observation.generation <= s.route.value.generation then (s, Err(StaleGeneration))
      else
        var routed := s.(route := Some(observation));
        var lost := observation.capture == [] && observation.render == [];
        var receipt := ReceiptNow(routed);
        if receipt.Err? || !lost then (routed, receipt)
        else
          (Released(routed),
           match receipt.value
           case None => Ok(None)
           case Some(r) =>
             Ok(Some(r.(focusHeld := false, communicationRouteHeld := false, privateOutputPaused := true))))
    case Stop => (Released(s), Ok(None))
    case Tick(nowMs) =>
      if s.session.Some? && nowMs >= s.session.value.expiresAtMs then (Released(s), Ok(None))
      else (s, ReceiptAt(s, nowMs))
  }

  // ---------- Properties of every run ----------

  /** A session exists exactly while focus and the communication route are held, and it was admitted. */
  predicate Consistent(s: State) {
    && (s.session.Some? <==> s.focusHeld)
    && (s.session.Some? <==> s.communicationRouteHeld)
    && (s.session.Some? ==> ValidSpec(s.session.value))
    && (s.route.Some? ==> Canonical(s.route.value.capture) && Canonical(s.route.value.render))
  }

  lemma DispatchIsConsistent(s: State, input: Input)
    requires Consistent(s)
    ensures Consistent(Dispatch(s, input).0)
    ensures Dispatch(s, input).1.Err? ==> Dispatch(s, input).0 == s
  {
  }

  /** A receipt never claims focus or a route that the state no longer holds. */
  lemma ReceiptsTellTheTruth(s: State, input: Input)
    requires Consistent(s) && Dispatch(s, input).1.Ok? && Dispatch(s, input).1.value.Some?
    ensures var (after, reply) := Dispatch(s, input);
            reply.value.value.focusHeld == after.focusHeld
            && reply.value.value.communicationRouteHeld == after.communicationRouteHeld
  {
  }

  /** Private output plays only on a fresh route that renders to a class it also captures from. */
  lemma PrivateOutputNeedsCertainRoute(s: State, input: Input)
    requires Consistent(s) && Dispatch(s, input).1.Ok? && Dispatch(s, input).1.value.Some?
    requires Dispatch(s, input).0.session.Some? && Dispatch(s, input).0.session.value.privateOutput
    requires !Dispatch(s, input).1.value.value.privateOutputPaused
    ensures var (after, reply) := Dispatch(s, input);
            && after.route.Some? && reply.value.value.isFresh
            && exists c :: c in after.route.value.capture && c in after.route.value.render
  {
    var route := Dispatch(s, input).0.route.value;
    var k :| 0 <= k < |route.capture| && route.capture[k] in route.render;
    assert route.capture[k] in route.capture;
  }

  /** An audio input, or a release forced from outside the session. */
  datatype Event = Request(input: Input) | Release

  /** A state with the generations accepted so far. */
  datatype Trace = Trace(s: State, generations: seq<u64>)

  function Next(t: Trace, e: Event): Trace {
    match e
    case Release => t.(s := Released(t.s))
    case Request(input) =>
      var (s, reply) := Dispatch(t.s, input);
      Trace(s, t.generations + if input.Route? && reply.Ok? then [input.observation.generation] else [])
  }

  predicate GenerationsIncrease(t: Trace) {
    && Consistent(t.s)
    && (forall i, j | 0 <= i < j < |t.generations| :: t.generations[i] < t.generations[j])
    && (if t.generations == [] then t.s.route.None?
        else t.s.route.Some? && t.s.route.value.generation == t.generations[|t.generations| - 1])
  }

  /** Accepted generations strictly increase even across sessions, because releasing keeps the last route. */
  lemma NextIncreases(t: Trace, e: Event)
    requires GenerationsIncrease(t)
    ensures GenerationsIncrease(Next(t, e))
  {
    if e.Request? {
      DispatchIsConsistent(t.s, e.input);
    }
  }

  function Run(events: seq<Event>): Trace {
    if events == [] then Trace(INITIAL, []) else Next(Run(events[..|events| - 1]), events[|events| - 1])
  }

  lemma {:induction false} EveryRunIncreases(events: seq<Event>)
    ensures GenerationsIncrease(Run(events))
  {
    if events != [] {
      EveryRunIncreases(events[..|events| - 1]);
      NextIncreases(Run(events[..|events| - 1]), events[|events| - 1]);
    }
  }

  // ---------- What a run of events amounts to ----------

  /** A session that may be armed: a supported API level, a bounded PCM contract, admission, identity and an expiry. */
  predicate Armable(spec: SessionSpec) {
    && 28 <= spec.apiLevel <= 35 && IsBoundedPcm(spec.pcm) && spec.admitted && IsContentId(spec.turnContentId)
    && spec.armedAtMs < spec.expiresAtMs
  }

  predicate IsBoundedPcm(pcm: PcmContract) {
    8000 <= pcm.sampleRateHz <= 192000 && 1 <= pcm.channels <= 8 && 1 <= pcm.framesPerChunk <= 4096
    && 1 <= pcm.queueCapacityChunks <= 256
  }

  /** The route last accepted, as it was observed: each has a later generation than the one before. */
  function RouteOf(events: seq<Event>): Option<RouteObservation> {
    if events == [] then None
    else
      var before := RouteOf(events[..|events| - 1]);
      match events[|events| - 1]
      case Request(Route(observed)) =>
        if before == None || before.value.generation < observed.generation then Some(observed) else before
      case _ => before
  }

  /** The session last armed, unless it was stopped, released, has expired, or has lost every route since. */
  function SessionOf(events: seq<Event>): Option<SessionSpec> {
    if events == [] then None
    else
      var front := events[..|events| - 1];
      match events[|events| - 1]
      case Release => None
      case Request(Stop) => None
      case Request(Arm(spec)) => if Armable(spec) then Some(spec) else SessionOf(front)
      case Request(Tick(nowMs)) =>
        if SessionOf(front) != None && nowMs >= SessionOf(front).value.expiresAtMs then None else SessionOf(front)
      case Request(Route(observed)) =>
        if RouteOf(events) != RouteOf(front) && observed.capture == [] && observed.render == [] then None
        else SessionOf(front)
  }

  /** The state holds the route as observed, with each side in canonical order. */
  predicate IsRoute(held: Option<RouteObservation>, observed: Option<RouteObservation>) {
    if observed.None? then held.None?
    else held == Some(observed.value.(capture := Normalize(observed.value.capture),
                                      render := Normalize(observed.value.render)))
  }

  predicate Follows(s: State, events: seq<Event>) {
    && s.session == SessionOf(events) && IsRoute(s.route, RouteOf(events))
    && s.focusHeld == (SessionOf(events) != None) && s.communicationRouteHeld == (SessionOf(events) != None)
  }

  lemma NothingIsNormal(classes: seq<RouteClass>)
    ensures Normalize(classes) == [] <==> classes == []
  {
    assert classes != [] ==> classes[0] in Normalize(classes);
    assert Normalize(classes) != [] ==> Normalize(classes)[0] in classes;
  }

  lemma RouteFollows(s: State, events: seq<Event>, observed: RouteObservation)
    requires Follows(s, events) && Consistent(s)
    ensures Follows(Dispatch(s, Route(observed)).0, events + [Request(Route(observed))])
  {
    assert (events + [Request(Route(observed))])[..|events|] == events;
    NothingIsNormal(observed.capture);
    NothingIsNormal(observed.render);
  }

  lemma InputFollows(s: State, events: seq<Event>, input: Input)
    requires Follows(s, events) && Consistent(s) && !input.Route?
    ensures Follows(Dispatch(s, input).0, events + [Request(input)])
  {
    assert (events + [Request(input)])[..|events|] == events;
  }

  lemma {:induction false} RunFollowsEvents(events: seq<Event>)
    ensures Follows(Run(events).s, events)
  {
    if events != [] {
      var front, e := events[..|events| - 1], events[|events| - 1];
      RunFollowsEvents(front);
      EveryRunIncreases(front);
      assert events == front + [e];
      if e.Request? {
        if e.input.Route? {
          RouteFollows(Run(front).s, front, e.input.observation);
        } else {
          InputFollows(Run(front).s, front, e.input);
        }
      }
    }
  }

  /** What a receipt says of a session and of the route last observed, `nowMs` being the time of the receipt. */
  predicate Tells(r: Receipt, session: SessionSpec, route: Option<RouteObservation>, nowMs: u64, held: bool) {
    && r.turnContentId == session.turnContentId && r.pcm == session.pcm
    && r.contract == (if session.apiLevel <= 30 then CommunicationMode else CommunicationDevice)
    && r.focusHeld == held && r.communicationRouteHeld == held
    && (r.duplex <==> route != None && SharesClass(route.value))
    && (r.isFresh <==> route != None && route.value.generation > 0 && nowMs <= route.value.observedAtMs + 2000)
    && (r.privateOutputPaused
        <==> !held || (session.privateOutput && (!r.isFresh || !r.duplex || route.value.render == [])))
    && (route == None ==> r.route == RouteObservation([], [], 0, 0, InitialQuery))
    && (route != None ==>
          && r.route.generation == route.value.generation && r.route.observedAtMs == route.value.observedAtMs
          && r.route.evidence == route.value.evidence
          && (forall c :: c in r.route.capture <==> c in route.value.capture)
          && (forall c :: c in r.route.render <==> c in route.value.render))
  }

  /** Some class is captured from and rendered to. */
  predicate SharesClass(route: RouteObservation) {
    exists c | c in route.capture :: c in route.render
  }

  lemma SharedMeans(route: RouteObservation, observed: RouteObservation)
    requires IsRoute(Some(route), Some(observed))
    ensures Shared(route) <==> SharesClass(observed)
  {
    if Shared(route) {
      var k :| 0 <= k < |route.capture| && route.capture[k] in route.render;
      assert route.capture[k] in observed.capture && route.capture[k] in observed.render;
    }
    if SharesClass(observed) {
      var c :| c in observed.capture && c in observed.render;
      assert c in route.capture;
      var k :| 0 <= k < |route.capture| && route.capture[k] == c;
    }
  }

  lemma ReceiptTells(s: State, route: Option<RouteObservation>, nowMs: u64)
    requires s.session.Some? && ValidSpec(s.session.value) && IsRoute(s.route, route)
    requires s.focusHeld && s.communicationRouteHeld
    ensures ReceiptAt(s, nowMs).Ok? && ReceiptAt(s, nowMs).value.Some?
    ensures Tells(ReceiptAt(s, nowMs).value.value, s.session.value, route, nowMs, true)
  {
    if route.Some? {
      SharedMeans(s.route.value, route.value);
      NothingIsNormal(route.value.render);
    }
  }

  /** The time from which a receipt judges the route: that of its own observation, unless a tick brings another. */
  function ReceiptTime(route: Option<RouteObservation>): u64 {
    if route.Some? then route.value.observedAtMs else 0
  }

  /** What an input is answered after a run. */
  predicate Answers(reply: Result<Option<Receipt>, AudioError>, events: seq<Event>, input: Input) {
    var session, route := SessionOf(events), RouteOf(events);
    match input
    case Arm(spec) =>
      if Armable(spec) then IsReceipt(reply, spec, route, ReceiptTime(route), true)
      else reply == Err(if !(28 <= spec.apiLevel <= 35) then UnsupportedApi
                        else if !IsBoundedPcm(spec.pcm) then BadPcm
                        else if !spec.admitted then NotAdmitted
                        else BadIdentityOrExpiry)
    case Route(observed) =>
      if route != None && observed.generation <= route.value.generation then reply == Err(StaleGeneration)
      else if session == None then reply == Ok(None)
      else IsReceipt(reply, session.value, Some(observed), observed.observedAtMs,
                     observed.capture != [] || observed.render != [])
    case Stop => reply == Ok(None)
    case Tick(nowMs) =>
      if session == None || nowMs >= session.value.expiresAtMs then reply == Ok(None)
      else IsReceipt(reply, session.value, route, nowMs, true)
  }

  predicate IsReceipt(reply: Result<Option<Receipt>, AudioError>, session: SessionSpec,
                      route: Option<RouteObservation>, nowMs: u64, held: bool) {
    reply.Ok? && reply.value.Some? && Tells(reply.value.value, session, route, nowMs, held)
  }

  /** After any run, an input is answered as the events so far determine. */
  lemma InputsAreAnswered(events: seq<Event>, input: Input)
    ensures Answers(Dispatch(Run(events).s, input).1, events, input)
  {
    RunFollowsEvents(events);
    EveryRunIncreases(events);
    InputIsAnswered(Run(events).s, events, input);
  }

  lemma InputIsAnswered(s: State, events: seq<Event>, input: Input)
    requires Follows(s, events) && Consistent(s)
    ensures Answers(Dispatch(s, input).1, events, input)
  {
    match input
    case Arm(spec) =>
      if Armable(spec) {
        ReceiptTells(Dispatch(s, input).0, RouteOf(events), ReceiptTime(RouteOf(events)));
      }
    case Route(observed) => RouteIsAnswered(s, events, observed);
    case Tick(nowMs) =>
      if s.session.Some? {
        ReceiptTells(s, RouteOf(events), nowMs);
      }
    case Stop =>
  }

  lemma RouteIsAnswered(s: State, events: seq<Event>, observed: RouteObservation)
    requires Follows(s, events) && Consistent(s)
    ensures Answers(Dispatch(s, Route(observed)).1, events, Route(observed))
  {
    var observation := observed.(capture := Normalize(observed.capture), render := Normalize(observed.render));
    var routed := s.(route := Some(observation));
    NothingIsNormal(observed.capture);
    NothingIsNormal(observed.render);
    if s.session.Some? {
      ReceiptTells(routed, Some(observed), observed.observedAtMs);
    }
  }

  // ---------- The mutable session ----------

  class AudioState {
    var session: Option<SessionSpec>
    var route: Option<RouteObservation>
    var focusHeld: bool
    var communicationRouteHeld: bool

    function Value(): State
      reads this
    {
      State(session, route, focusHeld, communicationRouteHeld)
    }

    constructor ()
      ensures Value() == INITIAL
    {
      session, route, focusHeld, communicationRouteHeld := None, None, false, false;
    }

    method ReleaseAll()
      modifies this
      ensures Value() == Released(old(Value()))
    {
      session := None;
      focusHeld := false;
      communicationRouteHeld := false;
    }

    method DispatchInput(input: Input) returns (reply: Result<Option<Receipt>, AudioError>)
      modifies this
      ensures (Value(), reply) == Dispatch(old(Value()), input)
    {
      match input
      case Arm(spec) =>
        if ContractFor(spec.apiLevel).None? {
          return Err(UnsupportedApi);
        }
        if !ValidPcm(spec.pcm) {
          return Err(BadPcm);
        }
        if !spec.admitted {
          return Err(NotAdmitted);
        }
        if !IsContentId(spec.turnContentId) || spec.expiresAtMs <= spec.armedAtMs {
          return Err(BadIdentityOrExpiry);
        }
        ReleaseAll();
        session := Some(spec);
        focusHeld := true;
        communicationRouteHeld := true;
        return ReceiptNow(Value());
      case Route(observed) =>
        var observation := observed.(capture := Normalize(observed.capture), render := Normalize(observed.render));
        if route.Some? && observation.generation <= route.value.generation {
          return Err(StaleGeneration);
        }
        route := Some(observation);
        var lost := observation.capture == [] && observation.render == [];
        reply := ReceiptNow(Value());
        if reply.Err? {
          return;
        }
        if lost {
          ReleaseAll();
          if reply.value.Some? {
            var r := reply.value.value;
            r := r.(focusHeld := false, communicationRouteHeld := false,
                    privateOutputPaused := r.privateOutputPaused || r.route.render == []);
            reply := Ok(Some(r));
          }
        }
      case Stop =>
        ReleaseAll();
        return Ok(None);
      case Tick(nowMs) =>
        if session.Some? && nowMs >= session.value.expiresAtMs {
          ReleaseAll();
          return Ok(None);
        }
        return ReceiptAt(Value(), nowMs);
    }
  }
}
