/** The browser host-call machine: call identifiers, pending calls and live handles over every run. */
module Browser {
  import opened Common
  import opened Paths

  const MAX_HOST_PAYLOAD_BYTES: nat := 512 * 1024
  const MAX_HANDLES: nat := 256
  const MAX_TEXT_BYTES: nat := 4096
  const LAST_CALL_ID: u64 := 0xFFFF_FFFF_FFFF_FFFF

  datatype Service =
    | LifecycleService | ActivationService | StorageService | FetchService | WebsocketService
    | ClipboardService | NotificationService | PermissionService | WakeLockService

  /** Which browser APIs the shell detected. */
  datatype BrowserApis = BrowserApis(
    storage: bool, fetch: bool, websocket: bool, clipboard: bool, notification: bool, permissions: bool, wakeLock: bool)

  datatype Lifecycle = Created | Active | Hidden | Suspended | Stopped

  datatype HostOperation =
    | Activation(name: Bytes, payload: Bytes)
    | StorageOpen(namespace: Bytes)
    | StorageRead(handle: u32, key: Bytes)
    | StorageWrite(handle: u32, key: Bytes, bytes: Bytes)
    | StorageClose(handle: u32)
    | Fetch(url: Bytes, httpMethod: Bytes, body: Bytes)
    | WebsocketOpen(url: Bytes)
    | WebsocketSend(handle: u32, bytes: Bytes)
    | WebsocketClose(handle: u32)
    | ClipboardRead
    | ClipboardWrite(text: Bytes)
    | Notification(title: Bytes, body: Bytes)
    | Permission(name: Bytes, request: bool)
    | WakeLock(acquire: bool)

  datatype Input =
    | CardInput(apis: BrowserApis)
    | LifecycleInput(state: Lifecycle)
    | HostCall(operation: HostOperation)
    | HostComplete(callId: u64, ok: bool, payload: Bytes, handle: Option<u32>)

  datatype Output =
    | CardOutput(services: seq<Service>)
    | LifecycleOutput(state: Lifecycle)
    | HostCallOutput(callId: u64, service: Service, operation: HostOperation)
    | Completed(callId: u64, ok: bool, payload: Bytes, handle: Option<u32>)

  datatype Refusal =
    | NotActive | InvalidOperation | UnsupportedService | PendingLimit | UnknownHandle | CallIdsExhausted
    | PayloadTooLarge | UnknownCall | HandleLimit | InputMismatch | UnknownFunction

  datatype PendingCall = PendingCall(service: Service, closeHandle: Option<u32>)

  datatype State = State(
    services: seq<Service>,
    lifecycle: Lifecycle,
    nextCall: u64,
    pending: map<u64, PendingCall>,
    handles: set<u32>)

  const CARD_FUNCTION := "platform/card"
  const LIFECYCLE_FUNCTION := "platform/lifecycle"
  const HOST_FUNCTION := "platform/host-call"
  const COMPLETE_FUNCTION := "platform/host-complete"

  function ServicesOf(apis: BrowserApis): seq<Service> {
    [LifecycleService, ActivationService]
    + (if apis.storage then [StorageService] else [])
    + (if apis.fetch then [FetchService] else [])
    + (if apis.websocket then [WebsocketService] else [])
    + (if apis.clipboard then [ClipboardService] else [])
    + (if apis.notification then [NotificationService] else [])
    + (if apis.permissions then [PermissionService] else [])
    + (if apis.wakeLock then [WakeLockService] else [])
  }

  function ServiceOf(operation: HostOperation): Service {
    match operation
    case Activation(_, _) => ActivationService
    case StorageOpen(_) => StorageService
    case StorageRead(_, _) => StorageService
    case StorageWrite(_, _, _) => StorageService
    case StorageClose(_) => StorageService
    case Fetch(_, _, _) => FetchService
    case WebsocketOpen(_) => WebsocketService
    case WebsocketSend(_, _) => WebsocketService
    case WebsocketClose(_) => WebsocketService
    case ClipboardRead => ClipboardService
    case ClipboardWrite(_) => ClipboardService
    case Notification(_, _) => NotificationService
    case Permission(_, _) => PermissionService
    case WakeLock(_) => WakeLockService
  }

  predicate BoundedText(blank: Blank, text: Bytes) {
    !blank(text) && |text| <= MAX_TEXT_BYTES
  }

  predicate BoundedUrl(blank: Blank, url: Bytes) {
    BoundedText(blank, url) && (Ascii("https://") <= url || Ascii("wss://") <= url)
  }

  predicate ValidOperation(blank: Blank, operation: HostOperation) {
    match operation
    case Activation(name, payload) => BoundedText(blank, name) && |payload| <= MAX_HOST_PAYLOAD_BYTES
    case StorageOpen(namespace) => BoundedText(blank, namespace)
    case StorageRead(_, key) => BoundedText(blank, key)
    case StorageWrite(_, key, bytes) => BoundedText(blank, key) && |bytes| <= MAX_HOST_PAYLOAD_BYTES
    case Fetch(url, httpMethod, body) =>
      BoundedUrl(blank, url) && BoundedText(blank, httpMethod) && |body| <= MAX_HOST_PAYLOAD_BYTES
    case WebsocketOpen(url) => BoundedUrl(blank, url)
    case WebsocketSend(_, bytes) => |bytes| <= MAX_HOST_PAYLOAD_BYTES
    case ClipboardWrite(text) => |text| <= MAX_HOST_PAYLOAD_BYTES
    case Notification(title, body) => |title| + |body| <= MAX_HOST_PAYLOAD_BYTES
    case Permission(name, _) => BoundedText(blank, name)
    case _ => true
  }

  /** The handle an operation works on. */
  function UsedHandle(operation: HostOperation): Option<u32> {
    match operation
    case StorageRead(handle, _) => Some(handle)
    case StorageWrite(handle, _, _) => Some(handle)
    case StorageClose(handle) => Some(handle)
    case WebsocketSend(handle, _) => Some(handle)
    case WebsocketClose(handle) => Some(handle)
    case _ => None
  }

  function ClosedHandle(operation: HostOperation): Option<u32> {
    match operation
    case StorageClose(handle) => Some(handle)
    case WebsocketClose(handle) => Some(handle)
    case _ => None
  }

  predicate Resets(state: Lifecycle) {
    state.Suspended? || state.Stopped?
  }

  /** A service whose completed calls may yield a handle. */
  predicate YieldsHandles(service: Service) {
    service.StorageService? || service.WebsocketService?
  }

  function Initial(apis: BrowserApis): State {
    State(ServicesOf(apis), Created, 1, map[], {})
  }

  function CallHost(blank: Blank, s: State, operation: HostOperation): (State, Result<Output, Refusal>) {
    var service := ServiceOf(operation);
    if Resets(s.lifecycle) then (s, Err(NotActive))
    else if !ValidOperation(blank, operation) then (s, Err(InvalidOperation))
    else if service !in s.services then (s, Err(UnsupportedService))
    else if |s.pending| >= MAX_HANDLES then (s, Err(PendingLimit))
    else if UsedHandle(operation).Some? && UsedHandle(operation).value !in s.handles then (s, Err(UnknownHandle))
    else if s.nextCall == LAST_CALL_ID then (s, Err(CallIdsExhausted))
    else (s.(nextCall := s.nextCall + 1,
             pending := s.pending[s.nextCall := PendingCall(service, ClosedHandle(operation))]),
          Ok(HostCallOutput(s.nextCall, service, operation)))
  }

  function CompleteHost(s: State, callId: u64, ok: bool, payload: Bytes, handle: Option<u32>):
    (State, Result<Output, Refusal>)
  {
    if |payload| > MAX_HOST_PAYLOAD_BYTES then (s, Err(PayloadTooLarge))
    else if callId !in s.pending then (s, Err(UnknownCall))
    else
      var call := s.pending[callId];
      var left := if ok && call.closeHandle.Some? then s.handles - {call.closeHandle.value} else s.handles;
      var consumed := s.(pending := s.pending - {callId}, handles := left);
      if handle.Some? && |left| >= MAX_HANDLES then (consumed, Err(HandleLimit))
      else
        var added := if handle.Some? && ok && YieldsHandles(call.service)
                      then {handle.value} else {};
        (consumed.(handles := left + added), Ok(Completed(callId, ok, payload, handle)))
  }

  function Dispatch(blank: Blank, s: State, name: string, input: Input): (State, Result<Output, Refusal>) {
    if name == CARD_FUNCTION && input.CardInput? then
      (s.(services := ServicesOf(input.apis)), Ok(CardOutput(ServicesOf(input.apis))))
    else if name == LIFECYCLE_FUNCTION && input.LifecycleInput? then
      (if Resets(input.state) then s.(lifecycle := input.state, pending := map[], handles := {})
       else s.(lifecycle := input.state),
       Ok(LifecycleOutput(input.state)))
    else if name == HOST_FUNCTION && input.HostCall? then CallHost(blank, s, input.operation)
    else if name == COMPLETE_FUNCTION && input.HostComplete? then
      CompleteHost(s, input.callId, input.ok, input.payload, input.handle)
    else if name in {CARD_FUNCTION, LIFECYCLE_FUNCTION, HOST_FUNCTION, COMPLETE_FUNCTION} then (s, Err(InputMismatch))
    else (s, Err(UnknownFunction))
  }

  /** The function that takes an input. */
  predicate Takes(name: string, input: Input) {
    match input
    case CardInput(_) => name == "platform/card"
    case LifecycleInput(_) => name == "platform/lifecycle"
    case HostCall(_) => name == "platform/host-call"
    case HostComplete(_, _, _, _) => name == "platform/host-complete"
  }

  /** A request goes to the function it names; the four functions take no other input, and there is no fifth. */
  lemma FunctionsAreNamed(blank: Blank, s: State, name: string, input: Input)
    ensures var (after, reply) := Dispatch(blank, s, name, input);
            if Takes(name, input) then reply != Err(InputMismatch) && reply != Err(UnknownFunction)
            else && after == s
                 && reply == Err(if name == "platform/card" || name == "platform/lifecycle"
                                    || name == "platform/host-call" || name == "platform/host-complete"
                                 then InputMismatch else UnknownFunction)
  {
  }

  // ---------- Histories ----------

  /** One dispatched request with its answer. */
  datatype Step = Step(name: string, input: Input, reply: Result<Output, Refusal>)

  function Front(log: seq<Step>): seq<Step>
    requires log != []
  {
    log[..|log| - 1]
  }

  function Last(log: seq<Step>): Step
    requires log != []
  {
    log[|log| - 1]
  }

  /** The step has suspended or stopped the capsule. */
  predicate IsReset(step: Step) {
    step.reply == Ok(LifecycleOutput(Suspended)) || step.reply == Ok(LifecycleOutput(Stopped))
  }

  predicate IsIssue(step: Step) {
    step.reply.Ok? && step.reply.value.HostCallOutput?
  }

  predicate IsCompletion(step: Step) {
    step.reply.Ok? && step.reply.value.Completed?
  }

  /** The calls issued since the last suspend or stop, with their operations. */
  function IssuedSinceReset(log: seq<Step>): map<u64, HostOperation> {
    if log == [] || IsReset(Last(log)) then map[]
    else if IsIssue(Last(log))
    then IssuedSinceReset(Front(log))[Last(log).reply.value.callId := Last(log).reply.value.operation]
    else IssuedSinceReset(Front(log))
  }

  function EverIssued(log: seq<Step>): set<u64> {
    if log == [] then {}
    else EverIssued(Front(log)) + if IsIssue(Last(log)) then {Last(log).reply.value.callId} else {}
  }

  function EverCompleted(log: seq<Step>): set<u64> {
    if log == [] then {}
    else EverCompleted(Front(log)) + if IsCompletion(Last(log)) then {Last(log).reply.value.callId} else {}
  }

  /** The operation of a completed call, when the call belongs to the time since the last reset. */
  function CompletedOperation(log: seq<Step>): Option<HostOperation>
    requires log != []
  {
    if IsCompletion(Last(log)) && Last(log).reply.value.callId in IssuedSinceReset(Front(log))
    then Some(IssuedSinceReset(Front(log))[Last(log).reply.value.callId]) else None
  }

  /** The operations whose successful completion may hand out a handle: those of storage and of websockets. */
  predicate MayOpen(operation: HostOperation) {
    match operation
    case StorageOpen(_) => true
    case StorageRead(_, _) => true
    case StorageWrite(_, _, _) => true
    case StorageClose(_) => true
    case WebsocketOpen(_) => true
    case WebsocketSend(_, _) => true
    case WebsocketClose(_) => true
    case _ => false
  }

  /** The operation works on an open handle, and this is it. */
  predicate WorksOn(operation: HostOperation, handle: u32) {
    match operation
    case StorageRead(h, _) => h == handle
    case StorageWrite(h, _, _) => h == handle
    case StorageClose(h) => h == handle
    case WebsocketSend(h, _) => h == handle
    case WebsocketClose(h) => h == handle
    case _ => false
  }

  /** The last step successfully completed a storage or websocket call that yielded `handle`. */
  predicate Opens(log: seq<Step>, handle: u32)
    requires log != []
  {
    && CompletedOperation(log).Some?
    && Last(log).reply.value.ok && Last(log).reply.value.handle == Some(handle)
    && MayOpen(CompletedOperation(log).value)
  }

  /** The operation closes `handle`. */
  predicate IsClose(operation: HostOperation, handle: u32) {
    operation == StorageClose(handle) || operation == WebsocketClose(handle)
  }

  /** The last step successfully completed a close of `handle`. */
  predicate Closes(log: seq<Step>, handle: u32)
    requires log != []
  {
    CompletedOperation(log).Some? && Last(log).reply.value.ok
    && IsClose(CompletedOperation(log).value, handle)
  }

  /** Since the last reset `handle` was opened and has not been closed by a later completion. */
  predicate OpenSinceReset(log: seq<Step>, handle: u32) {
    && log != [] && !IsReset(Last(log))
    && (Opens(log, handle) || (!Closes(log, handle) && OpenSinceReset(Front(log), handle)))
  }

  /**
   The history keeps the protocol: every issued id is larger than all issued before it, and every
   accepted completion is the first one of a call issued since the last reset.
   */
  predicate KeepsProtocol(log: seq<Step>) {
    log == [] ||
    (&& KeepsProtocol(Front(log))
     && (IsIssue(Last(log)) ==> forall id | id in EverIssued(Front(log)) :: id < Last(log).reply.value.callId)
     && (IsCompletion(Last(log)) ==>
           && Last(log).reply.value.callId in IssuedSinceReset(Front(log))
           && Last(log).reply.value.callId !in EverCompleted(Front(log))))
  }

  // ---------- Runs ----------

  /** The state and history after dispatching `requests` to a new capsule. */
  function Run(blank: Blank, apis: BrowserApis, requests: seq<(string, Input)>): (State, seq<Step>) {
    if requests == [] then (Initial(apis), [])
    else
      var (s, log) := Run(blank, apis, requests[..|requests| - 1]);
      var (name, input) := requests[|requests| - 1];
      var (after, reply) := Dispatch(blank, s, name, input);
      (after, log + [Step(name, input, reply)])
  }

  function PendingFor(operation: HostOperation): PendingCall {
    PendingCall(ServiceOf(operation), ClosedHandle(operation))
  }

  predicate CallsOk(s: State, log: seq<Step>) {
    && |s.pending| <= MAX_HANDLES
    && (forall id | id in EverIssued(log) :: id < s.nextCall)
    && (forall id | id in IssuedSinceReset(log) :: id in EverIssued(log))
    && (forall id | id in EverCompleted(log) :: id in EverIssued(log))
    && Awaited(s.pending, IssuedSinceReset(log), EverCompleted(log))
  }

  /** Each pending call was issued, has not completed, and remembers what its operation asked for. */
  predicate Awaited(pending: map<u64, PendingCall>, issued: map<u64, HostOperation>, completed: set<u64>) {
    forall id | id in pending ::
      id in issued && id !in completed && pending[id] == PendingFor(issued[id])
  }

  predicate HandlesOk(s: State, log: seq<Step>) {
    |s.handles| <= MAX_HANDLES && forall handle :: handle in s.handles <==> OpenSinceReset(log, handle)
  }

  lemma SmallerSet<T>(a: set<T>, b: set<T>)
    requires a <= b
    ensures |a| <= |b|
  {
    assert b == a + (b - a);
  }

  /** How one more step changes what the history records. */
  lemma RecordStep(log: seq<Step>, step: Step)
    ensures var longer := log + [step];
            && Front(longer) == log && Last(longer) == step
            && EverIssued(longer) == EverIssued(log) + (if IsIssue(step) then {step.reply.value.callId} else {})
            && EverCompleted(longer)
               == EverCompleted(log) + (if IsCompletion(step) then {step.reply.value.callId} else {})
            && IssuedSinceReset(longer)
               == (if IsReset(step) then map[]
                   else if IsIssue(step)
                   then IssuedSinceReset(log)[step.reply.value.callId := step.reply.value.operation]
                   else IssuedSinceReset(log))
  {
    assert Front(log + [step]) == log;
  }

  /** A step that is neither an issue, nor a completion, nor a reset may at most forget pending calls. */
  lemma QuietStep(s: State, after: State, log: seq<Step>, step: Step)
    requires CallsOk(s, log) && KeepsProtocol(log)
    requires !IsIssue(step) && !IsCompletion(step) && !IsReset(step)
    requires after.nextCall == s.nextCall
    requires forall id | id in after.pending :: id in s.pending && after.pending[id] == s.pending[id]
    ensures CallsOk(after, log + [step]) && KeepsProtocol(log + [step])
  {
    RecordStep(log, step);
    SmallerSet(after.pending.Keys, s.pending.Keys);
    AwaitFewer(after.pending, s.pending, IssuedSinceReset(log), EverCompleted(log));
  }

  lemma AwaitFewer(pending: map<u64, PendingCall>, more: map<u64, PendingCall>, issued: map<u64, HostOperation>,
                   completed: set<u64>)
    requires Awaited(more, issued, completed)
    requires forall id | id in pending :: id in more && pending[id] == more[id]
    ensures Awaited(pending, issued, completed)
  {
  }

  lemma ResetStep(s: State, after: State, log: seq<Step>, step: Step)
    requires CallsOk(s, log) && KeepsProtocol(log) && IsReset(step)
    requires after.nextCall == s.nextCall && after.pending == map[]
    ensures CallsOk(after, log + [step]) && KeepsProtocol(log + [step])
  {
    assert Front(log + [step]) == log;
  }

  lemma IssueStep(s: State, after: State, log: seq<Step>, step: Step)
    requires CallsOk(s, log) && KeepsProtocol(log) && IsIssue(step)
    requires step.reply.value.callId == s.nextCall && after.nextCall == s.nextCall + 1 && |s.pending| < MAX_HANDLES
    requires after.pending == s.pending[s.nextCall := PendingFor(step.reply.value.operation)]
    ensures CallsOk(after, log + [step]) && KeepsProtocol(log + [step])
  {
    RecordStep(log, step);
    assert s.nextCall !in EverIssued(log);
    AwaitOneMore(s.pending, IssuedSinceReset(log), EverCompleted(log), s.nextCall, step.reply.value.operation);
    IssueKeepsProtocol(log, step, s.nextCall);
  }

  lemma AwaitOneMore(pending: map<u64, PendingCall>, issued: map<u64, HostOperation>, completed: set<u64>,
                     id: u64, operation: HostOperation)
    requires Awaited(pending, issued, completed) && id !in completed
    ensures Awaited(pending[id := PendingFor(operation)], issued[id := operation], completed)
    ensures |pending[id := PendingFor(operation)]| <= |pending| + 1
  {
    var longer := pending[id := PendingFor(operation)];
    assert longer.Keys == pending.Keys + {id};
    SmallerSet(longer.Keys, pending.Keys + {id});
  }

  lemma IssueKeepsProtocol(log: seq<Step>, step: Step, next: u64)
    requires KeepsProtocol(log) && IsIssue(step) && step.reply.value.callId == next
    requires forall id | id in EverIssued(log) :: id < next
    ensures KeepsProtocol(log + [step])
  {
    assert Front(log + [step]) == log;
  }

  lemma CompletionStep(s: State, after: State, log: seq<Step>, step: Step)
    requires CallsOk(s, log) && KeepsProtocol(log) && IsCompletion(step)
    requires step.reply.value.callId in s.pending && after.nextCall == s.nextCall
    requires after.pending == s.pending - {step.reply.value.callId}
    ensures CallsOk(after, log + [step]) && KeepsProtocol(log + [step])
  {
    RecordStep(log, step);
    SmallerSet(after.pending.Keys, s.pending.Keys);
  }

  /** A host call is refused without effect, or becomes the next pending call. */
  lemma CallEffects(blank: Blank, s: State, operation: HostOperation)
    ensures var (after, reply) := CallHost(blank, s, operation);
            if reply.Err? then after == s && !reply.error.HandleLimit?
            else && reply.value == HostCallOutput(s.nextCall, ServiceOf(operation), operation)
                 && |s.pending| < MAX_HANDLES
                 && after == s.(nextCall := s.nextCall + 1, pending := s.pending[s.nextCall := PendingFor(operation)])
  {
  }

  /** A completion is refused without effect, or uses up its pending call. */
  lemma CompletionEffects(s: State, input: Input)
    requires input.HostComplete?
    ensures var (after, reply) := CompleteHost(s, input.callId, input.ok, input.payload, input.handle);
            && after.nextCall == s.nextCall
            && (if reply.Ok? || reply.error.HandleLimit?
                then input.callId in s.pending && after.pending == s.pending - {input.callId} else after == s)
            && (reply.Ok? ==> reply.value == Completed(input.callId, input.ok, input.payload, input.handle))
  {
  }

  /** Any other request at most resets. */
  lemma OtherEffects(blank: Blank, s: State, name: string, input: Input)
    requires !(name == HOST_FUNCTION && input.HostCall?) && !(name == COMPLETE_FUNCTION && input.HostComplete?)
    ensures var (after, reply) := Dispatch(blank, s, name, input);
            var step := Step(name, input, reply);
            && !IsIssue(step) && !IsCompletion(step) && reply != Err(HandleLimit)
            && after.nextCall == s.nextCall && after.pending == (if IsReset(step) then map[] else s.pending)
  {
  }

  /** What a dispatch does to call ids and pending calls, by the kind of its answer. */
  lemma DispatchEffects(blank: Blank, s: State, name: string, input: Input)
    ensures var (after, reply) := Dispatch(blank, s, name, input);
            var step := Step(name, input, reply);
            && (IsIssue(step) ==>
                  && reply.value.callId == s.nextCall && after.nextCall == s.nextCall + 1 && |s.pending| < MAX_HANDLES
                  && after.pending == s.pending[s.nextCall := PendingFor(reply.value.operation)])
            && (IsCompletion(step) ==>
                  && reply.value.callId in s.pending && after.nextCall == s.nextCall
                  && after.pending == s.pending - {reply.value.callId})
            && (IsReset(step) ==> after.nextCall == s.nextCall && after.pending == map[])
            && (!IsIssue(step) ==>
                  && after.nextCall == s.nextCall
                  && forall id | id in after.pending :: id in s.pending && after.pending[id] == s.pending[id])
  {
    if name == HOST_FUNCTION && input.HostCall? {
      CallEffects(blank, s, input.operation);
    } else if name == COMPLETE_FUNCTION && input.HostComplete? {
      CompletionEffects(s, input);
    } else {
      OtherEffects(blank, s, name, input);
    }
  }

  lemma DispatchKeepsCalls(blank: Blank, s: State, log: seq<Step>, name: string, input: Input)
    requires CallsOk(s, log) && KeepsProtocol(log)
    ensures var (after, reply) := Dispatch(blank, s, name, input);
            CallsOk(after, log + [Step(name, input, reply)]) && KeepsProtocol(log + [Step(name, input, reply)])
  {
    var (after, reply) := Dispatch(blank, s, name, input);
    var step := Step(name, input, reply);
    DispatchEffects(blank, s, name, input);
    if IsIssue(step) {
      IssueStep(s, after, log, step);
    } else if IsCompletion(step) {
      CompletionStep(s, after, log, step);
    } else if IsReset(step) {
      ResetStep(s, after, log, step);
    } else {
      QuietStep(s, after, log, step);
    }
  }

  /** A completion refused for want of handle room uses up its call, but neither opens nor closes a handle. */
  lemma RefusedCompletionKeepsHandles(s: State, callId: u64, ok: bool, payload: Bytes, handle: Option<u32>)
    requires |s.handles| <= MAX_HANDLES
    requires CompleteHost(s, callId, ok, payload, handle).1 == Err(HandleLimit)
    ensures CompleteHost(s, callId, ok, payload, handle).0 == s.(pending := s.pending - {callId})
  {
    if s.pending[callId].closeHandle.Some? {
      RemovalShrinks(s.handles, s.pending[callId].closeHandle.value);
    }
  }

  lemma RemovalShrinks(handles: set<u32>, handle: u32)
    ensures if handle in handles then |handles - {handle}| < |handles| else handles - {handle} == handles
  {
  }

  /** The handles that remain once the completed call has closed what it was to close. */
  function HandlesLeft(s: State, callId: u64, ok: bool): set<u32>
    requires callId in s.pending
  {
    if ok && s.pending[callId].closeHandle.Some? then s.handles - {s.pending[callId].closeHandle.value} else s.handles
  }

  /** What an accepted completion opens and closes, read off the history and off the pending call. */
  lemma CompletionMeans(s: State, log: seq<Step>, name: string, input: Input, handle: u32)
    requires CallsOk(s, log) && input.HostComplete?
    requires CompleteHost(s, input.callId, input.ok, input.payload, input.handle).1.Ok?
    ensures input.callId in s.pending
    ensures var reply := CompleteHost(s, input.callId, input.ok, input.payload, input.handle).1;
            var call, longer := s.pending[input.callId], log + [Step(name, input, reply)];
            && (Closes(longer, handle) <==> input.ok && call.closeHandle == Some(handle))
            && (Opens(longer, handle) <==> input.ok && input.handle == Some(handle) && YieldsHandles(call.service))
  {
    var longer := log + [Step(name, input, CompleteHost(s, input.callId, input.ok, input.payload, input.handle).1)];
    assert Front(longer) == log;
  }

  lemma CompletionKeepsHandles(s: State, log: seq<Step>, name: string, input: Input)
    requires CallsOk(s, log) && HandlesOk(s, log) && input.HostComplete?
    requires CompleteHost(s, input.callId, input.ok, input.payload, input.handle).1.Ok?
    ensures var (after, reply) := CompleteHost(s, input.callId, input.ok, input.payload, input.handle);
            HandlesOk(after, log + [Step(name, input, reply)])
  {
    var (after, reply) := CompleteHost(s, input.callId, input.ok, input.payload, input.handle);
    var longer := log + [Step(name, input, reply)];
    SmallerSet(HandlesLeft(s, input.callId, input.ok), s.handles);
    forall handle
      ensures handle in after.handles <==> Opens(longer, handle) || (handle in s.handles && !Closes(longer, handle))
    {
      CompletionMeans(s, log, name, input, handle);
    }
    HandlesFollow(s, after, log, longer);
  }

  lemma HandlesFollow(s: State, after: State, log: seq<Step>, longer: seq<Step>)
    requires HandlesOk(s, log) && longer != [] && longer[..|longer| - 1] == log && !IsReset(Last(longer))
    requires |after.handles| <= MAX_HANDLES
    requires forall handle ::
               handle in after.handles <==> Opens(longer, handle) || (handle in s.handles && !Closes(longer, handle))
    ensures HandlesOk(after, longer)
  {
  }

  lemma HandlesWithoutCompletion(blank: Blank, s: State, name: string, input: Input)
    requires |s.handles| <= MAX_HANDLES && !IsCompletion(Step(name, input, Dispatch(blank, s, name, input).1))
    ensures var (after, reply) := Dispatch(blank, s, name, input);
            after.handles == if IsReset(Step(name, input, reply)) then {} else s.handles
  {
    if Dispatch(blank, s, name, input).1 == Err(HandleLimit) {
      RefusedCompletionKeepsHandles(s, input.callId, input.ok, input.payload, input.handle);
    }
  }

  lemma OnlyCompletionsComplete(blank: Blank, s: State, name: string, input: Input)
    requires IsCompletion(Step(name, input, Dispatch(blank, s, name, input).1))
    ensures input.HostComplete?
    ensures Dispatch(blank, s, name, input) == CompleteHost(s, input.callId, input.ok, input.payload, input.handle)
  {
  }

  lemma DispatchKeepsHandles(blank: Blank, s: State, log: seq<Step>, name: string, input: Input)
    requires CallsOk(s, log) && HandlesOk(s, log)
    ensures var (after, reply) := Dispatch(blank, s, name, input);
            HandlesOk(after, log + [Step(name, input, reply)])
  {
    var (after, reply) := Dispatch(blank, s, name, input);
    var step := Step(name, input, reply);
    if IsCompletion(step) {
      OnlyCompletionsComplete(blank, s, name, input);
      CompletionKeepsHandles(s, log, name, input);
    } else {
      HandlesWithoutCompletion(blank, s, name, input);
      QuietHandles(s, after, log, step);
    }
  }

  lemma QuietHandles(s: State, after: State, log: seq<Step>, step: Step)
    requires HandlesOk(s, log) && !IsCompletion(step)
    requires if IsReset(step) then after.handles == {} else after.handles == s.handles
    ensures HandlesOk(after, log + [step])
  {
    assert Front(log + [step]) == log;
  }

  lemma {:induction false} RunInvariant(blank: Blank, apis: BrowserApis, requests: seq<(string, Input)>)
    ensures var (s, log) := Run(blank, apis, requests); CallsOk(s, log) && HandlesOk(s, log) && KeepsProtocol(log)
  {
    if requests != [] {
      var front := requests[..|requests| - 1];
      var (name, input) := requests[|requests| - 1];
      var (s, log) := Run(blank, apis, front);
      RunInvariant(blank, apis, front);
      DispatchKeepsCalls(blank, s, log, name, input);
      DispatchKeepsHandles(blank, s, log, name, input);
    }
  }

  /**
   Over every run: issued ids strictly increase, no id is completed twice, a completion is accepted only
   for a call issued since the last suspend or stop, at most 256 calls are pending and 256 handles live,
   and the live handles are exactly those opened by a successful storage or websocket completion since then
   and not closed by a later one.
   */
  lemma EveryRunIsSafe(blank: Blank, apis: BrowserApis, requests: seq<(string, Input)>)
    ensures var (s, log) := Run(blank, apis, requests);
            && KeepsProtocol(log)
            && |s.pending| <= MAX_HANDLES && |s.handles| <= MAX_HANDLES
            && (forall handle :: handle in s.handles <==> OpenSinceReset(log, handle))
  {
    RunInvariant(blank, apis, requests);
  }

  /** No call ever goes out on a handle that is not open: every prefix of a run ends with such a step. */
  lemma IssuedHandlesAreOpen(blank: Blank, apis: BrowserApis, requests: seq<(string, Input)>, handle: u32)
    requires requests != [] && IsIssue(Last(Run(blank, apis, requests).1))
    requires WorksOn(Last(Run(blank, apis, requests).1).reply.value.operation, handle)
    ensures OpenSinceReset(Front(Run(blank, apis, requests).1), handle)
  {
    RunInvariant(blank, apis, requests[..|requests| - 1]);
    var (s, log) := Run(blank, apis, requests[..|requests| - 1]);
    var (name, input) := requests[|requests| - 1];
    IssueUsesLiveHandle(blank, s, name, input, handle);
    assert Front(Run(blank, apis, requests).1) == log;
  }

  lemma IssueUsesLiveHandle(blank: Blank, s: State, name: string, input: Input, handle: u32)
    requires IsIssue(Step(name, input, Dispatch(blank, s, name, input).1))
    requires WorksOn(Dispatch(blank, s, name, input).1.value.operation, handle)
    ensures handle in s.handles
  {
  }

  // ---------- What a run of requests amounts to ----------

  /** The lifecycle last set. */
  function LifecycleOf(requests: seq<(string, Input)>): Lifecycle {
    if requests == [] then Created
    else
      match requests[|requests| - 1]
      case ("platform/lifecycle", LifecycleInput(state)) => state
      case _ => LifecycleOf(requests[..|requests| - 1])
  }

  /** The interfaces last reported as detected. */
  function ApisOf(apis: BrowserApis, requests: seq<(string, Input)>): BrowserApis {
    if requests == [] then apis
    else
      match requests[|requests| - 1]
      case ("platform/card", CardInput(detected)) => detected
      case _ => ApisOf(apis, requests[..|requests| - 1])
  }

  /** How many calls have been issued. */
  function Issues(log: seq<Step>): nat {
    if log == [] then 0 else Issues(Front(log)) + if IsIssue(Last(log)) then 1 else 0
  }

  /** The calls issued since the last reset that have been neither completed nor lost for want of handle room. */
  function Waiting(log: seq<Step>): set<u64> {
    if log == [] || IsReset(Last(log)) then {}
    else
      match Last(log)
      case Step(_, _, Ok(HostCallOutput(callId, _, _))) => Waiting(Front(log)) + {callId}
      case Step(_, _, Ok(Completed(callId, _, _, _))) => Waiting(Front(log)) - {callId}
      case Step(_, HostComplete(callId, _, _, _), Err(HandleLimit)) => Waiting(Front(log)) - {callId}
      case _ => Waiting(Front(log))
  }

  /** Whether the browser has what the operation needs. */
  predicate Detected(apis: BrowserApis, operation: HostOperation) {
    match operation
    case Activation(_, _) => true
    case StorageOpen(_) => apis.storage
    case StorageRead(_, _) => apis.storage
    case StorageWrite(_, _, _) => apis.storage
    case StorageClose(_) => apis.storage
    case Fetch(_, _, _) => apis.fetch
    case WebsocketOpen(_) => apis.websocket
    case WebsocketSend(_, _) => apis.websocket
    case WebsocketClose(_) => apis.websocket
    case ClipboardRead => apis.clipboard
    case ClipboardWrite(_) => apis.clipboard
    case Notification(_, _) => apis.notification
    case Permission(_, _) => apis.permissions
    case WakeLock(_) => apis.wakeLock
  }

  function Optional(present: bool, service: Service): seq<Service> {
    if present then [service] else []
  }

  lemma InOptional(front: seq<Service>, present: bool, service: Service, x: Service)
    ensures x in front + Optional(present, service) <==> x in front || (present && x == service)
  {
  }

  lemma ServicesOffer(apis: BrowserApis, x: Service)
    ensures x in ServicesOf(apis)
            <==> match x
                 case LifecycleService => true
                 case ActivationService => true
                 case StorageService => apis.storage
                 case FetchService => apis.fetch
                 case WebsocketService => apis.websocket
                 case ClipboardService => apis.clipboard
                 case NotificationService => apis.notification
                 case PermissionService => apis.permissions
                 case WakeLockService => apis.wakeLock
  {
    var a := [LifecycleService, ActivationService];
    var b := a + Optional(apis.storage, StorageService);
    var c := b + Optional(apis.fetch, FetchService);
    var d := c + Optional(apis.websocket, WebsocketService);
    var e := d + Optional(apis.clipboard, ClipboardService);
    var f := e + Optional(apis.notification, NotificationService);
    var g := f + Optional(apis.permissions, PermissionService);
    InOptional(a, apis.storage, StorageService, x);
    InOptional(b, apis.fetch, FetchService, x);
    InOptional(c, apis.websocket, WebsocketService, x);
    InOptional(d, apis.clipboard, ClipboardService, x);
    InOptional(e, apis.notification, NotificationService, x);
    InOptional(f, apis.permissions, PermissionService, x);
    InOptional(g, apis.wakeLock, WakeLockService, x);
    assert ServicesOf(apis) == g + Optional(apis.wakeLock, WakeLockService);
  }

  lemma ServicesAreDetected(apis: BrowserApis, operation: HostOperation)
    ensures ServiceOf(operation) in ServicesOf(apis) <==> Detected(apis, operation)
  {
    ServicesOffer(apis, ServiceOf(operation));
  }

  /** The capsule has the lifecycle, the services, the call numbers and the calls that its requests amount to. */
  ghost predicate Follows(s: State, log: seq<Step>, apis: BrowserApis, requests: seq<(string, Input)>) {
    && s.lifecycle == LifecycleOf(requests)
    && s.services == ServicesOf(ApisOf(apis, requests))
    && Tallies(s, log)
  }

  /** The pending calls and the next number are those that the history tells of. */
  predicate Tallies(s: State, log: seq<Step>) {
    s.nextCall == 1 + Issues(log) && s.pending.Keys == Waiting(log)
  }

  lemma IssueIsCounted(log: seq<Step>, step: Step)
    requires IsIssue(step)
    ensures Issues(log + [step]) == Issues(log) + 1
    ensures Waiting(log + [step]) == Waiting(log) + {step.reply.value.callId}
  {
    var longer := log + [step];
    assert Front(longer) == log && Last(longer) == step;
    assert step == Step(step.name, step.input, Ok(HostCallOutput(step.reply.value.callId, step.reply.value.service,
                                                                 step.reply.value.operation)));
  }

  lemma IssueTallies(s: State, after: State, log: seq<Step>, step: Step)
    requires Tallies(s, log) && IsIssue(step) && step.reply.value.callId == s.nextCall
    requires after.nextCall == s.nextCall + 1 && after.pending.Keys == s.pending.Keys + {s.nextCall}
    ensures Tallies(after, log + [step])
  {
    IssueIsCounted(log, step);
  }

  lemma CallTallies(blank: Blank, s: State, log: seq<Step>, name: string, input: Input)
    requires Tallies(s, log) && input.HostCall?
    ensures var (after, reply) := CallHost(blank, s, input.operation); Tallies(after, log + [Step(name, input, reply)])
  {
    var (after, reply) := CallHost(blank, s, input.operation);
    CallEffects(blank, s, input.operation);
    if reply.Ok? {
      IssueTallies(s, after, log, Step(name, input, reply));
    } else {
      OtherTallies(s, after, log, Step(name, input, reply));
    }
  }

  lemma UsedUpTallies(s: State, after: State, log: seq<Step>, step: Step, callId: u64)
    requires Tallies(s, log) && after.nextCall == s.nextCall && after.pending.Keys == s.pending.Keys - {callId}
    requires || (IsCompletion(step) && step.reply.value.callId == callId)
             || (step.input.HostComplete? && step.input.callId == callId && step.reply == Err(HandleLimit))
    ensures Tallies(after, log + [step])
  {
    assert Front(log + [step]) == log;
  }

  lemma CompletionTallies(s: State, log: seq<Step>, name: string, input: Input)
    requires Tallies(s, log) && input.HostComplete?
    ensures var (after, reply) := CompleteHost(s, input.callId, input.ok, input.payload, input.handle);
            Tallies(after, log + [Step(name, input, reply)])
  {
    var (after, reply) := CompleteHost(s, input.callId, input.ok, input.payload, input.handle);
    CompletionEffects(s, input);
    if reply.Ok? || reply.error.HandleLimit? {
      UsedUpTallies(s, after, log, Step(name, input, reply), input.callId);
    } else {
      OtherTallies(s, after, log, Step(name, input, reply));
    }
  }

  /** A step that is neither a host call nor a completion at most resets. */
  lemma OtherTallies(s: State, after: State, log: seq<Step>, step: Step)
    requires Tallies(s, log) && after.nextCall == s.nextCall
    requires !IsIssue(step) && !IsCompletion(step) && step.reply != Err(HandleLimit)
    requires after.pending == if IsReset(step) then map[] else s.pending
    ensures Tallies(after, log + [step])
  {
    assert Front(log + [step]) == log;
  }

  lemma DispatchTallies(blank: Blank, s: State, log: seq<Step>, name: string, input: Input)
    requires Tallies(s, log)
    ensures var (after, reply) := Dispatch(blank, s, name, input); Tallies(after, log + [Step(name, input, reply)])
  {
    if name == HOST_FUNCTION && input.HostCall? {
      CallTallies(blank, s, log, name, input);
    } else if name == COMPLETE_FUNCTION && input.HostComplete? {
      CompletionTallies(s, log, name, input);
    } else {
      OtherDispatchTallies(blank, s, log, name, input);
    }
  }

  lemma OtherDispatchTallies(blank: Blank, s: State, log: seq<Step>, name: string, input: Input)
    requires Tallies(s, log)
    requires !(name == HOST_FUNCTION && input.HostCall?) && !(name == COMPLETE_FUNCTION && input.HostComplete?)
    ensures var (after, reply) := Dispatch(blank, s, name, input); Tallies(after, log + [Step(name, input, reply)])
  {
    var (after, reply) := Dispatch(blank, s, name, input);
    OtherEffects(blank, s, name, input);
    OtherTallies(s, after, log, Step(name, input, reply));
  }

  lemma DispatchFollows(blank: Blank, s: State, log: seq<Step>, apis: BrowserApis, requests: seq<(string, Input)>)
    requires requests != [] && Follows(s, log, apis, requests[..|requests| - 1])
    ensures var (name, input) := requests[|requests| - 1];
            var (after, reply) := Dispatch(blank, s, name, input);
            Follows(after, log + [Step(name, input, reply)], apis, requests)
  {
    var (name, input) := requests[|requests| - 1];
    DispatchTallies(blank, s, log, name, input);
    DispatchSets(blank, s, name, input);
  }

  /** What a request does to the lifecycle and the services. */
  lemma DispatchSets(blank: Blank, s: State, name: string, input: Input)
    ensures var after := Dispatch(blank, s, name, input).0;
            && after.lifecycle
               == (if name == LIFECYCLE_FUNCTION && input.LifecycleInput? then input.state else s.lifecycle)
            && after.services
               == (if name == CARD_FUNCTION && input.CardInput? then ServicesOf(input.apis) else s.services)
  {
  }

  lemma {:induction false} RunFollowsRequests(blank: Blank, apis: BrowserApis, requests: seq<(string, Input)>)
    ensures Follows(Run(blank, apis, requests).0, Run(blank, apis, requests).1, apis, requests)
  {
    if requests != [] {
      var front := requests[..|requests| - 1];
      RunFollowsRequests(blank, apis, front);
      DispatchFollows(blank, Run(blank, apis, front).0, Run(blank, apis, front).1, apis, requests);
    }
  }

  predicate IsText(blank: Blank, text: Bytes) {
    !blank(text) && |text| <= 4096
  }

  predicate IsSecureUrl(blank: Blank, url: Bytes) {
    IsText(blank, url) && (Ascii("https://") <= url || Ascii("wss://") <= url)
  }

  /** Every text and payload of the operation is within its bound: 4 KiB of text, 512 KiB of payload. */
  predicate IsBounded(blank: Blank, operation: HostOperation) {
    match operation
    case Activation(name, payload) => IsText(blank, name) && |payload| <= 524288
    case StorageOpen(namespace) => IsText(blank, namespace)
    case StorageRead(_, key) => IsText(blank, key)
    case StorageWrite(_, key, bytes) => IsText(blank, key) && |bytes| <= 524288
    case StorageClose(_) => true
    case Fetch(url, httpMethod, body) => IsSecureUrl(blank, url) && IsText(blank, httpMethod) && |body| <= 524288
    case WebsocketOpen(url) => IsSecureUrl(blank, url)
    case WebsocketSend(_, bytes) => |bytes| <= 524288
    case WebsocketClose(_) => true
    case ClipboardRead => true
    case ClipboardWrite(text) => |text| <= 524288
    case Notification(title, body) => |title| + |body| <= 524288
    case Permission(name, _) => IsText(blank, name)
    case WakeLock(_) => true
  }

  lemma BoundsAreChecked(blank: Blank, operation: HostOperation)
    ensures ValidOperation(blank, operation) <==> IsBounded(blank, operation)
  {
  }

  /** What a host call is answered after a history: the first reason against it, or the next number. */
  ghost predicate CallAnswered(blank: Blank, apis: BrowserApis, requests: seq<(string, Input)>, log: seq<Step>,
                               operation: HostOperation, reply: Result<Output, Refusal>) {
    if LifecycleOf(requests) == Suspended || LifecycleOf(requests) == Stopped then reply == Err(NotActive)
    else if !IsBounded(blank, operation) then reply == Err(InvalidOperation)
    else if !Detected(ApisOf(apis, requests), operation) then reply == Err(UnsupportedService)
    else if |Waiting(log)| >= 256 then reply == Err(PendingLimit)
    else if exists handle :: WorksOn(operation, handle) && !OpenSinceReset(log, handle)
    then reply == Err(UnknownHandle)
    else if Issues(log) + 1 == 0xFFFF_FFFF_FFFF_FFFF then reply == Err(CallIdsExhausted)
    else && reply.Ok? && reply.value.HostCallOutput?
         && reply.value.callId == Issues(log) + 1 && reply.value.operation == operation
  }

  /** After any run, a host call is answered as the requests so far and their answers determine. */
  lemma CallsAreAnswered(blank: Blank, apis: BrowserApis, requests: seq<(string, Input)>, operation: HostOperation)
    ensures var (s, log) := Run(blank, apis, requests);
            var reply := Dispatch(blank, s, "platform/host-call", HostCall(operation)).1;
            CallAnswered(blank, apis, requests, log, operation, reply)
  {
    RunInvariant(blank, apis, requests);
    RunFollowsRequests(blank, apis, requests);
    var (s, log) := Run(blank, apis, requests);
    CallIsAnswered(blank, apis, requests, s, log, operation);
  }

  lemma HandleIsOpen(s: State, log: seq<Step>, operation: HostOperation)
    requires HandlesOk(s, log)
    ensures (UsedHandle(operation).Some? && UsedHandle(operation).value !in s.handles)
            <==> exists handle :: WorksOn(operation, handle) && !OpenSinceReset(log, handle)
  {
    if UsedHandle(operation).Some? && UsedHandle(operation).value !in s.handles {
      assert WorksOn(operation, UsedHandle(operation).value);
    }
  }

  lemma CallIsAnswered(blank: Blank, apis: BrowserApis, requests: seq<(string, Input)>, s: State, log: seq<Step>,
                       operation: HostOperation)
    requires Follows(s, log, apis, requests) && HandlesOk(s, log)
    ensures CallAnswered(blank, apis, requests, log, operation, CallHost(blank, s, operation).1)
  {
    BoundsAreChecked(blank, operation);
    ServicesAreDetected(ApisOf(apis, requests), operation);
    HandleIsOpen(s, log, operation);
    assert |s.pending| == |s.pending.Keys|;
  }

  /**
   After any run, a completion is refused if its payload is too long or its call is not waiting, and otherwise
   echoed, unless it carries a handle while 256 are open, not counting the one it closes.
   */
  lemma CompletionsAreAnswered(blank: Blank, apis: BrowserApis, requests: seq<(string, Input)>, callId: u64, ok: bool,
                               payload: Bytes, handle: Option<u32>, open: set<u32>)
    requires RemainsOpen(Run(blank, apis, requests).1, callId, ok, open)
    ensures var (s, log) := Run(blank, apis, requests);
            var reply := Dispatch(blank, s, "platform/host-complete", HostComplete(callId, ok, payload, handle)).1;
            CompletionAnswered(log, callId, ok, payload, handle, open, reply)
  {
    RunInvariant(blank, apis, requests);
    RunFollowsRequests(blank, apis, requests);
    var (s, log) := Run(blank, apis, requests);
    CompletionIsAnswered(s, log, callId, ok, payload, handle, open);
  }

  /** The handles that are open, not counting the one that the call would close. */
  ghost predicate RemainsOpen(log: seq<Step>, callId: u64, ok: bool, open: set<u32>) {
    callId in IssuedSinceReset(log) ==>
      forall h :: h in open <==> OpenSinceReset(log, h) && !(ok && IsClose(IssuedSinceReset(log)[callId], h))
  }

  predicate CompletionAnswered(log: seq<Step>, callId: u64, ok: bool, payload: Bytes, handle: Option<u32>,
                               open: set<u32>, reply: Result<Output, Refusal>) {
    if |payload| > 524288 then reply == Err(PayloadTooLarge)
    else if callId !in Waiting(log) then reply == Err(UnknownCall)
    else if handle.Some? && |open| >= 256 then reply == Err(HandleLimit)
    else reply == Ok(Completed(callId, ok, payload, handle))
  }

  lemma CompletionIsAnswered(s: State, log: seq<Step>, callId: u64, ok: bool, payload: Bytes, handle: Option<u32>,
                             open: set<u32>)
    requires Tallies(s, log) && CallsOk(s, log) && HandlesOk(s, log) && RemainsOpen(log, callId, ok, open)
    ensures CompletionAnswered(log, callId, ok, payload, handle, open, CompleteHost(s, callId, ok, payload, handle).1)
  {
    if callId in s.pending {
      RemainingIsLeft(s, log, callId, ok, open);
    }
  }

  lemma RemainingIsLeft(s: State, log: seq<Step>, callId: u64, ok: bool, open: set<u32>)
    requires callId in s.pending && CallsOk(s, log) && HandlesOk(s, log) && RemainsOpen(log, callId, ok, open)
    ensures open == HandlesLeft(s, callId, ok)
  {
    var operation := IssuedSinceReset(log)[callId];
    forall h: u32 ensures IsClose(operation, h) <==> s.pending[callId].closeHandle == Some(h) {
    }
  }

  /** What the recursive protocol predicate says about any two steps of a history. */
  lemma {:induction false} ProtocolAt(log: seq<Step>, i: nat, j: nat)
    requires KeepsProtocol(log) && i < j < |log|
    ensures IsIssue(log[i]) && IsIssue(log[j]) ==> log[i].reply.value.callId < log[j].reply.value.callId
    ensures IsCompletion(log[i]) && IsCompletion(log[j]) ==> log[i].reply.value.callId != log[j].reply.value.callId
  {
    if j == |log| - 1 {
      StepIsRecorded(Front(log), i);
    } else {
      ProtocolAt(Front(log), i, j);
    }
  }

  lemma {:induction false} StepIsRecorded(log: seq<Step>, i: nat)
    requires i < |log|
    ensures IsIssue(log[i]) ==> log[i].reply.value.callId in EverIssued(log)
    ensures IsCompletion(log[i]) ==> log[i].reply.value.callId in EverCompleted(log)
  {
    if i < |log| - 1 {
      StepIsRecorded(Front(log), i);
    }
  }

  // ---------- Exactly when a refusal changes something ----------

  /** The request completes a pending call with a handle for which there is no room. */
  predicate MeetsHandleLimit(s: State, name: string, input: Input) {
    && name == COMPLETE_FUNCTION && input.HostComplete?
    && |input.payload| <= MAX_HOST_PAYLOAD_BYTES && input.callId in s.pending && input.handle.Some?
    && |HandlesLeft(s, input.callId, input.ok)| >= MAX_HANDLES
  }

  lemma LimitIsRefused(blank: Blank, s: State, name: string, input: Input)
    ensures Dispatch(blank, s, name, input).1 == Err(HandleLimit) <==> MeetsHandleLimit(s, name, input)
  {
  }

  /** A refused request changes the state exactly when it is a completion whose handle has no room. */
  lemma RefusalsChangeNothing(blank: Blank, s: State, name: string, input: Input)
    requires Dispatch(blank, s, name, input).1.Err?
    ensures Dispatch(blank, s, name, input).0 == s <==> !MeetsHandleLimit(s, name, input)
  {
    if MeetsHandleLimit(s, name, input) {
      assert input.callId !in s.pending - {input.callId};
    }
  }

  function FirstHandles(n: nat): (handles: set<u32>)
    requires n <= MAX_HANDLES
    ensures forall h | h in handles :: 1 <= h <= n
  {
    if n == 0 then {} else FirstHandles(n - 1) + {n}
  }

  lemma {:induction false} CountFirst(n: nat)
    requires n <= MAX_HANDLES
    ensures |FirstHandles(n)| == n
  {
    if n > 0 {
      CountFirst(n - 1);
      OneHandleMore(FirstHandles(n - 1), n);
    }
  }

  lemma OneHandleMore(handles: set<u32>, handle: u32)
    requires handle !in handles
    ensures |handles + {handle}| == |handles| + 1
  {
  }

  function WithHandles(apis: BrowserApis, n: nat): State
    requires n <= MAX_HANDLES
  {
    State(ServicesOf(apis), Created, n + 1, map[], FirstHandles(n))
  }

  lemma RunOneMore(blank: Blank, apis: BrowserApis, requests: seq<(string, Input)>, name: string, input: Input)
    ensures Run(blank, apis, requests + [(name, input)]).0
         == Dispatch(blank, Run(blank, apis, requests).0, name, input).0
  {
    assert (requests + [(name, input)])[..|requests|] == requests;
  }

  /** The same capsule after it has issued one more call to open storage. */
  function Called(apis: BrowserApis, name: Bytes, n: nat): State
    requires n <= MAX_HANDLES
  {
    WithHandles(apis, n).(nextCall := n + 2, pending := map[n + 1 := PendingFor(StorageOpen(name))])
  }

  lemma CallsToOpen(blank: Blank, apis: BrowserApis, name: Bytes, n: nat)
    requires apis.storage && BoundedText(blank, name) && n <= MAX_HANDLES
    ensures Dispatch(blank, WithHandles(apis, n), HOST_FUNCTION, HostCall(StorageOpen(name))).0 == Called(apis, name, n)
  {
    assert StorageService in ServicesOf(apis);
  }

  lemma CompletesOpening(blank: Blank, apis: BrowserApis, name: Bytes, n: nat)
    requires n < MAX_HANDLES
    ensures Dispatch(blank, Called(apis, name, n), COMPLETE_FUNCTION, HostComplete(n + 1, true, [], Some(n + 1))).0
         == WithHandles(apis, n + 1)
  {
    CountFirst(n);
    assert map[n + 1 := PendingFor(StorageOpen(name))] - {n + 1} == map[];
  }

  lemma AfterCalling(blank: Blank, apis: BrowserApis, requests: seq<(string, Input)>, longer: seq<(string, Input)>,
                     name: Bytes, n: nat)
    requires apis.storage && BoundedText(blank, name) && n <= MAX_HANDLES
    requires Run(blank, apis, requests).0 == WithHandles(apis, n)
    requires longer == requests + [(HOST_FUNCTION, HostCall(StorageOpen(name)))]
    ensures Run(blank, apis, longer).0 == Called(apis, name, n)
  {
    RunOneMore(blank, apis, requests, HOST_FUNCTION, HostCall(StorageOpen(name)));
    CallsToOpen(blank, apis, name, n);
  }

  lemma AfterCompleting(blank: Blank, apis: BrowserApis, requests: seq<(string, Input)>, longer: seq<(string, Input)>,
                        name: Bytes, n: nat)
    requires n < MAX_HANDLES && Run(blank, apis, requests).0 == Called(apis, name, n)
    requires longer == requests + [(COMPLETE_FUNCTION, HostComplete(n + 1, true, [], Some(n + 1)))]
    ensures Run(blank, apis, longer).0 == WithHandles(apis, n + 1)
  {
    RunOneMore(blank, apis, requests, COMPLETE_FUNCTION, HostComplete(n + 1, true, [], Some(n + 1)));
    CompletesOpening(blank, apis, name, n);
  }

  /** A run that opens `n` storage handles, one call and one completion each. */
  lemma {:induction false} HandlesCanFill(blank: Blank, apis: BrowserApis, name: Bytes, n: nat)
    returns (requests: seq<(string, Input)>)
    requires apis.storage && BoundedText(blank, name) && n <= MAX_HANDLES
    ensures Run(blank, apis, requests).0 == WithHandles(apis, n)
  {
    if n == 0 {
      requests := [];
    } else {
      var before := HandlesCanFill(blank, apis, name, n - 1);
      var called := before + [(HOST_FUNCTION, HostCall(StorageOpen(name)))];
      AfterCalling(blank, apis, before, called, name, n - 1);
      requests := called + [(COMPLETE_FUNCTION, HostComplete(n - 1 + 1, true, [], Some(n - 1 + 1)))];
      AfterCompleting(blank, apis, called, requests, name, n - 1);
    }
  }

  /** Completing this pending call is refused and consumes it. */
  predicate LosesItsCall(blank: Blank, s: State, callId: u64, handle: u32) {
    var completion := HostComplete(callId, true, [], Some(handle));
    && callId in s.pending && MeetsHandleLimit(s, COMPLETE_FUNCTION, completion)
    && Dispatch(blank, s, COMPLETE_FUNCTION, completion)
       == (s.(pending := s.pending - {callId}), Err(HandleLimit))
  }

  lemma FullCapsule(blank: Blank, s: State, callId: u64, handle: u32)
    requires |s.handles| == MAX_HANDLES && callId in s.pending && s.pending[callId].closeHandle.None?
    ensures LosesItsCall(blank, s, callId, handle)
  {
  }

  lemma CallsWhenFull(blank: Blank, apis: BrowserApis, name: Bytes, n: nat) returns (requests: seq<(string, Input)>)
    requires apis.storage && BoundedText(blank, name) && n <= MAX_HANDLES
    ensures Run(blank, apis, requests).0 == Called(apis, name, n)
  {
    var opening := HandlesCanFill(blank, apis, name, n);
    requests := opening + [(HOST_FUNCTION, HostCall(StorageOpen(name)))];
    AfterCalling(blank, apis, opening, requests, name, n);
  }

  /** The limit can be met: some run fills the table and leaves a call whose completion is refused and lost. */
  lemma HandleLimitIsReachable(blank: Blank, apis: BrowserApis, name: Bytes, n: nat, handle: u32)
    requires apis.storage && BoundedText(blank, name) && n == MAX_HANDLES
    ensures exists requests ::
              && |Run(blank, apis, requests).0.handles| == n
              && LosesItsCall(blank, Run(blank, apis, requests).0, n + 1, handle)
  {
    var requests := CallsWhenFull(blank, apis, name, n);
    CountFirst(n);
    FullCapsule(blank, Run(blank, apis, requests).0, n + 1, handle);
  }

  // ---------- The mutable capsule ----------

  class Capsule {
    const blank: Blank
    var services: seq<Service>
    var lifecycle: Lifecycle
    var nextCall: u64
    var pending: map<u64, PendingCall>
    var handles: set<u32>

    function Value(): State
      reads this
    {
      State(services, lifecycle, nextCall, pending, handles)
    }

    constructor (blank: Blank, apis: BrowserApis)
      ensures Value() == Initial(apis) && this.blank == blank
    {
      this.blank := blank;
      services, lifecycle, nextCall := ServicesOf(apis), Created, 1;
      pending, handles := map[], {};
    }

    method DispatchInput(name: string, input: Input) returns (reply: Result<Output, Refusal>)
      modifies this
      ensures (Value(), reply) == Dispatch(blank, old(Value()), name, input)
    {
      match input {
      case CardInput(apis) =>
        if name == CARD_FUNCTION {
          services := ServicesOf(apis);
          return Ok(CardOutput(services));
        }
      case LifecycleInput(state) =>
        if name == LIFECYCLE_FUNCTION {
          lifecycle := state;
          if state.Suspended? || state.Stopped? {
            pending := map[];
            handles := {};
          }
          return Ok(LifecycleOutput(state));
        }
      case HostCall(operation) =>
        if name == HOST_FUNCTION {
          reply := IssueCall(operation);
          return;
        }
      case HostComplete(callId, ok, payload, handle) =>
        if name == COMPLETE_FUNCTION {
          reply := AcceptCompletion(callId, ok, payload, handle);
          return;
        }
      }
      if name == CARD_FUNCTION || name == LIFECYCLE_FUNCTION || name == HOST_FUNCTION || name == COMPLETE_FUNCTION {
        return Err(InputMismatch);
      }
      return Err(UnknownFunction);
    }

    method IssueCall(operation: HostOperation) returns (reply: Result<Output, Refusal>)
      modifies this
      ensures (Value(), reply) == CallHost(blank, old(Value()), operation)
    {
      if lifecycle.Suspended? || lifecycle.Stopped? {
        return Err(NotActive);
      }
      if !ValidOperation(blank, operation) {
        return Err(InvalidOperation);
      }
      var service := ServiceOf(operation);
      if service !in services {
        return Err(UnsupportedService);
      }
      if |pending| >= MAX_HANDLES {
        return Err(PendingLimit);
      }
      var used := UsedHandle(operation);
      if used.Some? && used.value !in handles {
        return Err(UnknownHandle);
      }
      var callId := nextCall;
      if nextCall == LAST_CALL_ID {
        return Err(CallIdsExhausted);
      }
      nextCall := nextCall + 1;
      pending := pending[callId := PendingCall(service, ClosedHandle(operation))];
      return Ok(HostCallOutput(callId, service, operation));
    }

    method AcceptCompletion(callId: u64, ok: bool, payload: Bytes, handle: Option<u32>)
      returns (reply: Result<Output, Refusal>)
      modifies this
      ensures (Value(), reply) == CompleteHost(old(Value()), callId, ok, payload, handle)
    {
      if |payload| > MAX_HOST_PAYLOAD_BYTES {
        return Err(PayloadTooLarge);
      }
      if callId !in pending {
        return Err(UnknownCall);
      }
      var call := pending[callId];
      pending := pending - {callId};
      if ok && call.closeHandle.Some? {
        handles := handles - {call.closeHandle.value};
      }
      if handle.Some? {
        if |handles| >= MAX_HANDLES {
          return Err(HandleLimit);
        }
        if ok && YieldsHandles(call.service) {
          handles := handles + {handle.value};
        }
      }
      return Ok(Completed(callId, ok, payload, handle));
    }
  }
}
