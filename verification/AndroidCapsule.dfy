/** Android continuity: atomic binding, restore and resumption across suspend, death and restart. */
module AndroidCapsule {
  import opened Common
  import opened Paths
  import Audio = AndroidAudio
  import Speech = AndroidSpeech

  datatype Lifecycle = Created | Active | Suspended | Stopped

  datatype AndroidEvent =
    | Rotation | ActivityRecreation | BackgroundRestriction | Suspend | ProcessDeath | Restart | MemoryPressure

  datatype Permission = Camera | Microphone | Notifications | SharedDocument

  /** A complete authority bundle: the content-addressed provider snapshot and the services bound to it. */
  datatype BindPlan =
    BindPlan(snapshotContentId: string, providers: map<string, string>, appPrivateMount: string,
             services: map<string, string>)

  datatype RestorePlan = RestorePlan(
    snapshotContentId: string, journalContentId: string, pendingTurn: Option<string>,
    permissionObservations: map<Permission, bool>)

  datatype ContentRef =
    | Table(mount: Name, key: Path)
    | Directory(mount: Name, relative: Path)
    | Content(mediaType: Bytes, bytes: Bytes)

  /** What keeps the capsule's resource count up. */
  datatype Resource = ActivationResource(action: Bytes) | NotificationResource(channel: Bytes)

  datatype Input =
    | Bind(plan: BindPlan)
    | Event(event: AndroidEvent)
    | Restore(restorePlan: RestorePlan)
    | SubmitTurn(contentId: string)
    | LifecycleChange(state: Lifecycle)
    | Activation(action: Bytes, content: Option<ContentRef>)
    | PermissionChange(permission: Permission, granted: bool)
    | Notification(channel: Bytes)
    | AudioInput(input: Audio.Input)
    | SpeechInput(speechInput: Speech.Input)
    | BackgroundExecution(allowed: bool)

  datatype Output = Output(
    lifecycle: Lifecycle, accepted: bool, resources: nat, snapshotContentId: Option<string>,
    resumedTurn: Option<string>, audioRoute: Option<Audio.Receipt>, speech: Option<Speech.Output>)

  datatype Refusal =
    | BadContentId | BadMount | IncompleteServices | ForeignProvider | NotBound | SnapshotMismatch
    | EmptyText | BadContentRef | AudioRefusal(error: Audio.AudioError)
    | SpeechRefusal(speechError: Speech.SpeechError) | InputMismatch | UnknownFunction

  datatype State = State(
    lifecycle: Option<Lifecycle>,
    permissions: map<Permission, bool>,
    resources: set<Resource>,
    backgroundAllowed: bool,
    binding: Option<BindPlan>,
    pendingTurn: Option<string>,
    resumedTurns: set<string>,
    audio: Audio.State,
    speech: Speech.State)

  const INITIAL := State(None, map[], {}, false, None, None, {}, Audio.INITIAL, Speech.INITIAL)

  const LIFECYCLE_FUNCTION := "platform/lifecycle"
  const ACTIVATION_FUNCTION := "platform/activation"
  const CONTINUITY_FUNCTION := "platform/continuity"
  const AUDIO_FUNCTION := "platform/android-audio"
  const SPEECH_FUNCTION := "platform/android-speech"

  const REQUIRED_SERVICES: set<string> :=
    {"mount/app-private", "lifecycle", "foreground", "permissions", "activations", "provider-table"}

  // ---------- Validation ----------

  predicate BoundToSnapshot(plan: BindPlan) {
    forall service | service in plan.services ::
      plan.services[service] in plan.providers && plan.providers[plan.services[service]] == plan.services[service]
  }

  function BindRefusal(plan: BindPlan): Option<Refusal> {
    if !Audio.IsContentId(plan.snapshotContentId) then Some(BadContentId)
    else if plan.appPrivateMount != "app-private" then Some(BadMount)
    else if plan.services.Keys != REQUIRED_SERVICES then Some(IncompleteServices)
    else if !BoundToSnapshot(plan) then Some(ForeignProvider)
    else None
  }

  predicate ValidRestore(plan: RestorePlan) {
    Audio.IsContentId(plan.snapshotContentId) && Audio.IsContentId(plan.journalContentId)
    && (plan.pendingTurn.Some? ==> Audio.IsContentId(plan.pendingTurn.value))
  }

  predicate ValidPart(part: Name) {
    part != [] && |part| <= 255 && part != [DOT, DOT] && SLASH !in part && BACKSLASH !in part
  }

  predicate ValidLocation(mount: Name, parts: Path) {
    mount != [] && |mount| <= 128 && SLASH !in mount && |parts| <= 32
    && forall k | 0 <= k < |parts| :: ValidPart(parts[k])
  }

  predicate ValidContentRef(blank: Blank, reference: ContentRef) {
    match reference
    case Table(mount, key) => ValidLocation(mount, key)
    case Directory(mount, relative) => ValidLocation(mount, relative)
    case Content(mediaType, bytes) => !blank(mediaType) && |mediaType| <= 255 && |bytes| <= 8 * 1024 * 1024
  }

  // ---------- The machine ----------

  function Idle(s: State): State {
    s.(resources := {}, audio := Audio.Released(s.audio), speech := Speech.Quiet(s.speech))
  }

  function ApplyEvent(s: State, event: AndroidEvent): State {
    match event
    case Rotation => s
    case ActivityRecreation => s
    case BackgroundRestriction => Idle(s).(backgroundAllowed := false, lifecycle := Some(Suspended))
    case Suspend => Idle(s).(backgroundAllowed := false, lifecycle := Some(Suspended))
    case ProcessDeath => Idle(s).(binding := None, lifecycle := Some(Stopped))
    case Restart => s.(lifecycle := Some(Created))
    case MemoryPressure => Idle(s)
  }

  function Continue(s: State, input: Input): (State, Result<Option<string>, Refusal>) {
    match input
    case Bind(plan) =>
      if BindRefusal(plan).Some? then (s, Err(BindRefusal(plan).value)) else (s.(binding := Some(plan)), Ok(None))
    case Event(event) => (ApplyEvent(s, event), Ok(None))
    case Restore(plan) =>
      if !ValidRestore(plan) then (s, Err(BadContentId))
      else if s.binding.None? then (s, Err(NotBound))
      else if s.binding.value.snapshotContentId != plan.snapshotContentId then (s, Err(SnapshotMismatch))
      else
        var restored := s.(permissions := plan.permissionObservations, pendingTurn := None);
        if plan.pendingTurn.None? || plan.pendingTurn.value in s.resumedTurns then (restored, Ok(None))
        else (restored.(resumedTurns := s.resumedTurns + {plan.pendingTurn.value}), Ok(plan.pendingTurn))
    case SubmitTurn(contentId) =>
      if !Audio.IsContentId(contentId) then (s, Err(BadContentId)) else (s.(pendingTurn := Some(contentId)), Ok(None))
    case _ => (s, Err(InputMismatch))
  }

  function OutputOf(s: State, accepted: bool, resumed: Option<string>, route: Option<Audio.Receipt>,
                    speech: Option<Speech.Output>): Output
  {
    Output(if s.lifecycle.Some? then s.lifecycle.value else Created, accepted, |s.resources|,
           if s.binding.Some? then Some(s.binding.value.snapshotContentId) else None, resumed, route, speech)
  }

  /** The state after a request that is neither continuity, audio nor speech, and whether it was accepted. */
  function Activate(blank: Blank, s: State, name: string, input: Input): (State, Result<bool, Refusal>) {
    if name == LIFECYCLE_FUNCTION && input.LifecycleChange? then
      var changed := s.(lifecycle := Some(input.state));
      (if input.state.Suspended? || input.state.Stopped? then Idle(changed).(backgroundAllowed := false) else changed,
       Ok(true))
    else if name == ACTIVATION_FUNCTION && input.Activation? then
      if blank(input.action) then (s, Err(EmptyText))
      else if input.content.Some? && !ValidContentRef(blank, input.content.value) then (s, Err(BadContentRef))
      else if s.lifecycle == Some(Suspended) || s.lifecycle == Some(Stopped) then (s, Ok(false))
      else (s.(resources := s.resources + {ActivationResource(input.action)}), Ok(true))
    else if name == ACTIVATION_FUNCTION && input.PermissionChange? then
      var changed := s.(permissions := s.permissions[input.permission := input.granted]);
      (if input.permission.Microphone? && !input.granted then changed.(speech := Speech.Quiet(s.speech)) else changed,
       Ok(input.granted))
    else if name == ACTIVATION_FUNCTION && input.Notification? then
      if blank(input.channel) then (s, Err(EmptyText))
      else
        var resource := NotificationResource(input.channel);
        (s.(resources := s.resources + {resource}), Ok(resource !in s.resources))
    else if name == ACTIVATION_FUNCTION && input.BackgroundExecution? then
      (s.(backgroundAllowed := input.allowed), Ok(input.allowed))
    else if name in {LIFECYCLE_FUNCTION, ACTIVATION_FUNCTION, AUDIO_FUNCTION, SPEECH_FUNCTION}
    then (s, Err(InputMismatch))
    else (s, Err(UnknownFunction))
  }

  function Dispatch(blank: Blank, s: State, name: string, input: Input): (State, Result<Output, Refusal>) {
    if name == CONTINUITY_FUNCTION then
      var (after, reply) := Continue(s, input);
      (after, match reply
              case Err(e) => Err(e)
              case Ok(resumed) => Ok(OutputOf(after, true, resumed, None, None)))
    else if name == AUDIO_FUNCTION && input.AudioInput? then
      var (audio, reply) := Audio.Dispatch(s.audio, input.input);
      var after := s.(audio := audio);
      (after, match reply
              case Err(e) => Err(AudioRefusal(e))
              case Ok(receipt) => Ok(OutputOf(after, audio.session.Some?, None, receipt, None)))
    else if name == SPEECH_FUNCTION && input.SpeechInput? then
      var (speech, reply) := Speech.Dispatch(blank, s.speech, input.speechInput);
      var after := s.(speech := speech);
      (after, match reply
              case Err(e) => Err(SpeechRefusal(e))
              case Ok(output) => Ok(OutputOf(after, Speech.IsAvailable(output), None, None, Some(output))))
    else
      var (after, reply) := Activate(blank, s, name, input);
      (after, match reply
              case Err(e) => Err(e)
              case Ok(accepted) => Ok(OutputOf(after, accepted, None, None, None)))
  }

  // ---------- Properties of every run ----------

  /** A held binding covers exactly the required services, each by a provider of its own snapshot. */
  predicate Covering(plan: BindPlan) {
    && Audio.IsContentId(plan.snapshotContentId) && plan.appPrivateMount == "app-private"
    && plan.services.Keys
       == {"mount/app-private", "lifecycle", "foreground", "permissions", "activations", "provider-table"}
    && forall service | service in plan.services ::
         var provider := plan.services[service]; provider in plan.providers && plan.providers[provider] == provider
  }

  /** A state with the turns emitted as resumed, the audio generations accepted, and the speech steps, in order. */
  datatype Trace = Trace(s: State, resumed: seq<string>, generations: seq<u64>, spoken: seq<Speech.Step>)

  ghost predicate Safe(blank: Blank, t: Trace) {
    && Continuous(t.s, t.resumed)
    && Audio.GenerationsIncrease(Audio.Trace(t.s.audio, t.generations))
    && Speech.Consistent(blank, t.s.speech, t.spoken)
  }

  function Next(blank: Blank, t: Trace, name: string, input: Input): Trace {
    var (s, reply) := Dispatch(blank, t.s, name, input);
    Trace(s,
          t.resumed + (if reply.Ok? && reply.value.resumedTurn.Some? then [reply.value.resumedTurn.value] else []),
          t.generations
          + (if name == AUDIO_FUNCTION && input.AudioInput? && input.input.Route? && reply.Ok?
             then [input.input.observation.generation] else []),
          t.spoken + SpeechSteps(blank, t.s, name, input))
  }

  /** Suspending, stopping, being restricted, dying and memory pressure force audio and speech to end. */
  predicate ForcesRelease(name: string, input: Input) {
    || (name == LIFECYCLE_FUNCTION && input.LifecycleChange? && (input.state.Suspended? || input.state.Stopped?))
    || (name == CONTINUITY_FUNCTION && input.Event?
        && !input.event.Rotation? && !input.event.ActivityRecreation? && !input.event.Restart?)
  }

  predicate LosesMicrophone(name: string, input: Input) {
    name == ACTIVATION_FUNCTION && input.PermissionChange? && input.permission.Microphone? && !input.granted
  }

  /** What a request means for the speech part. */
  function SpeechSteps(blank: Blank, s: State, name: string, input: Input): seq<Speech.Step> {
    if name == SPEECH_FUNCTION && input.SpeechInput? then
      [Speech.Answered(Speech.Dispatch(blank, s.speech, input.speechInput).1)]
    else if ForcesRelease(name, input) || LosesMicrophone(name, input) then [Speech.Forced]
    else []
  }

  lemma SpeechFollows(blank: Blank, s: State, name: string, input: Input)
    ensures var after := Dispatch(blank, s, name, input).0.speech;
            after == if name == SPEECH_FUNCTION && input.SpeechInput?
                     then Speech.Dispatch(blank, s.speech, input.speechInput).0
                     else if ForcesRelease(name, input) || LosesMicrophone(name, input) then Speech.Quiet(s.speech)
                     else s.speech
  {
  }

  lemma SpeechMoves(blank: Blank, t: Trace, name: string, input: Input)
    requires Speech.Consistent(blank, t.s.speech, t.spoken)
    ensures Speech.Consistent(blank, Next(blank, t, name, input).s.speech, Next(blank, t, name, input).spoken)
  {
    SpeechFollows(blank, t.s, name, input);
    assert t.spoken + [] == t.spoken;
    if name == SPEECH_FUNCTION && input.SpeechInput? {
      Speech.DispatchIsConsistent(blank, t.s.speech, t.spoken, input.speechInput);
    } else if ForcesRelease(name, input) || LosesMicrophone(name, input) {
      Speech.ReleaseIsConsistent(blank, t.s.speech, t.spoken);
    }
  }

  /** The audio event a request amounts to, if it touches the audio part at all. */
  function AudioEvent(name: string, input: Input): Option<Audio.Event> {
    if name == AUDIO_FUNCTION && input.AudioInput? then Some(Audio.Request(input.input))
    else if ForcesRelease(name, input) then Some(Audio.Release)
    else None
  }

  lemma AudioFollows(blank: Blank, t: Trace, name: string, input: Input)
    ensures var t' := Next(blank, t, name, input);
            var before, after := Audio.Trace(t.s.audio, t.generations), Audio.Trace(t'.s.audio, t'.generations);
            after == if AudioEvent(name, input).Some? then Audio.Next(before, AudioEvent(name, input).value) else before
  {
    assert t.generations + [] == t.generations;
  }

  lemma AudioMoves(blank: Blank, t: Trace, name: string, input: Input)
    requires Audio.GenerationsIncrease(Audio.Trace(t.s.audio, t.generations))
    ensures var t' := Next(blank, t, name, input);
            Audio.GenerationsIncrease(Audio.Trace(t'.s.audio, t'.generations))
  {
    AudioFollows(blank, t, name, input);
    if AudioEvent(name, input).Some? {
      Audio.NextIncreases(Audio.Trace(t.s.audio, t.generations), AudioEvent(name, input).value);
    }
  }

  /** The binding is valid, and the turns recorded as resumed are the ones emitted, each once. */
  predicate Continuous(s: State, resumed: seq<string>) {
    && (s.binding.Some? ==> Covering(s.binding.value))
    && s.resumedTurns == (set id | id in resumed)
    && (forall i, j | 0 <= i < j < |resumed| :: resumed[i] != resumed[j])
  }

  function Emitted(resumed: Option<string>): seq<string> {
    if resumed.Some? then [resumed.value] else []
  }

  lemma ContinueStaysContinuous(s: State, resumed: seq<string>, input: Input)
    requires Continuous(s, resumed)
    ensures var (after, reply) := Continue(s, input);
            Continuous(after, resumed + Emitted(if reply.Ok? then reply.value else None))
  {
    assert resumed + [] == resumed;
  }

  lemma ContinuityMoves(blank: Blank, t: Trace, name: string, input: Input)
    requires Continuous(t.s, t.resumed)
    ensures Continuous(Next(blank, t, name, input).s, Next(blank, t, name, input).resumed)
  {
    assert t.resumed + [] == t.resumed;
    if name == CONTINUITY_FUNCTION {
      ContinueStaysContinuous(t.s, t.resumed, input);
    }
  }

  function Run(blank: Blank, requests: seq<(string, Input)>): Trace {
    if requests == [] then Trace(INITIAL, [], [], [])
    else
      var last := requests[|requests| - 1];
      Next(blank, Run(blank, requests[..|requests| - 1]), last.0, last.1)
  }

  /**
   Over every run of one capsule no turn is ever emitted as resumed twice, a held binding always covers
   exactly the required services, the audio session, focus and route stay in step while accepted route
   generations increase, and the speech activity is what the answers tell of, on a tier known to be local.
   */
  lemma {:induction false} EveryRunIsSafe(blank: Blank, requests: seq<(string, Input)>)
    ensures Safe(blank, Run(blank, requests))
  {
    if requests != [] {
      var t, last := Run(blank, requests[..|requests| - 1]), requests[|requests| - 1];
      EveryRunIsSafe(blank, requests[..|requests| - 1]);
      ContinuityMoves(blank, t, last.0, last.1);
      AudioMoves(blank, t, last.0, last.1);
      SpeechMoves(blank, t, last.0, last.1);
    }
  }

  /**
   A transcript is accepted only while a transcription is going on that nothing has ended: after a suspension, a
   death or the loss of the microphone it is refused until a new one has been started.
   */
  lemma TranscriptsNeedAListener(blank: Blank, requests: seq<(string, Input)>, language: Name, text: Bytes)
    ensures var t := Run(blank, requests);
            var (after, reply) := Dispatch(blank, t.s, SPEECH_FUNCTION, SpeechInput(Speech.Transcript(language, text)));
            reply.Ok? <==> Speech.ActiveAfter(t.spoken) == Some(Speech.Transcribe)
  {
    EveryRunIsSafe(blank, requests);
  }

  /** A refused request changes nothing. */
  lemma RefusalsChangeNothing(blank: Blank, s: State, name: string, input: Input)
    requires Audio.Consistent(s.audio) && Dispatch(blank, s, name, input).1.Err?
    ensures Dispatch(blank, s, name, input).0 == s
  {
    if input.AudioInput? {
      Audio.DispatchIsConsistent(s.audio, input.input);
    }
  }

  /** After process death nothing resumes until a valid plan has been bound again. */
  lemma DeathUnbinds(blank: Blank, s: State, plan: RestorePlan)
    ensures var dead := Dispatch(blank, s, CONTINUITY_FUNCTION, Event(ProcessDeath)).0;
            && dead.audio.session.None? && dead.speech.active.None? && dead.resources == {}
            && dead.resumedTurns == s.resumedTurns
            && Dispatch(blank, dead, CONTINUITY_FUNCTION, Restore(plan)).1.Err?
  {
  }

  // ---------- What a run of requests amounts to ----------

  /** The requests before the last one. */
  function Front(requests: seq<(string, Input)>): seq<(string, Input)>
    requires requests != []
  {
    requests[..|requests| - 1]
  }

  function Last(requests: seq<(string, Input)>): (string, Input)
    requires requests != []
  {
    requests[|requests| - 1]
  }

  /** The snapshot that is bound: that of the last plan that covers every service, unless the process died since. */
  function SnapshotOf(requests: seq<(string, Input)>): Option<string> {
    if requests == [] then None
    else
      match Last(requests)
      case ("platform/continuity", Bind(plan)) =>
        if Covering(plan) then Some(plan.snapshotContentId) else SnapshotOf(Front(requests))
      case ("platform/continuity", Event(ProcessDeath)) => None
      case _ => SnapshotOf(Front(requests))
  }

  predicate AreContentIds(plan: RestorePlan) {
    Audio.IsContentId(plan.snapshotContentId) && Audio.IsContentId(plan.journalContentId)
    && (plan.pendingTurn == None || Audio.IsContentId(plan.pendingTurn.value))
  }

  /** After `requests`, restoring `plan` is what the bound snapshot allows. */
  predicate Restorable(requests: seq<(string, Input)>, plan: RestorePlan) {
    AreContentIds(plan) && SnapshotOf(requests) == Some(plan.snapshotContentId)
  }

  /** Request `k` restores the turn `id`. */
  predicate RestoresTurn(requests: seq<(string, Input)>, k: nat, id: string)
    requires k < |requests|
  {
    match requests[k]
    case ("platform/continuity", Restore(plan)) => Restorable(requests[..k], plan) && plan.pendingTurn == Some(id)
    case _ => false
  }

  predicate WasRestored(requests: seq<(string, Input)>, id: string) {
    exists k :: 0 <= k < |requests| && RestoresTurn(requests, k, id)
  }

  /** The lifecycle last set by a request or by an event of the system. */
  function LifecycleOf(requests: seq<(string, Input)>): Option<Lifecycle> {
    if requests == [] then None
    else
      match Last(requests)
      case ("platform/lifecycle", LifecycleChange(state)) => Some(state)
      case ("platform/continuity", Event(BackgroundRestriction)) => Some(Suspended)
      case ("platform/continuity", Event(Suspend)) => Some(Suspended)
      case ("platform/continuity", Event(ProcessDeath)) => Some(Stopped)
      case ("platform/continuity", Event(Restart)) => Some(Created)
      case _ => LifecycleOf(Front(requests))
  }

  /** What is known of the permissions: the observations of the last restore, and each change since. */
  function PermissionsOf(requests: seq<(string, Input)>): map<Permission, bool> {
    if requests == [] then map[]
    else
      match Last(requests)
      case ("platform/continuity", Restore(plan)) =>
        if Restorable(Front(requests), plan) then plan.permissionObservations else PermissionsOf(Front(requests))
      case ("platform/activation", PermissionChange(permission, granted)) =>
        PermissionsOf(Front(requests))[permission := granted]
      case _ => PermissionsOf(Front(requests))
  }

  /** Nothing is activated while suspended or stopped. */
  predicate MayActivate(requests: seq<(string, Input)>) {
    LifecycleOf(requests) != Some(Suspended) && LifecycleOf(requests) != Some(Stopped)
  }

  /** The activations and notifications since the last thing that releases all resources. */
  function ResourcesOf(blank: Blank, requests: seq<(string, Input)>): set<Resource> {
    if requests == [] then {}
    else
      var before := ResourcesOf(blank, Front(requests));
      match Last(requests)
      case ("platform/lifecycle", LifecycleChange(Suspended)) => {}
      case ("platform/lifecycle", LifecycleChange(Stopped)) => {}
      case ("platform/continuity", Event(BackgroundRestriction)) => {}
      case ("platform/continuity", Event(Suspend)) => {}
      case ("platform/continuity", Event(ProcessDeath)) => {}
      case ("platform/continuity", Event(MemoryPressure)) => {}
      case ("platform/activation", Activation(action, content)) =>
        if !blank(action) && (content == None || ValidContentRef(blank, content.value)) && MayActivate(Front(requests))
        then before + {ActivationResource(action)} else before
      case ("platform/activation", Notification(channel)) =>
        if blank(channel) then before else before + {NotificationResource(channel)}
      case _ => before
  }

  /** Background work is allowed by a request only, until the next suspension or stop. */
  predicate BackgroundAfter(requests: seq<(string, Input)>) {
    requests != [] &&
    match Last(requests)
    case ("platform/activation", BackgroundExecution(allowed)) => allowed
    case ("platform/lifecycle", LifecycleChange(Suspended)) => false
    case ("platform/lifecycle", LifecycleChange(Stopped)) => false
    case ("platform/continuity", Event(BackgroundRestriction)) => false
    case ("platform/continuity", Event(Suspend)) => false
    case _ => BackgroundAfter(Front(requests))
  }

  /** The turn last submitted, unless a restore has taken its place since. */
  function PendingOf(requests: seq<(string, Input)>): Option<string> {
    if requests == [] then None
    else
      match Last(requests)
      case ("platform/continuity", SubmitTurn(id)) =>
        if Audio.IsContentId(id) then Some(id) else PendingOf(Front(requests))
      case ("platform/continuity", Restore(plan)) =>
        if Restorable(Front(requests), plan) then None else PendingOf(Front(requests))
      case _ => PendingOf(Front(requests))
  }

  /** The capsule has the binding, the lifecycle, the permissions and the resources that its requests amount to. */
  predicate Follows(blank: Blank, s: State, requests: seq<(string, Input)>) {
    && (match s.binding
        case None => SnapshotOf(requests) == None
        case Some(plan) => SnapshotOf(requests) == Some(plan.snapshotContentId))
    && s.lifecycle == LifecycleOf(requests) && s.pendingTurn == PendingOf(requests)
    && s.permissions == PermissionsOf(requests)
    && s.resources == ResourcesOf(blank, requests)
    && s.backgroundAllowed == BackgroundAfter(requests)
  }

  lemma RestoreFollows(blank: Blank, s: State, requests: seq<(string, Input)>)
    requires requests != [] && Follows(blank, s, Front(requests)) && Last(requests).0 == CONTINUITY_FUNCTION
    requires Last(requests).1.Restore?
    ensures Follows(blank, Continue(s, Last(requests).1).0, requests)
  {
  }

  lemma EventFollows(blank: Blank, s: State, requests: seq<(string, Input)>)
    requires requests != [] && Follows(blank, s, Front(requests)) && Last(requests).0 == CONTINUITY_FUNCTION
    requires Last(requests).1.Event?
    ensures Follows(blank, Continue(s, Last(requests).1).0, requests)
  {
  }

  lemma ContinueFollows(blank: Blank, s: State, requests: seq<(string, Input)>)
    requires requests != [] && Follows(blank, s, Front(requests)) && Last(requests).0 == CONTINUITY_FUNCTION
    ensures Follows(blank, Continue(s, Last(requests).1).0, requests)
  {
    match Last(requests).1
    case Restore(_) => RestoreFollows(blank, s, requests);
    case Event(_) => EventFollows(blank, s, requests);
    case _ =>
  }

  lemma ActivateFollows(blank: Blank, s: State, requests: seq<(string, Input)>)
    requires requests != [] && Follows(blank, s, Front(requests)) && Last(requests).0 != CONTINUITY_FUNCTION
    ensures Follows(blank, Activate(blank, s, Last(requests).0, Last(requests).1).0, requests)
  {
  }

  lemma {:induction false} RunFollowsRequests(blank: Blank, requests: seq<(string, Input)>)
    ensures Follows(blank, Run(blank, requests).s, requests)
  {
    if requests != [] {
      var s := Run(blank, Front(requests)).s;
      RunFollowsRequests(blank, Front(requests));
      if Last(requests).0 == CONTINUITY_FUNCTION {
        ContinueFollows(blank, s, requests);
      } else {
        ActivateFollows(blank, s, requests);
      }
    }
  }

  lemma TurnsAreRecorded(blank: Blank, requests: seq<(string, Input)>)
    ensures Run(blank, requests).s.resumedTurns == (set id | id in Run(blank, requests).resumed)
  {
    EveryRunIsSafe(blank, requests);
  }

  /**
   After any run, a restore of a plan for the bound snapshot is accepted, takes over the permissions the plan has
   observed, and answers its pending turn as resumed exactly if that has not been answered before. Any other restore
   is refused and says why.
   */
  lemma RestoreAnswers(blank: Blank, requests: seq<(string, Input)>, plan: RestorePlan)
    ensures RestoreAnswered(blank, Run(blank, requests), SnapshotOf(requests), plan)
  {
    RunFollowsRequests(blank, requests);
    TurnsAreRecorded(blank, requests);
    RestoreIn(blank, Run(blank, requests), SnapshotOf(requests), plan);
  }

  ghost predicate RestoreAnswered(blank: Blank, t: Trace, snapshot: Option<string>, plan: RestorePlan) {
    var (after, reply) := Dispatch(blank, t.s, "platform/continuity", Restore(plan));
    if !AreContentIds(plan) then reply == Err(BadContentId) && after == t.s
    else if snapshot == None then reply == Err(NotBound) && after == t.s
    else if snapshot != Some(plan.snapshotContentId) then reply == Err(SnapshotMismatch) && after == t.s
    else && reply.Ok? && reply.value.accepted && after.permissions == plan.permissionObservations
         && reply.value.snapshotContentId == Some(plan.snapshotContentId)
         && (forall id :: reply.value.resumedTurn == Some(id) <==> plan.pendingTurn == Some(id) && id !in t.resumed)
  }

  lemma RestoreIn(blank: Blank, t: Trace, snapshot: Option<string>, plan: RestorePlan)
    requires t.s.resumedTurns == (set id | id in t.resumed)
    requires match t.s.binding
             case None => snapshot == None
             case Some(bound) => snapshot == Some(bound.snapshotContentId)
    ensures RestoreAnswered(blank, t, snapshot, plan)
  {
  }

  lemma RestoredBefore(requests: seq<(string, Input)>, id: string)
    requires requests != []
    ensures WasRestored(requests, id)
            <==> WasRestored(Front(requests), id) || RestoresTurn(requests, |requests| - 1, id)
  {
    forall k | 0 <= k < |requests| - 1
      ensures RestoresTurn(Front(requests), k, id) <==> RestoresTurn(requests, k, id)
    {
      assert Front(requests)[..k] == requests[..k];
    }
  }

  lemma OneMoreTurn(blank: Blank, t: Trace, name: string, input: Input)
    ensures var t', output := Next(blank, t, name, input), Dispatch(blank, t.s, name, input).1;
            && (output.Ok? && output.value.resumedTurn.Some? ==> name == CONTINUITY_FUNCTION && input.Restore?)
            && (forall id :: id in t'.resumed
                             <==> id in t.resumed || (output.Ok? && output.value.resumedTurn == Some(id)))
  {
  }

  lemma {:induction false} ResumedIsRestored(blank: Blank, requests: seq<(string, Input)>, id: string)
    ensures id in Run(blank, requests).resumed <==> WasRestored(requests, id)
  {
    if requests != [] {
      var t := Run(blank, Front(requests));
      var (name, input) := Last(requests);
      ResumedIsRestored(blank, Front(requests), id);
      RestoredBefore(requests, id);
      OneMoreTurn(blank, t, name, input);
      if name == CONTINUITY_FUNCTION && input.Restore? {
        RestoreAnswers(blank, Front(requests), input.restorePlan);
      }
    }
  }

  /** A turn has been answered as resumed, and then once, exactly if it has been restored at least once. */
  lemma RestoredTurnsResumeOnce(blank: Blank, requests: seq<(string, Input)>, id: string)
    ensures multiset(Run(blank, requests).resumed)[id] == if WasRestored(requests, id) then 1 else 0
  {
    EveryRunIsSafe(blank, requests);
    OccursOnce(Run(blank, requests).resumed, id);
    ResumedIsRestored(blank, requests, id);
  }

  lemma {:induction false} OccursOnce(ids: seq<string>, id: string)
    requires forall i, j | 0 <= i < j < |ids| :: ids[i] != ids[j]
    ensures multiset(ids)[id] == if id in ids then 1 else 0
  {
    if ids != [] {
      OccursOnce(ids[1..], id);
      assert ids == [ids[0]] + ids[1..];
    }
  }

  /** An accepted request is answered with the lifecycle, resources and snapshot that all requests amount to. */
  lemma OutputsTell(blank: Blank, requests: seq<(string, Input)>)
    requires requests != []
    ensures var t, last := Run(blank, Front(requests)), Last(requests);
            var reply := Dispatch(blank, t.s, last.0, last.1).1;
            reply.Ok? ==>
              && reply.value.lifecycle == (if LifecycleOf(requests).Some? then LifecycleOf(requests).value else Created)
              && reply.value.resources == |ResourcesOf(blank, requests)|
              && reply.value.snapshotContentId == SnapshotOf(requests)
  {
    RunFollowsRequests(blank, requests);
  }

  /** A mount name is bounded and has no slash. */
  predicate IsMount(mount: Name) {
    1 <= |mount| <= 128 && forall c | c in mount :: c != 0x2F
  }

  /** At most thirty-two bounded parts, none of which leads upwards or holds a slash of either kind. */
  predicate IsRelative(parts: Path) {
    |parts| <= 32
    && forall part | part in parts ::
         1 <= |part| <= 255 && part != [0x2E, 0x2E] && forall c | c in part :: c != 0x2F && c != 0x5C
  }

  predicate IsReference(blank: Blank, reference: ContentRef) {
    match reference
    case Table(mount, key) => IsMount(mount) && IsRelative(key)
    case Directory(mount, relative) => IsMount(mount) && IsRelative(relative)
    case Content(mediaType, bytes) => !blank(mediaType) && |mediaType| <= 255 && |bytes| <= 8388608
  }

  lemma ReferencesAreChecked(blank: Blank, reference: ContentRef)
    ensures ValidContentRef(blank, reference) <==> IsReference(blank, reference)
  {
    match reference
    case Table(mount, key) => LocationsAreChecked(mount, key);
    case Directory(mount, relative) => LocationsAreChecked(mount, relative);
    case Content(_, _) =>
  }

  lemma LocationsAreChecked(mount: Name, parts: Path)
    ensures ValidLocation(mount, parts) <==> IsMount(mount) && IsRelative(parts)
  {
    assert IsRelative(parts) ==> forall k | 0 <= k < |parts| :: parts[k] in parts;
  }

  ghost predicate ActivationAnswered(blank: Blank, s: State, requests: seq<(string, Input)>, input: Input) {
    var (after, reply) := Dispatch(blank, s, "platform/activation", input);
    match input
    case Activation(action, content) =>
      if blank(action) then reply == Err(EmptyText)
      else if content.Some? && !IsReference(blank, content.value) then reply == Err(BadContentRef)
      else reply.Ok? && (reply.value.accepted <==> MayActivate(requests))
    case PermissionChange(permission, granted) =>
      && reply.Ok? && reply.value.accepted == granted
      && (permission == Microphone && !granted ==> after.speech.active == None)
    case Notification(channel) =>
      if blank(channel) then reply == Err(EmptyText)
      else && reply.Ok?
           && (reply.value.accepted <==> NotificationResource(channel) !in ResourcesOf(blank, requests))
    case BackgroundExecution(allowed) => reply.Ok? && reply.value.accepted == allowed
    case _ => reply == Err(InputMismatch)
  }

  /** What a request to activate something is answered, after any run. */
  lemma ActivationAnswers(blank: Blank, requests: seq<(string, Input)>, input: Input)
    ensures ActivationAnswered(blank, Run(blank, requests).s, requests, input)
  {
    RunFollowsRequests(blank, requests);
    ActivationIn(blank, Run(blank, requests).s, requests, input);
  }

  lemma ActivationIn(blank: Blank, s: State, requests: seq<(string, Input)>, input: Input)
    requires Follows(blank, s, requests)
    ensures ActivationAnswered(blank, s, requests, input)
  {
    if input.Activation? && input.content.Some? {
      ReferencesAreChecked(blank, input.content.value);
    }
  }

  /** A plan is bound exactly if it covers every service from its own snapshot; otherwise the first reason is told. */
  lemma BindAnswers(blank: Blank, s: State, plan: BindPlan)
    ensures var (after, reply) := Dispatch(blank, s, "platform/continuity", Bind(plan));
            if Covering(plan) then reply.Ok? && reply.value.accepted && after == s.(binding := Some(plan))
            else && after == s
                 && reply == Err(if !Audio.IsContentId(plan.snapshotContentId) then BadContentId
                                 else if plan.appPrivateMount != "app-private" then BadMount
                                 else if plan.services.Keys
                                         == {"mount/app-private", "lifecycle", "foreground", "permissions",
                                             "activations", "provider-table"}
                                 then ForeignProvider else IncompleteServices)
  {
  }

  /** A turn is submitted exactly if it has a proper identity. */
  lemma SubmitAnswers(blank: Blank, s: State, id: string)
    ensures var (after, reply) := Dispatch(blank, s, "platform/continuity", SubmitTurn(id));
            if Audio.IsContentId(id) then reply.Ok? && reply.value.accepted && reply.value.resumedTurn == None
            else reply == Err(BadContentId) && after == s
  {
  }

  // ---------- The audio and the speech part within the capsule ----------

  /** The audio events that the requests amount to. */
  function AudioEvents(requests: seq<(string, Input)>): seq<Audio.Event> {
    if requests == [] then []
    else
      AudioEvents(Front(requests))
      + match AudioEvent(Last(requests).0, Last(requests).1) case None => [] case Some(event) => [event]
  }

  lemma {:induction false} AudioPartRuns(blank: Blank, requests: seq<(string, Input)>)
    ensures Audio.Trace(Run(blank, requests).s.audio, Run(blank, requests).generations)
         == Audio.Run(AudioEvents(requests))
  {
    if requests != [] {
      AudioPartRuns(blank, Front(requests));
      AudioFollows(blank, Run(blank, Front(requests)), Last(requests).0, Last(requests).1);
      var before := AudioEvents(Front(requests));
      match AudioEvent(Last(requests).0, Last(requests).1)
      case None => assert before + [] == before;
      case Some(event) => assert (before + [event])[..|before|] == before;
    }
  }

  /** The capsule answers an audio input with the receipt or the refusal of its audio part, and nothing else. */
  predicate TellsOfAudio(reply: Result<Output, Refusal>, own: Result<Option<Audio.Receipt>, Audio.AudioError>,
                         armed: bool) {
    match own
    case Err(e) => reply == Err(AudioRefusal(e))
    case Ok(receipt) =>
      && reply.Ok? && reply.value.audioRoute == receipt && reply.value.accepted == armed
      && reply.value.speech == None && reply.value.resumedTurn == None
  }

  /** After any run, an audio input is answered as the audio events so far determine. */
  lemma AudioIsAnswered(blank: Blank, requests: seq<(string, Input)>, input: Audio.Input)
    returns (own: Result<Option<Audio.Receipt>, Audio.AudioError>)
    ensures Audio.Answers(own, AudioEvents(requests), input)
    ensures var reply := Dispatch(blank, Run(blank, requests).s, "platform/android-audio", AudioInput(input)).1;
            TellsOfAudio(reply, own, Audio.SessionOf(AudioEvents(requests) + [Audio.Request(input)]) != None)
  {
    var events := AudioEvents(requests);
    AudioPartRuns(blank, requests);
    Audio.InputsAreAnswered(events, input);
    Audio.RunFollowsEvents(events + [Audio.Request(input)]);
    assert (events + [Audio.Request(input)])[..|events|] == events;
    own := Audio.Dispatch(Audio.Run(events).s, input).1;
  }

  function SpeechInputs(requests: seq<(string, Input)>): seq<Speech.Input> {
    if requests == [] then []
    else
      SpeechInputs(Front(requests))
      + match Last(requests) case ("platform/android-speech", SpeechInput(input)) => [input] case _ => []
  }

  lemma {:induction false} SpeechPartRuns(blank: Blank, requests: seq<(string, Input)>)
    ensures Run(blank, requests).s.speech.tiers == Speech.Run(blank, SpeechInputs(requests)).tiers
  {
    if requests != [] {
      var s := Run(blank, Front(requests)).s;
      var (name, input) := Last(requests);
      SpeechPartRuns(blank, Front(requests));
      SpeechFollows(blank, s, name, input);
      var before := SpeechInputs(Front(requests));
      if name == SPEECH_FUNCTION && input.SpeechInput? {
        assert (before + [input.speechInput])[..|before|] == before;
        Speech.TiersDecide(blank, s.speech, Speech.Run(blank, before), input.speechInput);
      } else {
        assert before + [] == before;
      }
    }
  }

  predicate TellsOfSpeech(reply: Result<Output, Refusal>, own: Result<Speech.Output, Speech.SpeechError>) {
    match own
    case Err(e) => reply == Err(SpeechRefusal(e))
    case Ok(output) =>
      && reply.Ok? && reply.value.speech == Some(output)
      && (reply.value.accepted <==> output.Available? || output.Started? || output.Transcribed?)
      && reply.value.audioRoute == None && reply.value.resumedTurn == None
  }

  /** After any run, a speech input is answered as the speech inputs so far and the activity determine. */
  lemma SpeechIsAnswered(blank: Blank, requests: seq<(string, Input)>, input: Speech.Input)
    returns (own: Result<Speech.Output, Speech.SpeechError>)
    ensures var s := Run(blank, requests).s;
            && Speech.Answers(blank, own, SpeechInputs(requests), s.speech.active, input)
            && TellsOfSpeech(Dispatch(blank, s, "platform/android-speech", SpeechInput(input)).1, own)
  {
    var speech := Run(blank, requests).s.speech;
    SpeechPartRuns(blank, requests);
    Speech.InputsAreAnswered(blank, speech, SpeechInputs(requests), input);
    own := Speech.Dispatch(blank, speech, input).1;
  }

  /** The function that takes an input. */
  predicate Takes(name: string, input: Input) {
    match input
    case LifecycleChange(_) => name == "platform/lifecycle"
    case Activation(_, _) => name == "platform/activation"
    case PermissionChange(_, _) => name == "platform/activation"
    case Notification(_) => name == "platform/activation"
    case BackgroundExecution(_) => name == "platform/activation"
    case AudioInput(_) => name == "platform/android-audio"
    case SpeechInput(_) => name == "platform/android-speech"
    case _ => name == "platform/continuity"
  }

  /** A request goes to the function it names; the five functions take no other input, and there is no sixth. */
  lemma FunctionsAreNamed(blank: Blank, s: State, name: string, input: Input)
    ensures var (after, reply) := Dispatch(blank, s, name, input);
            if Takes(name, input) then reply != Err(InputMismatch) && reply != Err(UnknownFunction)
            else && after == s
                 && reply == Err(if name == "platform/lifecycle" || name == "platform/activation"
                                    || name == "platform/android-audio" || name == "platform/android-speech"
                                    || name == "platform/continuity"
                                 then InputMismatch else UnknownFunction)
  {
  }

  /** A change of the lifecycle and an event of the system are accepted always. */
  lemma ChangesAreAccepted(blank: Blank, s: State, input: Input)
    requires input.LifecycleChange? || input.Event?
    ensures var name := if input.Event? then "platform/continuity" else "platform/lifecycle";
            var reply := Dispatch(blank, s, name, input).1;
            reply.Ok? && reply.value.accepted && reply.value.resumedTurn == None
            && reply.value.audioRoute == None && reply.value.speech == None
  {
  }

  // ---------- The mutable capsule ----------

  class Capsule {
    const blank: Blank
    const audio: Audio.AudioState
    const speech: Speech.SpeechState
    var lifecycle: Option<Lifecycle>
    var permissions: map<Permission, bool>
    var resources: set<Resource>
    var backgroundAllowed: bool
    var binding: Option<BindPlan>
    var pendingTurn: Option<string>
    var resumedTurns: set<string>

    function Value(): State
      reads this, audio, speech
    {
      State(lifecycle, permissions, resources, backgroundAllowed, binding, pendingTurn, resumedTurns, audio.Value(),
            speech.Value())
    }

    /** The two parts are objects of this capsule alone, which judge white space alike. */
    ghost predicate Owned() {
      speech.blank == blank
    }

    constructor (blank: Blank)
      ensures Value() == INITIAL && this.blank == blank && fresh(audio) && fresh(speech) && Owned()
    {
      this.blank := blank;
      audio := new Audio.AudioState();
      speech := new Speech.SpeechState(blank);
      lifecycle, permissions, resources, backgroundAllowed := None, map[], {}, false;
      binding, pendingTurn, resumedTurns := None, None, {};
    }

    method DispatchInput(name: string, input: Input) returns (reply: Result<Output, Refusal>)
      requires Owned()
      modifies this, audio, speech
      ensures (Value(), reply) == Dispatch(blank, old(Value()), name, input)
    {
      if name == CONTINUITY_FUNCTION {
        var resumed := DispatchContinuity(input);
        if resumed.Err? {
          return Err(resumed.error);
        }
        return Ok(OutputOf(Value(), true, resumed.value, None, None));
      }
      if name == AUDIO_FUNCTION && input.AudioInput? {
        var route := audio.DispatchInput(input.input);
        if route.Err? {
          return Err(AudioRefusal(route.error));
        }
        return Ok(OutputOf(Value(), audio.session.Some?, None, route.value, None));
      }
      if name == SPEECH_FUNCTION && input.SpeechInput? {
        var output := speech.DispatchInput(input.speechInput);
        if output.Err? {
          return Err(SpeechRefusal(output.error));
        }
        return Ok(OutputOf(Value(), Speech.IsAvailable(output.value), None, None, Some(output.value)));
      }
      var accepted := DispatchActivation(name, input);
      if accepted.Err? {
        return Err(accepted.error);
      }
      return Ok(OutputOf(Value(), accepted.value, None, None, None));
    }

    method DispatchActivation(name: string, input: Input) returns (accepted: Result<bool, Refusal>)
      requires name != CONTINUITY_FUNCTION && !(name == AUDIO_FUNCTION && input.AudioInput?)
      requires !(name == SPEECH_FUNCTION && input.SpeechInput?)
      modifies this, audio, speech
      ensures (Value(), accepted) == Activate(blank, old(Value()), name, input)
    {
      if name == LIFECYCLE_FUNCTION && input.LifecycleChange? {
        lifecycle := Some(input.state);
        if input.state.Suspended? || input.state.Stopped? {
          resources := {};
          backgroundAllowed := false;
          audio.ReleaseAll();
          speech.ReleaseAll();
        }
        return Ok(true);
      }
      if name == ACTIVATION_FUNCTION {
        match input {
          case Activation(action, content) =>
            if blank(action) {
              return Err(EmptyText);
            }
            if content.Some? && !ValidContentRef(blank, content.value) {
              return Err(BadContentRef);
            }
            if lifecycle == Some(Suspended) || lifecycle == Some(Stopped) {
              return Ok(false);
            }
            resources := resources + {ActivationResource(action)};
            return Ok(true);
          case PermissionChange(permission, granted) =>
            permissions := permissions[permission := granted];
            if permission.Microphone? && !granted {
              speech.ReleaseAll();
            }
            return Ok(granted);
          case Notification(channel) =>
            if blank(channel) {
              return Err(EmptyText);
            }
            var isNew := NotificationResource(channel) !in resources;
            resources := resources + {NotificationResource(channel)};
            return Ok(isNew);
          case BackgroundExecution(allowed) =>
            backgroundAllowed := allowed;
            return Ok(allowed);
          case _ =>
        }
      }
      if name == LIFECYCLE_FUNCTION || name == ACTIVATION_FUNCTION || name == AUDIO_FUNCTION
         || name == SPEECH_FUNCTION {
        return Err(InputMismatch);
      }
      return Err(UnknownFunction);
    }

    method DispatchContinuity(input: Input) returns (resumed: Result<Option<string>, Refusal>)
      modifies this, audio, speech
      ensures (Value(), resumed) == Continue(old(Value()), input)
    {
      match input
      case Bind(plan) =>
        var refusal := BindRefusal(plan);
        if refusal.Some? {
          return Err(refusal.value);
        }
        binding := Some(plan);
        return Ok(None);
      case Event(event) =>
        ApplyAndroidEvent(event);
        return Ok(None);
      case Restore(plan) =>
        if !ValidRestore(plan) {
          return Err(BadContentId);
        }
        if binding.None? {
          return Err(NotBound);
        }
        if binding.value.snapshotContentId != plan.snapshotContentId {
          return Err(SnapshotMismatch);
        }
        permissions := plan.permissionObservations;
        pendingTurn := plan.pendingTurn;
        var taken := pendingTurn;
        pendingTurn := None;
        if taken.Some? && taken.value !in resumedTurns {
          resumedTurns := resumedTurns + {taken.value};
          return Ok(taken);
        }
        return Ok(None);
      case SubmitTurn(contentId) =>
        if !Audio.IsContentId(contentId) {
          return Err(BadContentId);
        }
        pendingTurn := Some(contentId);
        return Ok(None);
      case _ =>
        return Err(InputMismatch);
    }

    method ApplyAndroidEvent(event: AndroidEvent)
      modifies this, audio, speech
      ensures Value() == ApplyEvent(old(Value()), event)
    {
      match event
      case Rotation =>
      case ActivityRecreation =>
      case BackgroundRestriction =>
        backgroundAllowed := false;
        lifecycle := Some(Suspended);
        resources := {};
        audio.ReleaseAll();
        speech.ReleaseAll();
      case Suspend =>
        backgroundAllowed := false;
        lifecycle := Some(Suspended);
        resources := {};
        audio.ReleaseAll();
        speech.ReleaseAll();
      case ProcessDeath =>
        binding := None;
        resources := {};
        audio.ReleaseAll();
        speech.ReleaseAll();
        lifecycle := Some(Stopped);
      case Restart =>
        lifecycle := Some(Created);
      case MemoryPressure =>
        resources := {};
        audio.ReleaseAll();
        speech.ReleaseAll();
    }
  }
}
