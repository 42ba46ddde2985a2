/** The companion-side Halo state machine: consent, connection, reassembly, replay refusal and a bounded queue. */
module HaloCapsule {
  import opened Common
  import opened HaloCodec

  datatype Lifecycle = Created | Active | Suspended | Destroyed

  datatype Assembly =
    Assembly(kind: MessageKind, session: u32, sequence: u32, count: byte, next: nat, total: u16, payload: Bytes)

  datatype State = State(
    lifecycle: Lifecycle,
    consent: bool,
    connected: bool,
    session: u32,
    seen: set<u32>,
    assembly: Option<Assembly>,
    pending: seq<GlassesInput>)

  const INITIAL := State(Created, false, false, 0, {}, None, [])

  function Disconnected(s: State): State {
    s.(connected := false, seen := {}, assembly := None, pending := [])
  }

  /** Why the capsule is not allowed to work, if it is not. */
  function Blocked(s: State): Option<ProxyError> {
    if !s.consent then Some(ConsentRequired)
    else if !s.connected || !s.lifecycle.Active? then Some(Inactive)
    else None
  }

  function Connecting(s: State, session: u32): (State, Result<(), ProxyError>) {
    if !s.consent then (s, Err(ConsentRequired))
    else if !s.lifecycle.Active? then (s, Err(Inactive))
    else (s.(connected := true, session := session, seen := {}, assembly := None, pending := []), Ok(()))
  }

  predicate Continues(a: Assembly, f: Fragment) {
    a.kind == f.kind && a.session == f.session && a.sequence == f.sequence && a.count == f.count
    && a.total == f.total && a.next == f.index
  }

  /** What happens when the last fragment of a message has been appended. */
  function Complete(utf8: Utf8, s: State, a: Assembly): (State, Result<bool, ProxyError>) {
    var done := s.(assembly := None);
    if |a.payload| != a.total then (done, Err(Malformed))
    else if |s.pending| == MAX_PENDING_EVENTS then (done, Err(QueueFull))
    else
      match DecodeInput(utf8, a.kind, a.payload)
      case Err(e) => (done, Err(e))
      case Ok(input) => (done.(seen := s.seen + {a.sequence}, pending := s.pending + [input]), Ok(true))
  }

  /** The assembly a fragment meets: a first fragment always starts a new one. */
  function Current(s: State, f: Fragment): Option<Assembly> {
    if f.index == 0 then Some(Assembly(f.kind, f.session, f.sequence, f.count, 0, f.total, [])) else s.assembly
  }

  function Receive(utf8: Utf8, s: State, bytes: Bytes): (State, Result<bool, ProxyError>) {
    if Blocked(s).Some? then (s, Err(Blocked(s).value))
    else
      match DecodeFragment(bytes)
      case Err(e) => (s, Err(e))
      case Ok(f) =>
        if f.session != s.session then (s, Err(StaleSession))
        else if f.sequence in s.seen then (s, Err(Replay))
        else if Current(s, f).None? then (s, Err(FragmentOrder))
        else
          var a := Current(s, f).value;
          if !Continues(a, f) then (s.(assembly := Some(a)), Err(FragmentOrder))
          else if |a.payload| + |f.payload| > MAX_MESSAGE_BYTES then (s.(assembly := None), Err(Oversized))
          else
            var grown := a.(payload := a.payload + f.payload, next := a.next + 1);
            if grown.next != grown.count then (s.(assembly := Some(grown)), Ok(false))
            else Complete(utf8, s, grown)
  }

  // ---------- Reassembly is exact ----------

  /** The refusals a link may produce between the fragments of a message. */
  predicate Harmless(r: Result<bool, ProxyError>) {
    r.Err? && (r.error.FragmentOrder? || r.error.WrongVersion? || r.error.StaleSession? || r.error.Replay?)
  }

  /** A frame refused as out of order, of another version, stale or replayed changes nothing. */
  lemma HarmlessKeepsState(utf8: Utf8, s: State, bytes: Bytes)
    requires Harmless(Receive(utf8, s, bytes).1)
    ensures Receive(utf8, s, bytes).0 == s
  {
    if DecodeFragment(bytes).Ok? && DecodeFragment(bytes).value.index == 0 {
      AcceptedFramesAreCanonical(bytes);
      var a := Current(s, DecodeFragment(bytes).value).value;
      assert Continues(a, DecodeFragment(bytes).value);
      assert DecodeInputErrors(DecodeInput(utf8, a.kind, DecodeFragment(bytes).value.payload));
    } else if DecodeFragment(bytes).Ok? && s.assembly.Some? {
      assert DecodeInputErrors(DecodeInput(utf8, s.assembly.value.kind,
                                           s.assembly.value.payload + DecodeFragment(bytes).value.payload));
    }
  }

  predicate DecodeInputErrors(r: Result<GlassesInput, ProxyError>) {
    r.Err? ==> r.error.Malformed?
  }

  /** The states in which the first `i` fragments of `message` have been accepted on top of `s`. */
  function Partial(s: State, message: Message, parts: seq<Bytes>, i: nat): State
    requires i < |parts| <= MAX_FRAGMENTS && |message.payload| <= MAX_MESSAGE_BYTES
  {
    if i == 0 then s
    else s.(assembly := Some(Assembly(message.kind, message.session, message.sequence, |parts|, i,
                                      |message.payload|, Concat(parts[..i]))))
  }

  /** The state after the whole message: what `DecodeInput` says of exactly its kind and payload. */
  function Delivered(utf8: Utf8, s: State, message: Message): State {
    match DecodeInput(utf8, message.kind, message.payload)
    case Err(_) => s.(assembly := None)
    case Ok(input) =>
      s.(assembly := None, seen := s.seen + {message.sequence}, pending := s.pending + [input])
  }

  predicate Admits(s: State, message: Message) {
    Blocked(s).None? && message.session == s.session && message.sequence !in s.seen
    && |s.pending| < MAX_PENDING_EVENTS
  }

  lemma {:induction false} PrefixLength(parts: seq<Bytes>, i: nat)
    requires i <= |parts|
    ensures |Concat(parts[..i])| <= |Concat(parts)|
  {
    ConcatAppend(parts[..i], parts[i..]);
    assert parts == parts[..i] + parts[i..];
  }

  /** One fragment in order takes one partial state to the next, and the last one delivers the message. */
  lemma FragmentStep(utf8: Utf8, s: State, message: Message, parts: seq<Bytes>, i: nat)
    requires Admits(s, message) && Splits(parts, message.payload) && i < |parts|
    ensures var (after, reply) := Receive(utf8, Partial(s, message, parts, i), Frames(message, parts)[i]);
            if i + 1 < |parts| then after == Partial(s, message, parts, i + 1) && reply == Ok(false)
            else && after == Delivered(utf8, s, message)
                 && reply == match DecodeInput(utf8, message.kind, message.payload)
                             case Ok(_) => Ok(true)
                             case Err(e) => Err(e)
  {
    var f := PartFragment(message, parts, i);
    FrameDecodes(f);
    var held := Partial(s, message, parts, i);
    assert Concat(parts[..0]) == [];
    assert Current(held, f) == Some(Assembly(message.kind, message.session, message.sequence, |parts|, i,
                                             |message.payload|, Concat(parts[..i])));
    assert parts[..i + 1] == parts[..i] + [parts[i]];
    ConcatSnoc(parts[..i], parts[i]);
    PrefixLength(parts, i + 1);
    assert parts[..|parts|] == parts;
  }

  /** Feeding frames one after another. */
  function Feed(utf8: Utf8, s: State, frames: seq<Bytes>): State
    decreases |frames|
  {
    if frames == [] then s else Feed(utf8, Receive(utf8, s, frames[0]).0, frames[1..])
  }

  /** `feed` is `frames` in order, with any number of harmlessly refused frames before, between and after. */
  predicate Interleaves(utf8: Utf8, s: State, feed: seq<Bytes>, frames: seq<Bytes>)
    decreases |feed|
  {
    if feed == [] then frames == []
    else
      var (after, reply) := Receive(utf8, s, feed[0]);
      || (frames != [] && feed[0] == frames[0] && Interleaves(utf8, after, feed[1..], frames[1..]))
      || (Harmless(reply) && Interleaves(utf8, after, feed[1..], frames))
  }

  lemma {:induction false} HarmlessFeed(utf8: Utf8, s: State, feed: seq<Bytes>)
    requires Interleaves(utf8, s, feed, [])
    ensures Feed(utf8, s, feed) == s
    decreases |feed|
  {
    if feed != [] {
      HarmlessKeepsState(utf8, s, feed[0]);
      HarmlessFeed(utf8, s, feed[1..]);
    }
  }

  lemma {:induction false} FeedFrom(utf8: Utf8, s: State, message: Message, parts: seq<Bytes>, i: nat, feed: seq<Bytes>)
    requires Admits(s, message) && Splits(parts, message.payload) && i < |parts|
    requires Interleaves(utf8, Partial(s, message, parts, i), feed, Frames(message, parts)[i..])
    ensures Feed(utf8, Partial(s, message, parts, i), feed) == Delivered(utf8, s, message)
    decreases |feed|, 1
  {
    var held, rest := Partial(s, message, parts, i), Frames(message, parts)[i..];
    var (after, reply) := Receive(utf8, held, feed[0]);
    if feed[0] == rest[0] && Interleaves(utf8, after, feed[1..], rest[1..]) {
      FragmentStep(utf8, s, message, parts, i);
      FeedRest(utf8, s, message, parts, i, feed[1..]);
    } else {
      HarmlessKeepsState(utf8, held, feed[0]);
      FeedFrom(utf8, s, message, parts, i, feed[1..]);
    }
  }

  lemma {:induction false} FeedRest(utf8: Utf8, s: State, message: Message, parts: seq<Bytes>, i: nat, feed: seq<Bytes>)
    requires Admits(s, message) && Splits(parts, message.payload) && i < |parts|
    requires var after := if i + 1 < |parts| then Partial(s, message, parts, i + 1) else Delivered(utf8, s, message);
             Interleaves(utf8, after, feed, Frames(message, parts)[i..][1..])
    ensures var after := if i + 1 < |parts| then Partial(s, message, parts, i + 1) else Delivered(utf8, s, message);
            Feed(utf8, after, feed) == Delivered(utf8, s, message)
    decreases |feed|, 2
  {
    if i + 1 < |parts| {
      assert Frames(message, parts)[i..][1..] == Frames(message, parts)[i + 1..];
      FeedFrom(utf8, s, message, parts, i + 1, feed);
    } else {
      assert Frames(message, parts)[i..][1..] == [];
      HarmlessFeed(utf8, Delivered(utf8, s, message), feed);
    }
  }

  /**
   Reassembly is exact: whatever assembly was held before, feeding the fragments of any split of a
   message in order, with harmlessly refused frames anywhere in between, hands the input decoder exactly
   the kind and payload of the message.
   */
  lemma ReassemblyIsExact(utf8: Utf8, s: State, message: Message, parts: seq<Bytes>, feed: seq<Bytes>)
    requires Admits(s, message) && Splits(parts, message.payload)
    requires Interleaves(utf8, s, feed, Frames(message, parts))
    ensures Feed(utf8, s, feed) == Delivered(utf8, s, message)
  {
    assert Frames(message, parts)[0..] == Frames(message, parts);
    FeedFrom(utf8, s, message, parts, 0, feed);
  }

  lemma {:induction false} FramesAlone(utf8: Utf8, s: State, frames: seq<Bytes>)
    ensures Interleaves(utf8, s, frames, frames)
    decreases |frames|
  {
    if frames != [] {
      FramesAlone(utf8, Receive(utf8, s, frames[0]).0, frames[1..]);
    }
  }

  /** In particular for the encoder's own split. */
  lemma EncodedMessagesArrive(utf8: Utf8, s: State, message: Message)
    requires Admits(s, message) && |message.payload| <= MAX_MESSAGE_BYTES
    ensures Splits(Chunks(message.payload), message.payload)
    ensures Feed(utf8, s, Frames(message, Chunks(message.payload))) == Delivered(utf8, s, message)
  {
    ChunksSplit(message.payload);
    var frames := Frames(message, Chunks(message.payload));
    FramesAlone(utf8, s, frames);
    ReassemblyIsExact(utf8, s, message, Chunks(message.payload), frames);
  }

  // ---------- Safety over every run ----------

  datatype Event =
    | SetLifecycle(state: Lifecycle)
    | SetConsent(granted: bool)
    | Connect(session: u32)
    | Disconnect
    | ReceiveFragment(bytes: Bytes)
    | NextInput

  /** A state with what happened since the current connection began. */
  datatype Trace = Trace(s: State, accepted: seq<(u32, GlassesInput)>, delivered: seq<GlassesInput>)

  function Next(utf8: Utf8, t: Trace, e: Event): Trace {
    match e
    case SetLifecycle(state) =>
      var s := t.s.(lifecycle := state);
      if state.Suspended? || state.Destroyed? then Trace(Disconnected(s), [], []) else t.(s := s)
    case SetConsent(granted) =>
      var s := t.s.(consent := granted);
      if granted then t.(s := s) else Trace(Disconnected(s), [], [])
    case Connect(session) =>
      var (s, reply) := Connecting(t.s, session);
      if reply.Ok? then Trace(s, [], []) else t
    case Disconnect => Trace(Disconnected(t.s), [], [])
    case ReceiveFragment(bytes) =>
      var (s, reply) := Receive(utf8, t.s, bytes);
      if reply == Ok(true)
      then t.(s := s, accepted := t.accepted + [(DecodeFragment(bytes).value.sequence, s.pending[|s.pending| - 1])])
      else t.(s := s)
    case NextInput =>
      if t.s.pending == [] then t
      else t.(s := t.s.(pending := t.s.pending[1..]), delivered := t.delivered + [t.s.pending[0]])
  }

  function Run(utf8: Utf8, events: seq<Event>): Trace {
    if events == [] then Trace(INITIAL, [], [])
    else Next(utf8, Run(utf8, events[..|events| - 1]), events[|events| - 1])
  }

  function Sequences(accepted: seq<(u32, GlassesInput)>): (r: seq<u32>)
    ensures |r| == |accepted|
  {
    seq(|accepted|, k requires 0 <= k < |accepted| => accepted[k].0)
  }

  function Inputs(accepted: seq<(u32, GlassesInput)>): (r: seq<GlassesInput>)
    ensures |r| == |accepted|
  {
    seq(|accepted|, k requires 0 <= k < |accepted| => accepted[k].1)
  }

  predicate Bounded(s: State) {
    && (s.assembly.Some? ==>
          var a := s.assembly.value;
          a.next < a.count as int <= MAX_FRAGMENTS && |a.payload| <= MAX_MESSAGE_BYTES
          && a.session == s.session && a.sequence !in s.seen)
    && |s.pending| <= MAX_PENDING_EVENTS
    && (!s.connected ==> s.seen == {} && s.assembly.None? && s.pending == [])
    && (s.connected ==> s.consent && !s.lifecycle.Suspended? && !s.lifecycle.Destroyed?)
  }

  predicate Accounted(t: Trace) {
    && (forall i, j | 0 <= i < j < |t.accepted| :: Sequences(t.accepted)[i] != Sequences(t.accepted)[j])
    && t.s.seen == (set q | q in Sequences(t.accepted))
    && Inputs(t.accepted) == t.delivered + t.s.pending
  }

  predicate Safe(t: Trace) {
    Bounded(t.s) && Accounted(t)
  }

  lemma ReceiveStaysBounded(utf8: Utf8, s: State, bytes: Bytes)
    requires Bounded(s)
    ensures Bounded(Receive(utf8, s, bytes).0)
  {
    if DecodeFragment(bytes).Ok? {
      AcceptedFramesAreCanonical(bytes);
    }
  }

  /** A receive accepts one new input, or leaves the accepted ones as they are. */
  lemma ReceiveOutcome(utf8: Utf8, s: State, bytes: Bytes)
    ensures var (after, reply) := Receive(utf8, s, bytes);
            if reply == Ok(true)
            then && DecodeFragment(bytes).Ok? && DecodeFragment(bytes).value.sequence !in s.seen
                 && after.seen == s.seen + {DecodeFragment(bytes).value.sequence}
                 && |after.pending| == |s.pending| + 1 && after.pending[..|s.pending|] == s.pending
            else after.seen == s.seen && after.pending == s.pending
  {
  }

  lemma ReceiveIsSafe(utf8: Utf8, t: Trace, bytes: Bytes)
    requires Safe(t)
    ensures Safe(Next(utf8, t, ReceiveFragment(bytes)))
  {
    ReceiveStaysBounded(utf8, t.s, bytes);
    ReceiveOutcome(utf8, t.s, bytes);
    var (s, reply) := Receive(utf8, t.s, bytes);
    if reply == Ok(true) {
      var sequence, last := DecodeFragment(bytes).value.sequence, s.pending[|t.s.pending|];
      assert s.pending == t.s.pending + [last];
      AcceptOne(t, s, sequence, last);
    }
  }

  lemma AcceptOne(t: Trace, s: State, sequence: u32, last: GlassesInput)
    requires Accounted(t) && sequence !in t.s.seen
    requires s.seen == t.s.seen + {sequence} && s.pending == t.s.pending + [last]
    ensures Accounted(t.(s := s, accepted := t.accepted + [(sequence, last)]))
  {
    var accepted := t.accepted + [(sequence, last)];
    assert Sequences(accepted) == Sequences(t.accepted) + [sequence];
    assert Inputs(accepted) == Inputs(t.accepted) + [last];
  }

  lemma NextIsSafe(utf8: Utf8, t: Trace, e: Event)
    requires Safe(t)
    ensures Safe(Next(utf8, t, e))
  {
    if e.ReceiveFragment? {
      ReceiveIsSafe(utf8, t, e.bytes);
    }
  }

  /**
   In every reachable state the bounds hold, a disconnected capsule holds nothing, no sequence was
   accepted twice in this connection, and the accepted inputs are the delivered ones followed by the
   pending ones.
   */
  lemma {:induction false} EveryRunIsSafe(utf8: Utf8, events: seq<Event>)
    ensures Safe(Run(utf8, events))
  {
    if events != [] {
      EveryRunIsSafe(utf8, events[..|events| - 1]);
      NextIsSafe(utf8, Run(utf8, events[..|events| - 1]), events[|events| - 1]);
    }
  }

  // ---------- What a run of requests amounts to ----------

  /** Whether consent was last given or withdrawn. */
  function ConsentOf(events: seq<Event>): bool {
    if events == [] then false
    else
      match events[|events| - 1]
      case SetConsent(granted) => granted
      case _ => ConsentOf(events[..|events| - 1])
  }

  function LifecycleOf(events: seq<Event>): Lifecycle {
    if events == [] then Created
    else
      match events[|events| - 1]
      case SetLifecycle(state) => state
      case _ => LifecycleOf(events[..|events| - 1])
  }

  /** The session of the connection that is up: the last one asked for with consent while active, unless it ended. */
  function SessionOf(events: seq<Event>): Option<u32> {
    if events == [] then None
    else
      var front := events[..|events| - 1];
      match events[|events| - 1]
      case Connect(session) =>
        if ConsentOf(front) && LifecycleOf(front) == Active then Some(session) else SessionOf(front)
      case Disconnect => None
      case SetLifecycle(state) => if state == Suspended || state == Destroyed then None else SessionOf(front)
      case SetConsent(granted) => if granted then SessionOf(front) else None
      case _ => SessionOf(front)
  }

  /** The capsule has the consent, the lifecycle and the session that its requests amount to. */
  predicate Follows(s: State, events: seq<Event>) {
    && s.consent == ConsentOf(events) && s.lifecycle == LifecycleOf(events)
    && (if SessionOf(events).Some? then s.connected && s.session == SessionOf(events).value else !s.connected)
  }

  lemma ReceiveKeepsConnection(utf8: Utf8, s: State, bytes: Bytes)
    ensures var after := Receive(utf8, s, bytes).0;
            && after.lifecycle == s.lifecycle && after.consent == s.consent
            && after.connected == s.connected && after.session == s.session
  {
  }

  lemma {:induction false} RunFollowsRequests(utf8: Utf8, events: seq<Event>)
    ensures Follows(Run(utf8, events).s, events)
  {
    if events != [] {
      var front, e := events[..|events| - 1], events[|events| - 1];
      RunFollowsRequests(utf8, front);
      if e.ReceiveFragment? {
        ReceiveKeepsConnection(utf8, Run(utf8, front).s, e.bytes);
      }
    }
  }

  /**
   After any run, a frame is looked at exactly when a connection is up and the capsule is active, and then every
   well-formed frame of another session is refused as stale, whatever it carries.
   */
  lemma OnlyTheSessionIsHeard(utf8: Utf8, events: seq<Event>, f: Fragment)
    requires ValidFragment(f)
    ensures var (after, reply) := Receive(utf8, Run(utf8, events).s, Frame(f));
            if !ConsentOf(events) then reply == Err(ConsentRequired)
            else if SessionOf(events).None? || LifecycleOf(events) != Active then reply == Err(Inactive)
            else (reply == Err(StaleSession) <==> SessionOf(events) != Some(f.session))
  {
    RunFollowsRequests(utf8, events);
    FrameDecodes(f);
    var s := Run(utf8, events).s;
    if Blocked(s).None? && f.session == s.session && Current(s, f).Some? {
      var a := Current(s, f).value;
      assert DecodeInputErrors(DecodeInput(utf8, a.kind, a.payload + f.payload));
    }
  }

  function Receipts(feed: seq<Bytes>): (events: seq<Event>)
    ensures |events| == |feed|
  {
    seq(|feed|, k requires 0 <= k < |feed| => ReceiveFragment(feed[k]))
  }

  lemma {:induction false} FeedSnoc(utf8: Utf8, s: State, feed: seq<Bytes>, bytes: Bytes)
    ensures Feed(utf8, s, feed + [bytes]) == Receive(utf8, Feed(utf8, s, feed), bytes).0
    decreases |feed|
  {
    if feed == [] {
      assert [bytes][1..] == [];
      assert [] + [bytes] == [bytes];
    } else {
      assert (feed + [bytes])[1..] == feed[1..] + [bytes];
      FeedSnoc(utf8, Receive(utf8, s, feed[0]).0, feed[1..], bytes);
    }
  }

  lemma RunSnoc(utf8: Utf8, events: seq<Event>, e: Event)
    ensures Run(utf8, events + [e]) == Next(utf8, Run(utf8, events), e)
  {
    assert (events + [e])[..|events + [e]| - 1] == events;
  }

  /** A run that goes on with receipts is the feed of those frames. */
  lemma {:induction false} ReceiptsFeed(utf8: Utf8, events: seq<Event>, feed: seq<Bytes>)
    ensures Run(utf8, events + Receipts(feed)).s == Feed(utf8, Run(utf8, events).s, feed)
    decreases |feed|
  {
    if feed == [] {
      assert events + Receipts(feed) == events;
    } else {
      var front, last := feed[..|feed| - 1], feed[|feed| - 1];
      ReceiptsFeed(utf8, events, front);
      OneReceipt(utf8, events, front, last);
      assert front + [last] == feed;
    }
  }

  lemma OneReceipt(utf8: Utf8, events: seq<Event>, front: seq<Bytes>, last: Bytes)
    requires Run(utf8, events + Receipts(front)).s == Feed(utf8, Run(utf8, events).s, front)
    ensures Run(utf8, events + Receipts(front + [last])).s == Feed(utf8, Run(utf8, events).s, front + [last])
  {
    assert events + Receipts(front + [last]) == (events + Receipts(front)) + [ReceiveFragment(last)];
    RunSnoc(utf8, events + Receipts(front), ReceiveFragment(last));
    FeedSnoc(utf8, Run(utf8, events).s, front, last);
  }

  /** What is not yet handed out of the inputs accepted since the connection began. */
  function Waiting(t: Trace): int {
    |t.accepted| - |t.delivered|
  }

  /**
   While a connection is up, every message of its session that was not accepted before arrives, in any split, with
   harmlessly refused frames anywhere in between: it comes last among the waiting inputs and counts as accepted.
   */
  lemma MessagesOfTheSessionArrive(utf8: Utf8, events: seq<Event>, message: Message, parts: seq<Bytes>,
                                   feed: seq<Bytes>, input: GlassesInput)
    requires SessionOf(events) == Some(message.session) && LifecycleOf(events) == Active
    requires message.sequence !in Sequences(Run(utf8, events).accepted) && Waiting(Run(utf8, events)) < 32
    requires Splits(parts, message.payload) && Says(utf8, message.kind, message.payload, input)
    requires Interleaves(utf8, Run(utf8, events).s, feed, Frames(message, parts))
    ensures var before, after := Run(utf8, events).s, Run(utf8, events + Receipts(feed)).s;
            && after.pending == before.pending + [input] && after.seen == before.seen + {message.sequence}
            && after.session == message.session && after.connected
  {
    RunFollowsRequests(utf8, events);
    EveryRunIsSafe(utf8, events);
    ConnectedHasConsent(events);
    InputsAreWhatTheySay(utf8, message.kind, message.payload, input);
    var t := Run(utf8, events);
    assert |Inputs(t.accepted)| == |t.delivered + t.s.pending|;
    ReassemblyIsExact(utf8, t.s, message, parts, feed);
    ReceiptsFeed(utf8, events, feed);
  }

  lemma {:induction false} ConnectedHasConsent(events: seq<Event>)
    ensures SessionOf(events).Some? ==> ConsentOf(events)
  {
    if events != [] {
      ConnectedHasConsent(events[..|events| - 1]);
    }
  }

  // ---------- Nothing else arrives ----------

  /** The frame carries part `k` of the message that is being assembled. */
  predicate IsPiece(bytes: Bytes, a: Assembly, k: nat, part: Bytes) {
    match DecodeFragment(bytes)
    case Err(_) => false
    case Ok(f) =>
      f.kind == a.kind && f.session == a.session && f.sequence == a.sequence && f.count == a.count
      && f.total == a.total && f.index == k && f.payload == part
  }

  predicate BroughtPiece(events: seq<Event>, p: nat, a: Assembly, k: nat, part: Bytes) {
    p < |events| && events[p].ReceiveFragment? && IsPiece(events[p].bytes, a, k, part)
  }

  /** The events at `picks` brought the parts of which the assembly is made, in this order. */
  predicate Collected(events: seq<Event>, a: Assembly, parts: seq<Bytes>, picks: seq<nat>) {
    && |parts| == |picks| == a.next && Concat(parts) == a.payload
    && (forall k | 0 <= k < |picks| :: BroughtPiece(events, picks[k], a, k, parts[k]))
    && (forall i, j | 0 <= i < j < |picks| :: picks[i] < picks[j])
  }

  ghost predicate HasCollected(events: seq<Event>, s: State) {
    s.assembly.Some? ==> exists parts, picks :: Collected(events, s.assembly.value, parts, picks)
  }

  lemma StaysCollected(events: seq<Event>, e: Event, s: State, after: State)
    requires HasCollected(events, s) && (after.assembly == s.assembly || after.assembly == None)
    ensures HasCollected(events + [e], after)
  {
    if after.assembly.Some? {
      var a := s.assembly.value;
      var parts, picks :| Collected(events, a, parts, picks);
      assert forall k | 0 <= k < |picks| :: BroughtPiece(events, picks[k], a, k, parts[k]);
      assert Collected(events + [e], a, parts, picks);
    }
  }

  function Grown(a: Assembly, f: Fragment): Assembly
    requires a.next == f.index
  {
    a.(payload := a.payload + f.payload, next := a.next + 1)
  }

  /** A fragment in order is one more part. */
  lemma OnePiece(events: seq<Event>, bytes: Bytes, a: Assembly, parts: seq<Bytes>, picks: seq<nat>)
    requires Collected(events, a, parts, picks)
    requires DecodeFragment(bytes).Ok? && Continues(a, DecodeFragment(bytes).value)
    ensures var f := DecodeFragment(bytes).value;
            Collected(events + [ReceiveFragment(bytes)], Grown(a, f), parts + [f.payload], picks + [|events|])
  {
    var f, now := DecodeFragment(bytes).value, events + [ReceiveFragment(bytes)];
    var grown := Grown(a, f);
    ConcatSnoc(parts, f.payload);
    forall k | 0 <= k <= |picks|
      ensures BroughtPiece(now, (picks + [|events|])[k], grown, k, (parts + [f.payload])[k])
    {
      if k < |picks| {
        assert BroughtPiece(events, picks[k], a, k, parts[k]);
      }
    }
    forall k | 0 <= k < |picks| ensures picks[k] < |events| {
      assert BroughtPiece(events, picks[k], a, k, parts[k]);
    }
  }

  /** The parts of the assembly that a received frame meets. */
  lemma Collection(events: seq<Event>, s: State, f: Fragment) returns (parts: seq<Bytes>, picks: seq<nat>)
    requires HasCollected(events, s) && Current(s, f).Some?
    ensures Collected(events, Current(s, f).value, parts, picks)
  {
    if f.index == 0 {
      parts, picks := [], [];
    } else {
      parts, picks :| Collected(events, s.assembly.value, parts, picks);
    }
  }

  /** A frame that leaves another assembly behind was a fragment in order, and so was one that completes an input. */
  lemma AssemblyMoves(utf8: Utf8, s: State, bytes: Bytes)
    ensures var (after, reply) := Receive(utf8, s, bytes);
            (after.assembly != s.assembly && after.assembly != None) || reply == Ok(true) ==>
              && DecodeFragment(bytes).Ok?
              && var f := DecodeFragment(bytes).value;
              && Current(s, f).Some? && Continues(Current(s, f).value, f)
              && var grown := Grown(Current(s, f).value, f);
              if reply == Ok(true)
              then && grown.next == grown.count && |grown.payload| == grown.total && after.pending != []
                   && DecodeInput(utf8, grown.kind, grown.payload) == Ok(after.pending[|after.pending| - 1])
                   && Blocked(s).None? && f.session == s.session
              else after.assembly == Some(grown)
  {
    if DecodeFragment(bytes).Ok? {
      AcceptedFramesAreCanonical(bytes);
    }
  }

  lemma ReceiveCollects(utf8: Utf8, events: seq<Event>, s: State, bytes: Bytes)
    requires HasCollected(events, s)
    ensures HasCollected(events + [ReceiveFragment(bytes)], Receive(utf8, s, bytes).0)
  {
    var after := Receive(utf8, s, bytes).0;
    if after.assembly == s.assembly || after.assembly == None {
      StaysCollected(events, ReceiveFragment(bytes), s, after);
    } else {
      AssemblyMoves(utf8, s, bytes);
      var f := DecodeFragment(bytes).value;
      var parts, picks := Collection(events, s, f);
      OnePiece(events, bytes, Current(s, f).value, parts, picks);
    }
  }

  lemma NextCollects(utf8: Utf8, events: seq<Event>, t: Trace, e: Event)
    requires HasCollected(events, t.s)
    ensures HasCollected(events + [e], Next(utf8, t, e).s)
  {
    if e.ReceiveFragment? {
      ReceiveCollects(utf8, events, t.s, e.bytes);
    } else {
      StaysCollected(events, e, t.s, Next(utf8, t, e).s);
    }
  }

  lemma {:induction false} RunCollects(utf8: Utf8, events: seq<Event>)
    ensures HasCollected(events, Run(utf8, events).s)
  {
    if events != [] {
      var front, e := events[..|events| - 1], events[|events| - 1];
      RunCollects(utf8, front);
      NextCollects(utf8, front, Run(utf8, front), e);
      assert events == front + [e];
    }
  }

  /** The events at `picks`, of which the last is the last of all, brought the frames of one split of the message. */
  predicate Sent(events: seq<Event>, message: Message, parts: seq<Bytes>, picks: seq<nat>) {
    && Splits(parts, message.payload) && |picks| == |parts| && picks[|picks| - 1] == |events| - 1
    && (forall i, j | 0 <= i < j < |picks| :: picks[i] < picks[j])
    && (forall k | 0 <= k < |picks| ::
          picks[k] < |events| && events[picks[k]] == ReceiveFragment(Frames(message, parts)[k]))
  }

  /** Received frames that are pieces of one whole message are the frames of a split of it. */
  lemma PiecesAreFrames(events: seq<Event>, a: Assembly, parts: seq<Bytes>, picks: seq<nat>)
    requires Collected(events, a, parts, picks) && a.next == a.count && a.count > 0 && |a.payload| == a.total
    requires picks[|picks| - 1] == |events| - 1
    ensures Sent(events, Message(a.kind, a.session, a.sequence, a.payload), parts, picks)
  {
    forall k | 0 <= k < |picks|
      ensures picks[k] < |events| && events[picks[k]].ReceiveFragment? && a.count <= 16 && a.total <= 2048
      ensures |parts[k]| <= 180
      ensures events[picks[k]].bytes
           == Frame(Fragment(a.kind, a.session, a.sequence, k, a.count, a.total, parts[k]))
    {
      assert BroughtPiece(events, picks[k], a, k, parts[k]);
      AcceptedFramesAreCanonical(events[picks[k]].bytes);
    }
    assert a.next > 0 && picks[0] < |events|;
  }

  /** An input that a frame completes is what a message says whose frames were received. */
  lemma CompletionIsSent(utf8: Utf8, events: seq<Event>, s: State, bytes: Bytes)
    returns (message: Message, parts: seq<Bytes>, picks: seq<nat>)
    requires HasCollected(events, s) && Receive(utf8, s, bytes).1 == Ok(true)
    ensures Sent(events + [ReceiveFragment(bytes)], message, parts, picks)
    ensures message.session == s.session && Blocked(s).None?
    ensures var pending := Receive(utf8, s, bytes).0.pending;
            pending != [] && DecodeInput(utf8, message.kind, message.payload) == Ok(pending[|pending| - 1])
  {
    AssemblyMoves(utf8, s, bytes);
    var f := DecodeFragment(bytes).value;
    var a := Current(s, f).value;
    parts, picks := Collection(events, s, f);
    OnePiece(events, bytes, a, parts, picks);
    parts, picks := parts + [f.payload], picks + [|events|];
    PiecesAreFrames(events + [ReceiveFragment(bytes)], Grown(a, f), parts, picks);
    message := Message(a.kind, a.session, a.sequence, Grown(a, f).payload);
  }

  /**
   Whatever is accepted was sent: after any run, a frame completes an input only if it is the last of the frames of
   one split of one message of the session, all of which were received, in order, and the input is what that message
   says.
   */
  lemma NothingElseArrives(utf8: Utf8, events: seq<Event>, bytes: Bytes)
    returns (message: Message, parts: seq<Bytes>, picks: seq<nat>)
    requires Receive(utf8, Run(utf8, events).s, bytes).1 == Ok(true)
    ensures Sent(events + [ReceiveFragment(bytes)], message, parts, picks)
    ensures SessionOf(events) == Some(message.session) && LifecycleOf(events) == Active
    ensures var pending := Receive(utf8, Run(utf8, events).s, bytes).0.pending;
            pending != [] && Says(utf8, message.kind, message.payload, pending[|pending| - 1])
  {
    RunFollowsRequests(utf8, events);
    RunCollects(utf8, events);
    message, parts, picks := CompletionIsSent(utf8, events, Run(utf8, events).s, bytes);
    var pending := Receive(utf8, Run(utf8, events).s, bytes).0.pending;
    InputsAreWhatTheySay(utf8, message.kind, message.payload, pending[|pending| - 1]);
  }

  // ---------- What every request is answered ----------

  /** The fragment goes on where the held assembly, of the same message, stands. */
  predicate GoesOn(s: State, f: Fragment) {
    match s.assembly
    case None => false
    case Some(a) =>
      && f.kind == a.kind && f.session == a.session && f.sequence == a.sequence && f.count == a.count
      && f.total == a.total && f.index == a.next
  }

  /**
   A fragment of the session with a new sequence number is out of order if it neither is a first one nor goes on;
   then nothing changes. Otherwise it ends the assembly, or the assembly grows by it.
   */
  ghost predicate FragmentAnswered(utf8: Utf8, s: State, f: Fragment, after: State, reply: Result<bool, ProxyError>) {
    if f.index != 0 && !GoesOn(s, f) then reply == Err(FragmentOrder) && after == s
    else
      var payload := (if f.index == 0 then [] else s.assembly.value.payload) + f.payload;
      if |payload| <= 2048 && f.index + 1 < f.count
      then && reply == Ok(false)
           && after == s.(assembly := Some(Assembly(f.kind, f.session, f.sequence, f.count, f.index + 1, f.total,
                                                    payload)))
      else
        && after.assembly == None
        && (if |payload| > 2048 then reply == Err(Oversized)
            else if |payload| != f.total then reply == Err(Malformed)
            else if |s.pending| == 32 then reply == Err(QueueFull)
            else if reply == Ok(true)
            then |after.pending| == |s.pending| + 1 && Says(utf8, f.kind, payload, after.pending[|s.pending|])
            else reply == Err(Malformed) && forall input :: !Says(utf8, f.kind, payload, input))
  }

  lemma FragmentsAreAnswered(utf8: Utf8, s: State, f: Fragment)
    requires ValidFragment(f) && Blocked(s).None? && f.session == s.session && f.sequence !in s.seen
    ensures FragmentAnswered(utf8, s, f, Receive(utf8, s, Frame(f)).0, Receive(utf8, s, Frame(f)).1)
  {
    FrameDecodes(f);
    if f.index == 0 || GoesOn(s, f) {
      var payload := (if f.index == 0 then [] else s.assembly.value.payload) + f.payload;
      forall input ensures DecodeInput(utf8, f.kind, payload) == Ok(input) <==> Says(utf8, f.kind, payload, input) {
        InputsAreWhatTheySay(utf8, f.kind, payload, input);
      }
      InputsAreWhatTheySay(utf8, f.kind, payload, LinkInput(true));
    }
  }

  /** Octets that are no frame are refused for their version or as malformed, and a used sequence number as replayed. */
  lemma OtherFramesAreRefused(utf8: Utf8, s: State, bytes: Bytes)
    requires Blocked(s).None?
    ensures (forall f | ValidFragment(f) :: Frame(f) != bytes) ==>
              Receive(utf8, s, bytes)
              == (s, Err(if 18 <= |bytes| <= 198 && bytes[0] == 0x53 && bytes[1] == 0x48 && bytes[2] != 1
                         then WrongVersion else Malformed))
    ensures forall f | ValidFragment(f) && Frame(f) == bytes && f.session == s.session && f.sequence in s.seen ::
              Receive(utf8, s, bytes) == (s, Err(Replay))
  {
    RefusedFrames(bytes);
    forall f | ValidFragment(f) && Frame(f) == bytes ensures DecodeFragment(bytes) == Ok(f) {
      FrameDecodes(f);
    }
  }

  /** A connection needs consent first, then an active lifecycle; it takes the session it is asked for. */
  lemma ConnectIsAnswered(utf8: Utf8, events: seq<Event>, session: u32)
    ensures var reply := Connecting(Run(utf8, events).s, session).1;
            if !ConsentOf(events) then reply == Err(ConsentRequired)
            else if LifecycleOf(events) != Active then reply == Err(Inactive)
            else reply == Ok(()) && SessionOf(events + [Connect(session)]) == Some(session)
  {
    RunFollowsRequests(utf8, events);
    assert (events + [Connect(session)])[..|events|] == events;
  }

  /** Every input that was accepted is handed out, the oldest first. */
  lemma InputsAreHandedOut(utf8: Utf8, events: seq<Event>)
    ensures var before, after := Run(utf8, events), Run(utf8, events + [NextInput]);
            && after.accepted == before.accepted && after.delivered <= Inputs(before.accepted)
            && |after.delivered| == |before.delivered| + if Waiting(before) == 0 then 0 else 1
  {
    EveryRunIsSafe(utf8, events);
    RunSnoc(utf8, events, NextInput);
    var t := Run(utf8, events);
    assert |Inputs(t.accepted)| == |t.delivered + t.s.pending|;
  }

  // ---------- The mutable capsule ----------

  class Capsule {
    const utf8: Utf8
    var lifecycle: Lifecycle
    var consent: bool
    var connected: bool
    var session: u32
    var seen: set<u32>
    var assembly: Option<Assembly>
    var pending: seq<GlassesInput>

    function Value(): State
      reads this
    {
      State(lifecycle, consent, connected, session, seen, assembly, pending)
    }

    constructor (utf8: Utf8)
      ensures Value() == INITIAL && this.utf8 == utf8
    {
      this.utf8 := utf8;
      lifecycle, consent, connected, session := Created, false, false, 0;
      seen, assembly, pending := {}, None, [];
    }

    method SetLifecycle(state: Lifecycle)
      modifies this
      ensures Value() == Next(utf8, Trace(old(Value()), [], []), Event.SetLifecycle(state)).s
    {
      lifecycle := state;
      if state.Suspended? || state.Destroyed? {
        Disconnect();
      }
    }

    method SetConsent(granted: bool)
      modifies this
      ensures Value() == Next(utf8, Trace(old(Value()), [], []), Event.SetConsent(granted)).s
    {
      consent := granted;
      if !granted {
        Disconnect();
      }
    }

    method Connect(session: u32) returns (r: Result<(), ProxyError>)
      modifies this
      ensures (Value(), r) == Connecting(old(Value()), session)
    {
      if !consent {
        return Err(ConsentRequired);
      }
      if lifecycle != Active {
        return Err(Inactive);
      }
      connected := true;
      this.session := session;
      seen, assembly, pending := {}, None, [];
      return Ok(());
    }

    method Disconnect()
      modifies this
      ensures Value() == Disconnected(old(Value()))
    {
      connected := false;
      seen, assembly, pending := {}, None, [];
    }

    method ReceiveFragment(bytes: Bytes) returns (r: Result<bool, ProxyError>)
      modifies this
      ensures (Value(), r) == Receive(utf8, old(Value()), bytes)
    {
      if !consent {
        return Err(ConsentRequired);
      }
      if !connected || lifecycle != Active {
        return Err(Inactive);
      }
      var decoded := DecodeFragment(bytes);
      if decoded.Err? {
        return Err(decoded.error);
      }
      var f := decoded.value;
      if f.session != session {
        return Err(StaleSession);
      }
      if f.sequence in seen {
        return Err(Replay);
      }
      if f.index == 0 {
        assembly := Some(Assembly(f.kind, f.session, f.sequence, f.count, 0, f.total, []));
      }
      if assembly.None? {
        return Err(FragmentOrder);
      }
      var held := assembly.value;
      if held.kind != f.kind || held.session != f.session || held.sequence != f.sequence
         || held.count != f.count || held.total != f.total || held.next != f.index {
        return Err(FragmentOrder);
      }
      if |held.payload| + |f.payload| > MAX_MESSAGE_BYTES {
        assembly := None;
        return Err(Oversized);
      }
      assembly := Some(held.(payload := held.payload + f.payload));
      assembly := Some(assembly.value.(next := assembly.value.next + 1));
      if assembly.value.next != assembly.value.count {
        return Ok(false);
      }
      var message := assembly.value;
      assembly := None;
      if |message.payload| != message.total {
        return Err(Malformed);
      }
      if |pending| == MAX_PENDING_EVENTS {
        return Err(QueueFull);
      }
      var input := DecodeInput(utf8, message.kind, message.payload);
      if input.Err? {
        return Err(input.error);
      }
      seen := seen + {message.sequence};
      pending := pending + [input.value];
      return Ok(true);
    }

    method NextInput() returns (input: Option<GlassesInput>)
      modifies this
      ensures Value() == Next(utf8, Trace(old(Value()), [], []), Event.NextInput).s
      ensures input == if old(pending) == [] then None else Some(old(pending)[0])
    {
      if pending == [] {
        return None;
      }
      input := Some(pending[0]);
      pending := pending[1..];
    }

    method EncodeSurface(sequence: u32, command: SurfaceCommand) returns (r: Result<seq<Bytes>, ProxyError>)
      ensures Blocked(Value()).Some? ==> r == Err(Blocked(Value()).value)
      ensures Blocked(Value()).None? && command.DisplayCells? && |command.cells| > 1024 ==> r == Err(Oversized)
      ensures Blocked(Value()).None? && command.DisplayCells? && |command.cells| <= 1024 ==>
                r.Ok? && Carries(r.value, Display, session, sequence, command.cells)
      ensures Blocked(Value()).None? && command.ClearSurface? ==>
                r.Ok? && Carries(r.value, Clear, session, sequence, [])
    {
      if !consent {
        return Err(ConsentRequired);
      }
      if !connected || lifecycle != Active {
        return Err(Inactive);
      }
      var encoded := SurfacePayload(command);
      if encoded.Err? {
        return Err(encoded.error);
      }
      var (kind, payload) := encoded.value;
      r := EncodeMessage(Message(kind, session, sequence, payload));
      FramesCarryMessage(Message(kind, session, sequence, payload), Chunks(payload));
    }
  }
}
