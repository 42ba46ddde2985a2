/** The Linux capsule's request budget, cancellation and entropy budget. */
module LinuxCapsule {
  import opened Common
  import opened Entropy

  datatype Budget = Budget(requests: u32, queue: usize, entropyBytes: usize, timerNs: u64)

  /** How many octets one answer can carry. */
  type Length = n: nat | n <= ISIZE_MAX

  /** `Other` stands for the requests that only read facts or call the portal, with the outcome they had. */
  datatype Request = Timer(ns: u64) | Entropy(bytes: Length) | Cancel(token: u64) | Other(ok: bool)

  datatype Reply = Octets(octets: Octets) | CancelDone | Answered

  datatype Refusal = Suspended | Cancelled | BudgetExhausted | Refused

  datatype State = State(
    used: nat, entropyUsed: usize, seed: Word, suspended: bool, queue: seq<u64>, cancelled: set<u64>)

  function Initial(seed: Word): State {
    State(0, 0, Seeded(seed), false, [], {})
  }

  /** The entropy test as the machine computes it, with a sum that saturates at the word size. */
  predicate EntropyAdmitted(budget: Budget, used: usize, bytes: Length) {
    Min(used + bytes, USIZE_MAX) <= budget.entropyBytes
  }

  /** The counter after a plain addition, which wraps. */
  function Charged(used: usize, bytes: Length): usize {
    (used + bytes) % (USIZE_MAX + 1)
  }

  function Execute(budget: Budget, s: State, request: Request): (State, Result<Reply, Refusal>) {
    match request
    case Timer(ns) => (s, if ns <= budget.timerNs then Ok(Answered) else Err(BudgetExhausted))
    case Entropy(bytes) =>
      if EntropyAdmitted(budget, s.entropyUsed, bytes)
      then (s.(entropyUsed := Charged(s.entropyUsed, bytes), seed := StateAfter(s.seed, bytes)),
            Ok(Octets(Stream(s.seed, bytes))))
      else (s, Err(BudgetExhausted))
    case Cancel(token) => (s.(cancelled := s.cancelled + {token}), Ok(CancelDone))
    case Other(ok) => (s, if ok then Ok(Answered) else Err(Refused))
  }

  function Apply(budget: Budget, s: State, token: u64, request: Request): (State, Result<Reply, Refusal>) {
    if s.suspended then (s, Err(Suspended))
    else if token in s.cancelled then (s, Err(Cancelled))
    else if s.used >= budget.requests || |s.queue| >= budget.queue then (s, Err(BudgetExhausted))
    else
      var (after, reply) := Execute(budget, s.(used := s.used + 1, queue := s.queue + [token]), request);
      (after.(queue := after.queue[1..]), reply)
  }

  // ---------- Runs ----------

  datatype Event = Call(token: u64, request: Request) | Suspend | Resume | Revoke(token: u64)

  /** A state with everything drawn so far and the number of admitted calls. */
  datatype Trace = Trace(s: State, drawn: Octets, admitted: nat)

  predicate Admits(budget: Budget, s: State, token: u64) {
    !s.suspended && token !in s.cancelled && s.used < budget.requests && |s.queue| < budget.queue
  }

  function Next(budget: Budget, t: Trace, e: Event): Trace {
    match e
    case Call(token, request) =>
      var (s, reply) := Apply(budget, t.s, token, request);
      Trace(s,
            t.drawn + (if reply.Ok? && reply.value.Octets? then reply.value.octets else []),
            t.admitted + (if Admits(budget, t.s, token) then 1 else 0))
    case Suspend => t.(s := t.s.(suspended := true))
    case Resume => t.(s := t.s.(suspended := false))
    case Revoke(token) => t.(s := t.s.(cancelled := t.s.cancelled + {token}))
  }

  function Run(budget: Budget, seed: Word, events: seq<Event>): Trace {
    if events == [] then Trace(Initial(seed), [], 0)
    else Next(budget, Run(budget, seed, events[..|events| - 1]), events[|events| - 1])
  }

  /** What holds at any entropy budget: the counter is the number of octets drawn, modulo the word size. */
  predicate Accounted(budget: Budget, seed: Word, t: Trace) {
    && t.s.queue == []
    && t.s.used == t.admitted <= budget.requests
    && (budget.queue == 0 ==> t.admitted == 0)
    && t.s.entropyUsed == |t.drawn| % (USIZE_MAX + 1)
    && (budget.entropyBytes < USIZE_MAX ==> |t.drawn| <= budget.entropyBytes)
    && t.drawn == Stream(Seeded(seed), |t.drawn|)
    && t.s.seed == StateAfter(Seeded(seed), |t.drawn|)
  }

  lemma ChargedTotal(total: nat, used: usize, bytes: Length)
    requires used == total % (USIZE_MAX + 1)
    ensures Charged(used, bytes) == (total + bytes) % (USIZE_MAX + 1)
  {
  }

  lemma EntropyIsAccounted(budget: Budget, seed: Word, t: Trace, token: u64, bytes: Length)
    requires Accounted(budget, seed, t) && Admits(budget, t.s, token)
    ensures Accounted(budget, seed, Next(budget, t, Call(token, Entropy(bytes))))
  {
    RequestsConcatenate(Seeded(seed), |t.drawn|, bytes);
    ChargedTotal(|t.drawn|, t.s.entropyUsed, bytes);
    AdmittedTotal(budget, |t.drawn|, t.s.entropyUsed, bytes);
    assert t.drawn + [] == t.drawn;
  }

  /** Below the word size the saturating test is the intended one. */
  lemma AdmittedTotal(budget: Budget, total: nat, used: usize, bytes: Length)
    requires budget.entropyBytes < USIZE_MAX && total <= budget.entropyBytes ==> used == total
    ensures budget.entropyBytes < USIZE_MAX && total <= budget.entropyBytes && EntropyAdmitted(budget, used, bytes) ==>
              total + bytes <= budget.entropyBytes
  {
  }

  lemma NextIsAccounted(budget: Budget, seed: Word, t: Trace, e: Event)
    requires Accounted(budget, seed, t)
    ensures Accounted(budget, seed, Next(budget, t, e))
  {
    if e.Call? && e.request.Entropy? && Admits(budget, t.s, e.token) {
      EntropyIsAccounted(budget, seed, t, e.token, e.request.bytes);
    } else {
      assert t.drawn + [] == t.drawn;
    }
  }

  /**
   Over every run the queue is empty between calls, no more calls are admitted than budgeted, and all entropy
   handed out, in order, is one stretch of the stream, within the entropy budget if that is below the word size.
   */
  lemma {:induction false} EveryRunIsAccounted(budget: Budget, seed: Word, events: seq<Event>)
    ensures Accounted(budget, seed, Run(budget, seed, events))
  {
    if events != [] {
      EveryRunIsAccounted(budget, seed, events[..|events| - 1]);
      NextIsAccounted(budget, seed, Run(budget, seed, events[..|events| - 1]), events[|events| - 1]);
    }
  }

  /** Nobody asks for more than `largest` octets at once, such as what the allocator of the machine can provide. */
  predicate AsksAtMost(e: Event, largest: Length) {
    e.Call? && e.request.Entropy? ==> e.request.bytes <= largest
  }

  predicate AllAskAtMost(events: seq<Event>, largest: Length) {
    forall k | 0 <= k < |events| :: AsksAtMost(events[k], largest)
  }

  /** No run with such requests ever hands out more entropy than budgeted. */
  ghost predicate EntropyBudgetKept(budget: Budget, largest: Length) {
    forall seed: Word, events: seq<Event> | AllAskAtMost(events, largest) ::
      |Run(budget, seed, events).drawn| <= budget.entropyBytes
  }

  /** One admitted call draws at most `largest` octets, and any other event draws none. */
  lemma DrawsAtMost(budget: Budget, t: Trace, e: Event, largest: Length)
    requires AsksAtMost(e, largest)
    ensures var after := Next(budget, t, e);
            (after.admitted == t.admitted && |after.drawn| == |t.drawn|)
            || (after.admitted == t.admitted + 1 && |after.drawn| <= |t.drawn| + largest)
  {
  }

  lemma OneMoreTime(a: nat, n: nat)
    ensures (a + 1) * n == a * n + n
  {
  }

  lemma {:induction false} TimesAtMost(a: nat, b: nat, n: nat)
    requires a <= b
    ensures a * n <= b * n
  {
    if a < b {
      TimesAtMost(a, b - 1, n);
      OneMoreTime(b - 1, n);
    }
  }

  lemma {:induction false} DrawnPerCall(budget: Budget, seed: Word, events: seq<Event>, largest: Length)
    requires AllAskAtMost(events, largest)
    ensures |Run(budget, seed, events).drawn| <= Run(budget, seed, events).admitted * largest
  {
    if events != [] {
      var front, e := events[..|events| - 1], events[|events| - 1];
      DrawnPerCall(budget, seed, front, largest);
      DrawsAtMost(budget, Run(budget, seed, front), e, largest);
      OneMoreTime(Run(budget, seed, front).admitted, largest);
    }
  }

  function LargestRequests(n: nat, largest: Length): seq<Event> {
    if n == 0 then [] else LargestRequests(n - 1, largest) + [Call(0, Entropy(largest))]
  }

  /** All of `n` largest requests have been served. */
  predicate Served(t: Trace, n: nat, largest: Length) {
    |t.drawn| == n * largest && t.s.used == n && !t.s.suspended && t.s.cancelled == {} && t.s.queue == []
  }

  /** At the largest budget the saturating test admits everything, and the counter wraps. */
  lemma {:induction false} LargestRequestsAreServed(budget: Budget, seed: Word, n: nat, largest: Length)
    requires budget.entropyBytes == USIZE_MAX && n <= budget.requests && budget.queue > 0
    ensures Served(Run(budget, seed, LargestRequests(n, largest)), n, largest)
  {
    if n > 0 {
      LargestRequestsAreServed(budget, seed, n - 1, largest);
      ServesLargest(budget, seed, LargestRequests(n - 1, largest), n - 1, largest);
    }
  }

  lemma {:induction false} LargestRequestsAskIt(n: nat, largest: Length)
    ensures AllAskAtMost(LargestRequests(n, largest), largest)
  {
    if n > 0 {
      LargestRequestsAskIt(n - 1, largest);
    }
  }

  lemma ServesLargest(budget: Budget, seed: Word, events: seq<Event>, n: nat, largest: Length)
    requires budget.entropyBytes == USIZE_MAX && n < budget.requests && budget.queue > 0
    requires Served(Run(budget, seed, events), n, largest)
    ensures Served(Run(budget, seed, events + [Call(0, Entropy(largest))]), n + 1, largest)
  {
    var e := Call(0, Entropy(largest));
    assert (events + [e])[..|events + [e]| - 1] == events;
    ServesOneMore(budget, Run(budget, seed, events), n, largest);
  }

  lemma ServesOneMore(budget: Budget, t: Trace, n: nat, largest: Length)
    requires budget.entropyBytes == USIZE_MAX && n < budget.requests && budget.queue > 0 && Served(t, n, largest)
    ensures Served(Next(budget, t, Call(0, Entropy(largest))), n + 1, largest)
  {
    OneMoreTime(n, largest);
    LargestDraws(budget, t, largest);
  }

  lemma LargestDraws(budget: Budget, t: Trace, largest: Length)
    requires budget.entropyBytes == USIZE_MAX && Admits(budget, t.s, 0) && t.s.queue == []
    ensures var after := Next(budget, t, Call(0, Entropy(largest)));
            && |after.drawn| == |t.drawn| + largest && after.s.used == t.s.used + 1
            && !after.s.suspended && after.s.cancelled == t.s.cancelled && after.s.queue == []
  {
  }

  /**
   The entropy budget is kept on every run unless it is the largest machine word, where the saturating test cannot
   refuse and the counter wraps, and the budgeted calls can ask for more than that word in all.
   */
  lemma EntropyBudgetKeptIff(budget: Budget, largest: Length)
    ensures EntropyBudgetKept(budget, largest)
            <==> budget.entropyBytes < USIZE_MAX || budget.requests * largest <= USIZE_MAX || budget.queue == 0
  {
    if budget.entropyBytes < USIZE_MAX || budget.requests * largest <= USIZE_MAX || budget.queue == 0 {
      forall seed: Word, events: seq<Event> | AllAskAtMost(events, largest)
        ensures |Run(budget, seed, events).drawn| <= budget.entropyBytes
      {
        EveryRunIsAccounted(budget, seed, events);
        DrawnPerCall(budget, seed, events, largest);
        TimesAtMost(Run(budget, seed, events).admitted, budget.requests, largest);
      }
    } else {
      LargestRequestsAreServed(budget, Zero(), budget.requests, largest);
      LargestRequestsAskIt(budget.requests, largest);
      assert |Run(budget, Zero(), LargestRequests(budget.requests, largest)).drawn| > budget.entropyBytes;
    }
  }

  /** A cancelled or revoked token is never served again, however often it is presented. */
  lemma {:induction false} CancelledStaysCancelled(budget: Budget, t: Trace, events: seq<Event>, token: u64,
                                                   request: Request)
    requires token in t.s.cancelled
    ensures token in RunFrom(budget, t, events).s.cancelled
    ensures Apply(budget, RunFrom(budget, t, events).s, token, request).1.Err?
  {
    if events != [] {
      CancelledStaysCancelled(budget, t, events[..|events| - 1], token, request);
    }
  }

  function RunFrom(budget: Budget, t: Trace, events: seq<Event>): Trace {
    if events == [] then t else Next(budget, RunFrom(budget, t, events[..|events| - 1]), events[|events| - 1])
  }

  // ---------- What a run of requests amounts to ----------

  /** Whether the activation was last suspended rather than resumed. */
  function SuspendedAfter(events: seq<Event>): bool {
    if events == [] then false
    else
      match events[|events| - 1]
      case Suspend => true
      case Resume => false
      case _ => SuspendedAfter(events[..|events| - 1])
  }

  /** How many calls have passed the gate: one that is refused later counts all the same. */
  function CallsAdmitted(budget: Budget, events: seq<Event>): nat
    decreases |events|, 0
  {
    if events == [] then 0
    else
      var front := events[..|events| - 1];
      match events[|events| - 1]
      case Call(token, _) => CallsAdmitted(budget, front) + if IsAdmitted(budget, front, token) then 1 else 0
      case _ => CallsAdmitted(budget, front)
  }

  /** The tokens that were revoked, or cancelled by a call that passed the gate. */
  function TokensGone(budget: Budget, events: seq<Event>): set<u64>
    decreases |events|, 0
  {
    if events == [] then {}
    else
      var front := events[..|events| - 1];
      match events[|events| - 1]
      case Revoke(token) => TokensGone(budget, front) + {token}
      case Call(token, Cancel(other)) =>
        TokensGone(budget, front) + if IsAdmitted(budget, front, token) then {other} else {}
      case _ => TokensGone(budget, front)
  }

  predicate IsAdmitted(budget: Budget, events: seq<Event>, token: u64)
    decreases |events|, 1
  {
    && !SuspendedAfter(events) && token !in TokensGone(budget, events)
    && CallsAdmitted(budget, events) < budget.requests && budget.queue > 0
  }

  predicate Follows(budget: Budget, s: State, events: seq<Event>) {
    && s.suspended == SuspendedAfter(events) && s.used == CallsAdmitted(budget, events)
    && s.cancelled == TokensGone(budget, events) && s.queue == []
  }

  lemma CallFollows(budget: Budget, s: State, events: seq<Event>, token: u64, request: Request)
    requires Follows(budget, s, events)
    ensures Follows(budget, Apply(budget, s, token, request).0, events + [Call(token, request)])
  {
    assert (events + [Call(token, request)])[..|events|] == events;
  }

  lemma {:induction false} RunFollowsRequests(budget: Budget, seed: Word, events: seq<Event>)
    ensures Follows(budget, Run(budget, seed, events).s, events)
  {
    if events != [] {
      var front, e := events[..|events| - 1], events[|events| - 1];
      RunFollowsRequests(budget, seed, front);
      if e.Call? {
        CallFollows(budget, Run(budget, seed, front).s, front, e.token, e.request);
        assert events == front + [e];
      }
    }
  }

  /** What a call is answered after a run that has drawn `drawn`. */
  predicate CallAnswered(budget: Budget, seed: Word, events: seq<Event>, drawn: nat, token: u64, request: Request,
                         reply: Result<Reply, Refusal>) {
    if SuspendedAfter(events) then reply == Err(Suspended)
    else if token in TokensGone(budget, events) then reply == Err(Cancelled)
    else if CallsAdmitted(budget, events) >= budget.requests || budget.queue == 0 then reply == Err(BudgetExhausted)
    else
      match request
      case Timer(ns) => reply == if ns <= budget.timerNs then Ok(Answered) else Err(BudgetExhausted)
      case Cancel(_) => reply == Ok(CancelDone)
      case Other(ok) => reply == if ok then Ok(Answered) else Err(Refused)
      case Entropy(bytes) =>
        var used := drawn % 0x1_0000_0000_0000_0000;
        if used + bytes <= budget.entropyBytes || budget.entropyBytes == 0xFFFF_FFFF_FFFF_FFFF
        then reply == Ok(Octets(Stream(Seeded(seed), drawn + bytes)[drawn..]))
        else reply == Err(BudgetExhausted)
  }

  /** After any run, a call is answered as the requests so far and the entropy drawn so far determine. */
  lemma CallsAreAnswered(budget: Budget, seed: Word, events: seq<Event>, token: u64, request: Request)
    ensures var t := Run(budget, seed, events);
            CallAnswered(budget, seed, events, |t.drawn|, token, request, Apply(budget, t.s, token, request).1)
  {
    var t := Run(budget, seed, events);
    RunFollowsRequests(budget, seed, events);
    EveryRunIsAccounted(budget, seed, events);
    CallIsAnswered(budget, seed, events, t, token, request);
  }

  lemma CallIsAnswered(budget: Budget, seed: Word, events: seq<Event>, t: Trace, token: u64, request: Request)
    requires Follows(budget, t.s, events) && Accounted(budget, seed, t)
    ensures CallAnswered(budget, seed, events, |t.drawn|, token, request, Apply(budget, t.s, token, request).1)
  {
    if request.Entropy? {
      NextStretch(Seeded(seed), |t.drawn|, request.bytes);
    }
  }

  // ---------- The mutable capsule ----------

  class Capsule {
    const budget: Budget
    const generator: Generator
    var used: nat
    var entropyUsed: usize
    var suspended: bool
    var queue: seq<u64>
    var cancelled: set<u64>

    function Value(): State
      reads this, generator
    {
      State(used, entropyUsed, generator.state, suspended, queue, cancelled)
    }

    constructor (budget: Budget, seed: Word)
      ensures Value() == Initial(seed) && this.budget == budget && fresh(generator)
    {
      this.budget := budget;
      generator := new Generator(seed);
      used, entropyUsed, suspended, queue, cancelled := 0, 0, false, [], {};
    }

    method SetSuspended(value: bool)
      modifies this
      ensures Value() == old(Value()).(suspended := value)
    {
      suspended := value;
    }

    method RevokeToken(token: u64)
      modifies this
      ensures Value() == old(Value()).(cancelled := old(cancelled) + {token})
    {
      cancelled := cancelled + {token};
    }

    method ApplyRequest(token: u64, request: Request) returns (reply: Result<Reply, Refusal>)
      modifies this, generator
      ensures (Value(), reply) == Apply(budget, old(Value()), token, request)
    {
      if suspended {
        return Err(Suspended);
      }
      if token in cancelled {
        return Err(Cancelled);
      }
      if used >= budget.requests || |queue| >= budget.queue {
        return Err(BudgetExhausted);
      }
      used := used + 1;
      queue := queue + [token];
      reply := ExecuteRequest(request);
      queue := queue[1..];
    }

    method ExecuteRequest(request: Request) returns (reply: Result<Reply, Refusal>)
      modifies this, generator
      ensures (Value(), reply) == Execute(budget, old(Value()), request)
    {
      match request
      case Timer(ns) =>
        return if ns <= budget.timerNs then Ok(Answered) else Err(BudgetExhausted);
      case Entropy(bytes) =>
        if Min(entropyUsed + bytes, USIZE_MAX) > budget.entropyBytes {
          return Err(BudgetExhausted);
        }
        entropyUsed := (entropyUsed + bytes) % (USIZE_MAX + 1);
        var octets := generator.Draw(bytes);
        return Ok(Octets(octets));
      case Cancel(token) =>
        cancelled := cancelled + {token};
        return Ok(CancelDone);
      case Other(ok) =>
        return if ok then Ok(Answered) else Err(Refused);
    }
  }
}
