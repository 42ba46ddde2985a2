/** The entropy requests of the deterministic platform model, and its agreement with the Linux capsule. */
module SeededPlatform {
  import opened Common
  import opened Entropy
  import LinuxCapsule

  /** The fault a scenario injects, as far as it concerns entropy. */
  datatype Fault = NoFault | RefuseEverything | RefuseEntropy | ElsewhereOnly

  /** `ReadFact` is the entropy fact, which is always eight octets. */
  datatype Request = ReadFact | Entropy(bytes: nat) | Other

  datatype State = State(rng: Word, sequence: nat)

  function Wanted(request: Request): nat {
    match request
    case ReadFact => 8
    case Entropy(bytes) => bytes
    case Other => 0
  }

  predicate Refuses(fault: Fault, request: Request) {
    fault.RefuseEverything? || (fault.RefuseEntropy? && !request.Other?)
  }

  /** The octets are `None` for a refusal. */
  function Apply(fault: Fault, s: State, request: Request): (State, Option<Octets>) {
    var counted := s.(sequence := s.sequence + 1);
    if Refuses(fault, request) then (counted, None)
    else (counted.(rng := StateAfter(s.rng, Wanted(request))), Some(Stream(s.rng, Wanted(request))))
  }

  function Run(fault: Fault, seed: Word, requests: seq<Request>): (State, Octets) {
    if requests == [] then (State(Seeded(seed), 0), [])
    else
      var (s, drawn) := Run(fault, seed, requests[..|requests| - 1]);
      var (after, octets) := Apply(fault, s, requests[|requests| - 1]);
      (after, drawn + match octets case None => [] case Some(more) => more)
  }

  lemma ApplyDrawsTheStream(fault: Fault, seed: Word, s: State, drawn: Octets, request: Request)
    requires drawn == Stream(Seeded(seed), |drawn|) && s.rng == StateAfter(Seeded(seed), |drawn|)
    ensures var (after, octets) := Apply(fault, s, request);
            var longer := drawn + match octets case None => [] case Some(more) => more;
            longer == Stream(Seeded(seed), |longer|) && after.rng == StateAfter(Seeded(seed), |longer|)
  {
    RequestsConcatenate(Seeded(seed), |drawn|, Wanted(request));
    assert drawn + [] == drawn;
  }

  lemma {:induction false} RunDrawsTheStream(fault: Fault, seed: Word, requests: seq<Request>)
    ensures var (s, drawn) := Run(fault, seed, requests);
            drawn == Stream(Seeded(seed), |drawn|) && s.rng == StateAfter(Seeded(seed), |drawn|)
            && s.sequence == |requests|
  {
    if requests != [] {
      var (s, drawn) := Run(fault, seed, requests[..|requests| - 1]);
      RunDrawsTheStream(fault, seed, requests[..|requests| - 1]);
      ApplyDrawsTheStream(fault, seed, s, drawn, requests[|requests| - 1]);
    }
  }

  /**
   The entropy fact and every request for entropy are refused by a fault on everything or on entropy, and by no other;
   otherwise the fact is the next eight octets of the stream, and a request gets as many as it asks for. Every other
   request is refused only by a fault on everything, and draws nothing.
   */
  lemma EntropyIsAnswered(fault: Fault, seed: Word, requests: seq<Request>, request: Request, bytes: nat)
    requires request == Entropy(bytes) || (request == ReadFact && bytes == 8) || (request == Other && bytes == 0)
    ensures var (s, drawn) := Run(fault, seed, requests); IsNextStretch(fault, seed, s, |drawn|, request, bytes)
  {
    RunDrawsTheStream(fault, seed, requests);
    var (s, drawn) := Run(fault, seed, requests);
    AnswerIs(fault, seed, s, |drawn|, request, bytes);
  }

  predicate IsNextStretch(fault: Fault, seed: Word, s: State, drawn: nat, request: Request, bytes: nat) {
    var octets := Apply(fault, s, request).1;
    if fault == RefuseEverything || (fault == RefuseEntropy && request != Other) then octets == None
    else octets == Some(Stream(Seeded(seed), drawn + bytes)[drawn..])
  }

  lemma AnswerIs(fault: Fault, seed: Word, s: State, drawn: nat, request: Request, bytes: nat)
    requires s.rng == StateAfter(Seeded(seed), drawn) && bytes == Wanted(request)
    ensures IsNextStretch(fault, seed, s, drawn, request, bytes)
  {
    NextStretch(Seeded(seed), drawn, bytes);
  }

  lemma {:induction false} StreamPrefix(x: Word, a: nat, b: nat)
    requires a <= b
    ensures Stream(x, a) <= Stream(x, b)
  {
    RequestsConcatenate(x, a, b - a);
  }

  /** From the same seed, whatever the two platforms were asked, one has handed out a prefix of what the other has. */
  lemma PlatformsAgree(budget: LinuxCapsule.Budget, events: seq<LinuxCapsule.Event>,
                       fault: Fault, requests: seq<Request>, seed: Word)
    ensures var linux, model := LinuxCapsule.Run(budget, seed, events).drawn, Run(fault, seed, requests).1;
            if |linux| <= |model| then linux <= model else model <= linux
  {
    LinuxCapsule.EveryRunIsAccounted(budget, seed, events);
    RunDrawsTheStream(fault, seed, requests);
    var linux, model := LinuxCapsule.Run(budget, seed, events).drawn, Run(fault, seed, requests).1;
    if |linux| <= |model| {
      StreamPrefix(Seeded(seed), |linux|, |model|);
    } else {
      StreamPrefix(Seeded(seed), |model|, |linux|);
    }
  }

  /** The model's shared state, drawing from the same generator. */
  class Model {
    const fault: Fault
    const generator: Generator
    var sequence: nat

    function Value(): State
      reads this, generator
    {
      State(generator.state, sequence)
    }

    constructor (fault: Fault, seed: Word)
      ensures Value() == State(Seeded(seed), 0) && this.fault == fault && fresh(generator)
    {
      this.fault := fault;
      generator := new Generator(seed);
      sequence := 0;
    }

    method ApplyRequest(request: Request) returns (octets: Option<Octets>)
      modifies this, generator
      ensures (Value(), octets) == Apply(fault, old(Value()), request)
    {
      sequence := sequence + 1;
      if Refuses(fault, request) {
        return None;
      }
      var drawn := generator.Draw(Wanted(request));
      return Some(drawn);
    }
  }
}
