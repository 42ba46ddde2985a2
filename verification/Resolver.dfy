/** The atomic service resolver: ordered requirements, explicit substitutes and minimum evidence. */
module Resolver {
  import opened Common

  type SymbolName = string

  datatype FactPort =
    | WallClock | MonotonicClock | Timer | Entropy | Locale | Timezone | LifecyclePressure | MachineLimits

  datatype EvidenceLevel = Declared | Modeled | Measured | Attested

  datatype ServiceOffer = ServiceOffer(service: SymbolName, port: FactPort, evidence: EvidenceLevel)

  datatype Requirement =
    Requirement(service: SymbolName, substitutes: seq<SymbolName>, optional: bool, minimum: EvidenceLevel)

  datatype ServiceBinding =
    ServiceBinding(requested: SymbolName, bound: SymbolName, port: FactPort, evidence: EvidenceLevel)

  datatype Refusal = Refusal(service: SymbolName, weak: bool)

  function Rank(level: EvidenceLevel): nat {
    match level
    case Declared => 0
    case Modeled => 1
    case Measured => 2
    case Attested => 3
  }

  predicate AtLeast(level: EvidenceLevel, minimum: EvidenceLevel) {
    Rank(level) >= Rank(minimum)
  }

  // ---------- The declarative specification ----------

  /** The offer that counts for a service: the last one listed. */
  function LastOffer(offers: seq<ServiceOffer>, service: SymbolName): Option<ServiceOffer> {
    if offers == [] then None
    else if offers[|offers| - 1].service == service then Some(offers[|offers| - 1])
    else LastOffer(offers[..|offers| - 1], service)
  }

  /** The requested identity first, then the substitutes in the caller's order. */
  function Choices(r: Requirement): seq<SymbolName> {
    [r.service] + r.substitutes
  }

  predicate Suits(offers: seq<ServiceOffer>, r: Requirement, service: SymbolName) {
    LastOffer(offers, service).Some? && AtLeast(LastOffer(offers, service).value.evidence, r.minimum)
  }

  predicate Satisfiable(offers: seq<ServiceOffer>, r: Requirement) {
    exists k :: 0 <= k < |Choices(r)| && Suits(offers, r, Choices(r)[k])
  }

  /** `binding` is the first suitable choice of `r`. */
  ghost predicate IsFirstChoice(offers: seq<ServiceOffer>, r: Requirement, binding: ServiceBinding) {
    exists k :: 0 <= k < |Choices(r)| && Suits(offers, r, Choices(r)[k])
                && (forall j | 0 <= j < k :: !Suits(offers, r, Choices(r)[j]))
                && var offer := LastOffer(offers, Choices(r)[k]).value;
                   binding == ServiceBinding(r.service, Choices(r)[k], offer.port, offer.evidence)
  }

  /** Some choice is offered at all. */
  predicate Offered(offers: seq<ServiceOffer>, r: Requirement) {
    exists k :: 0 <= k < |Choices(r)| && LastOffer(offers, Choices(r)[k]).Some?
  }

  /** One binding, the first choice, for each satisfiable requirement, in requirement order. */
  ghost predicate BindingsFor(offers: seq<ServiceOffer>, requirements: seq<Requirement>,
                              bindings: seq<ServiceBinding>)
  {
    if requirements == [] then bindings == []
    else
      var front, last := requirements[..|requirements| - 1], requirements[|requirements| - 1];
      if Satisfiable(offers, last)
      then bindings != [] && BindingsFor(offers, front, bindings[..|bindings| - 1])
           && IsFirstChoice(offers, last, bindings[|bindings| - 1])
      else BindingsFor(offers, front, bindings)
  }

  predicate Fails(offers: seq<ServiceOffer>, r: Requirement) {
    !r.optional && !Satisfiable(offers, r)
  }

  // ---------- The loop ----------

  lemma {:induction false} LastOfferExists(offers: seq<ServiceOffer>, service: SymbolName)
    ensures LastOffer(offers, service).Some? ==>
              LastOffer(offers, service).value in offers && LastOffer(offers, service).value.service == service
    ensures LastOffer(offers, service).None? ==> forall offer | offer in offers :: offer.service != service
  {
    if offers != [] && offers[|offers| - 1].service != service {
      LastOfferExists(offers[..|offers| - 1], service);
    }
  }

  method IndexOffers(offers: seq<ServiceOffer>) returns (index: map<SymbolName, ServiceOffer>)
    ensures forall service :: LastOffer(offers, service) == if service in index then Some(index[service]) else None
  {
    index := map[];
    for i := 0 to |offers|
      invariant forall service ::
                  LastOffer(offers[..i], service) == if service in index then Some(index[service]) else None
    {
      index := index[offers[i].service := offers[i]];
      assert offers[..i + 1][..i] == offers[..i];
    }
    assert offers[..|offers|] == offers;
  }

  /** Looks for the first good enough offer among the choices, noting the ones that are too weak. */
  method Select(index: map<SymbolName, ServiceOffer>, r: Requirement, ghost offers: seq<ServiceOffer>)
    returns (selected: Option<ServiceOffer>, weak: bool)
    requires forall service :: LastOffer(offers, service) == if service in index then Some(index[service]) else None
    ensures selected.Some? <==> Satisfiable(offers, r)
    ensures selected.Some? ==>
              var offer := selected.value;
              IsFirstChoice(offers, r, ServiceBinding(r.service, offer.service, offer.port, offer.evidence))
    ensures selected.None? ==> (weak <==> Offered(offers, r))
  {
    var candidates := Choices(r);
    weak := false;
    for i := 0 to |candidates|
      invariant forall j | 0 <= j < i :: !Suits(offers, r, candidates[j])
      invariant weak <==> exists j :: 0 <= j < i && LastOffer(offers, candidates[j]).Some?
    {
      if candidates[i] in index {
        var offer := index[candidates[i]];
        var enough := AtLeast(offer.evidence, r.minimum);
        if enough {
          assert Suits(offers, r, candidates[i]);
          LastOfferExists(offers, candidates[i]);
          return Some(offer), weak;
        }
        weak := true;
      }
    }
    return None, weak;
  }

  /** Resolves all requirements or refuses without partial bindings. */
  method PlatformRequire(offers: seq<ServiceOffer>, requirements: seq<Requirement>)
    returns (result: Result<seq<ServiceBinding>, Refusal>)
    ensures result.Ok? <==> forall r | r in requirements :: !Fails(offers, r)
    ensures result.Ok? ==> BindingsFor(offers, requirements, result.value)
    ensures result.Err? ==>
              exists k :: 0 <= k < |requirements| && Fails(offers, requirements[k])
                          && (forall j | 0 <= j < k :: !Fails(offers, requirements[j]))
                          && result.error == Refusal(requirements[k].service, Offered(offers, requirements[k]))
  {
    var index := IndexOffers(offers);
    var bindings: seq<ServiceBinding> := [];
    for i := 0 to |requirements|
      invariant forall j | 0 <= j < i :: !Fails(offers, requirements[j])
      invariant BindingsFor(offers, requirements[..i], bindings)
    {
      var r := requirements[i];
      var selected, weak := Select(index, r, offers);
      assert requirements[..i + 1][..i] == requirements[..i];
      if selected.Some? {
        var offer := selected.value;
        var binding := ServiceBinding(r.service, offer.service, offer.port, offer.evidence);
        assert (bindings + [binding])[..|bindings|] == bindings;
        bindings := bindings + [binding];
      } else if !r.optional {
        assert Fails(offers, requirements[i]) && requirements[i] in requirements;
        return Err(Refusal(r.service, weak));
      }
    }
    assert requirements[..|requirements|] == requirements;
    return Ok(bindings);
  }

  // ---------- Consequences ----------

  /** There is only one list of first choices, so the resolver's answer is determined by the specification. */
  lemma {:induction false} BindingsAreUnique(offers: seq<ServiceOffer>, requirements: seq<Requirement>,
                                             a: seq<ServiceBinding>, b: seq<ServiceBinding>)
    requires BindingsFor(offers, requirements, a) && BindingsFor(offers, requirements, b)
    ensures a == b
  {
    if requirements != [] {
      var front, last := requirements[..|requirements| - 1], requirements[|requirements| - 1];
      if Satisfiable(offers, last) {
        BindingsAreUnique(offers, front, a[..|a| - 1], b[..|b| - 1]);
        FirstChoiceIsUnique(offers, last, a[|a| - 1], b[|b| - 1]);
        assert a == a[..|a| - 1] + [a[|a| - 1]] && b == b[..|b| - 1] + [b[|b| - 1]];
      } else {
        BindingsAreUnique(offers, front, a, b);
      }
    }
  }

  lemma FirstChoiceIsUnique(offers: seq<ServiceOffer>, r: Requirement, a: ServiceBinding, b: ServiceBinding)
    requires IsFirstChoice(offers, r, a) && IsFirstChoice(offers, r, b)
    ensures a == b
  {
    var i :| 0 <= i < |Choices(r)| && Suits(offers, r, Choices(r)[i])
             && (forall j | 0 <= j < i :: !Suits(offers, r, Choices(r)[j]))
             && var offer := LastOffer(offers, Choices(r)[i]).value;
                a == ServiceBinding(r.service, Choices(r)[i], offer.port, offer.evidence);
    var k :| 0 <= k < |Choices(r)| && Suits(offers, r, Choices(r)[k])
             && (forall j | 0 <= j < k :: !Suits(offers, r, Choices(r)[j]))
             && var offer := LastOffer(offers, Choices(r)[k]).value;
                b == ServiceBinding(r.service, Choices(r)[k], offer.port, offer.evidence);
    assert i == k;
  }

  /** The order of evidence: declared, modeled, measured, attested. */
  predicate Meets(level: EvidenceLevel, minimum: EvidenceLevel) {
    match minimum
    case Declared => true
    case Modeled => level == Modeled || level == Measured || level == Attested
    case Measured => level == Measured || level == Attested
    case Attested => level == Attested
  }

  /** The `m`th offer is the last one for its service. */
  predicate Counts(offers: seq<ServiceOffer>, m: nat, service: SymbolName) {
    m < |offers| && offers[m].service == service && forall k | m < k < |offers| :: offers[k].service != service
  }

  /** The last offer for the service, if there is one, is of sufficient evidence. */
  predicate IsGoodEnough(offers: seq<ServiceOffer>, service: SymbolName, minimum: EvidenceLevel) {
    exists m :: 0 <= m < |offers| && Counts(offers, m, service) && Meets(offers[m].evidence, minimum)
  }

  lemma {:induction false} LastOfferCounts(offers: seq<ServiceOffer>, service: SymbolName)
    ensures LastOffer(offers, service).None? ==> forall m | 0 <= m < |offers| :: offers[m].service != service
    ensures LastOffer(offers, service).Some? ==>
              exists m :: 0 <= m < |offers| && Counts(offers, m, service)
                          && LastOffer(offers, service).value == offers[m]
  {
    if offers != [] {
      var front, n := offers[..|offers| - 1], |offers| - 1;
      if offers[n].service == service {
        assert Counts(offers, n, service);
      } else {
        LastOfferCounts(front, service);
        assert forall k | 0 <= k < |front| :: front[k] == offers[k];
        if LastOffer(front, service).Some? {
          var m :| 0 <= m < |front| && Counts(front, m, service) && LastOffer(front, service).value == front[m];
          assert Counts(offers, m, service);
        }
      }
    }
  }

  lemma SuitsMeans(offers: seq<ServiceOffer>, r: Requirement, service: SymbolName)
    ensures Suits(offers, r, service) <==> IsGoodEnough(offers, service, r.minimum)
  {
    LastOfferCounts(offers, service);
    if IsGoodEnough(offers, service, r.minimum) {
      var m :| 0 <= m < |offers| && Counts(offers, m, service) && Meets(offers[m].evidence, r.minimum);
      var k :| 0 <= k < |offers| && Counts(offers, k, service) && LastOffer(offers, service).value == offers[k];
      assert m == k;
    }
  }

  /** What a binding says is what the last offer for the bound service says. */
  predicate IsBoundTo(offers: seq<ServiceOffer>, r: Requirement, binding: ServiceBinding, service: SymbolName) {
    && IsGoodEnough(offers, service, r.minimum) && binding.requested == r.service && binding.bound == service
    && exists m :: 0 <= m < |offers| && Counts(offers, m, service)
                   && binding.port == offers[m].port && binding.evidence == offers[m].evidence
  }

  /**
   A requirement is bound to the service it asks for if that is offered with enough evidence, and otherwise to the
   first of its substitutes that is.
   */
  lemma RequestedBeforeSubstitutes(offers: seq<ServiceOffer>, r: Requirement, binding: ServiceBinding)
    requires IsFirstChoice(offers, r, binding)
    ensures if IsGoodEnough(offers, r.service, r.minimum) then IsBoundTo(offers, r, binding, r.service)
            else exists k :: 0 <= k < |r.substitutes| && IsBoundTo(offers, r, binding, r.substitutes[k])
                             && forall j | 0 <= j < k :: !IsGoodEnough(offers, r.substitutes[j], r.minimum)
  {
    var k :| 0 <= k < |Choices(r)| && Suits(offers, r, Choices(r)[k])
             && (forall j | 0 <= j < k :: !Suits(offers, r, Choices(r)[j]))
             && var offer := LastOffer(offers, Choices(r)[k]).value;
                binding == ServiceBinding(r.service, Choices(r)[k], offer.port, offer.evidence);
    LastOfferCounts(offers, Choices(r)[k]);
    SuitsMeans(offers, r, Choices(r)[k]);
    SuitsMeans(offers, r, r.service);
    assert IsBoundTo(offers, r, binding, Choices(r)[k]);
    if k > 0 {
      assert !Suits(offers, r, Choices(r)[0]);
      forall j | 0 <= j < k - 1 ensures !IsGoodEnough(offers, r.substitutes[j], r.minimum) {
        SuitsMeans(offers, r, r.substitutes[j]);
        assert Choices(r)[j + 1] == r.substitutes[j];
      }
      assert Choices(r)[k] == r.substitutes[k - 1];
    }
  }

  /** A requirement fails exactly if it is not optional and neither it nor a substitute is offered strongly enough. */
  lemma FailureMeans(offers: seq<ServiceOffer>, r: Requirement)
    ensures Fails(offers, r)
            <==> && !r.optional && !IsGoodEnough(offers, r.service, r.minimum)
                 && forall k | 0 <= k < |r.substitutes| :: !IsGoodEnough(offers, r.substitutes[k], r.minimum)
    ensures Offered(offers, r)
            <==> exists offer | offer in offers :: offer.service == r.service || offer.service in r.substitutes
  {
    forall k | 0 <= k < |Choices(r)|
      ensures Suits(offers, r, Choices(r)[k]) <==> IsGoodEnough(offers, Choices(r)[k], r.minimum)
    {
      SuitsMeans(offers, r, Choices(r)[k]);
    }
    assert Choices(r)[0] == r.service;
    assert forall k | 0 <= k < |r.substitutes| :: Choices(r)[k + 1] == r.substitutes[k];
    OfferedMeans(offers, r);
  }

  lemma OfferedMeans(offers: seq<ServiceOffer>, r: Requirement)
    ensures Offered(offers, r)
            <==> exists offer | offer in offers :: offer.service == r.service || offer.service in r.substitutes
  {
    if Offered(offers, r) {
      var k :| 0 <= k < |Choices(r)| && LastOffer(offers, Choices(r)[k]).Some?;
      LastOfferExists(offers, Choices(r)[k]);
      assert Choices(r)[k] == r.service || Choices(r)[k] in r.substitutes;
    }
    if offer :| offer in offers && (offer.service == r.service || offer.service in r.substitutes) {
      assert offer.service in Choices(r);
      var k :| 0 <= k < |Choices(r)| && Choices(r)[k] == offer.service;
      LastOfferExists(offers, Choices(r)[k]);
    }
  }

  /** `stronger` lists the same services with evidence that is nowhere lower. */
  predicate Raised(offers: seq<ServiceOffer>, stronger: seq<ServiceOffer>) {
    |offers| == |stronger| &&
    forall k | 0 <= k < |offers| ::
      stronger[k].service == offers[k].service && AtLeast(stronger[k].evidence, offers[k].evidence)
  }

  lemma {:induction false} LastOfferRaised(offers: seq<ServiceOffer>, stronger: seq<ServiceOffer>, service: SymbolName)
    requires Raised(offers, stronger)
    ensures LastOffer(offers, service).Some? <==> LastOffer(stronger, service).Some?
    ensures LastOffer(offers, service).Some? ==>
              AtLeast(LastOffer(stronger, service).value.evidence, LastOffer(offers, service).value.evidence)
  {
    if offers != [] && offers[|offers| - 1].service != service {
      LastOfferRaised(offers[..|offers| - 1], stronger[..|stronger| - 1], service);
    }
  }

  /** Raising evidence never makes a satisfied requirement fail, so it never turns success into refusal. */
  lemma RaisingEvidenceIsSafe(offers: seq<ServiceOffer>, stronger: seq<ServiceOffer>, r: Requirement)
    requires Raised(offers, stronger)
    ensures Fails(stronger, r) ==> Fails(offers, r)
  {
    if Satisfiable(offers, r) {
      var k :| 0 <= k < |Choices(r)| && Suits(offers, r, Choices(r)[k]);
      LastOfferRaised(offers, stronger, Choices(r)[k]);
      assert Suits(stronger, r, Choices(r)[k]);
    }
  }
}
