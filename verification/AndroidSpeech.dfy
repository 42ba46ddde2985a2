/** Android on-device speech: evidence that a tier is local, and at most one activity at a time. */
module AndroidSpeech {
  import opened Common
  import opened Paths
  import opened NameOrder

  const MAX_PCM_BYTES: nat := 8 * 1024 * 1024
  const MAX_SPEAK_BYTES: nat := 32 * 1024
  const MAX_TAG_BYTES: nat := 64

  datatype Kind = Transcribe | Speak

  datatype Language = Language(tag: Name, installed: bool)

  datatype Evidence = Evidence(
    kind: Kind, implementation: Bytes, explicitlyOnDevice: bool, remotelyBacked: bool,
    discoveryContactedProvider: bool, prompted: bool, downloaded: bool, networkDeniedSelfTest: bool,
    languages: seq<Language>)

  datatype Fallback = VoiceNote | Silence

  datatype StopReason =
    | Released | PermissionLoss | StaleRoute | LifecycleExpiry | OversizedInput | EmptyInput | Revocation

  datatype Input =
    | InstallEvidence(evidence: Evidence)
    | StartTranscribing(language: Name, pcm: Bytes)
    | Transcript(language: Name, text: Bytes)
    | StartSpeaking(language: Name, text: Bytes)
    | Complete
    | Stop(reason: StopReason)

  datatype Output =
    | Available(kind: Kind, languages: seq<Name>)
    | Started(kind: Kind, language: Name)
    | Transcribed(language: Name, text: Bytes)
    | Unsupported(kind: Kind, fallback: Fallback)
    | Stopped(reason: StopReason)

  datatype SpeechError = NotLocal | NotTranscribing

  datatype State = State(tiers: map<Kind, Evidence>, active: Option<Kind>)

  const INITIAL := State(map[], None)

  // ---------- Languages in canonical order ----------

  function Tags(languages: seq<Language>): (tags: seq<Name>)
    ensures |tags| == |languages|
  {
    seq(|languages|, k requires 0 <= k < |languages| => languages[k].tag)
  }

  /** Adds a language to a list sorted by tag, unless its tag is there already. */
  function InsertLanguage(languages: seq<Language>, language: Language): seq<Language> {
    if languages == [] then [language]
    else if language.tag == languages[0].tag then languages
    else if Less(language.tag, languages[0].tag) then [language] + languages
    else [languages[0]] + InsertLanguage(languages[1..], language)
  }

  /** Sorted by tag, and of several languages with one tag the first. */
  function NormalizeLanguages(languages: seq<Language>): seq<Language> {
    if languages == [] then []
    else InsertLanguage(NormalizeLanguages(languages[..|languages| - 1]), languages[|languages| - 1])
  }

  lemma {:induction false} InsertionSortsTags(languages: seq<Language>, language: Language)
    ensures Tags(InsertLanguage(languages, language)) == Insert(Tags(languages), language.tag)
  {
    if languages != [] && language.tag != languages[0].tag && !Less(language.tag, languages[0].tag) {
      InsertionSortsTags(languages[1..], language);
      assert Tags(languages)[1..] == Tags(languages[1..]);
    }
  }

  lemma {:induction false} InsertionMembers(languages: seq<Language>, language: Language, x: Language)
    ensures x in InsertLanguage(languages, language) ==> x in languages || x == language
  {
    if languages != [] && language.tag != languages[0].tag && !Less(language.tag, languages[0].tag) {
      InsertionMembers(languages[1..], language, x);
    }
  }

  lemma {:induction false} InsertionOfPresent(languages: seq<Language>, language: Language)
    requires StrictlySorted(Tags(languages)) && language.tag in Tags(languages)
    ensures InsertLanguage(languages, language) == languages
  {
    var tags := Tags(languages);
    if language.tag != languages[0].tag {
      var k :| 0 <= k < |tags| && tags[k] == language.tag;
      assert Less(tags[0], tags[k]);
      LessTrichotomy(tags[0], tags[k]);
      assert Tags(languages[1..]) == tags[1..] && tags[1..][k - 1] == language.tag;
      InsertionOfPresent(languages[1..], language);
    }
  }

  /** `x` is the first of the languages with its tag. */
  ghost predicate IsFirst(languages: seq<Language>, x: Language) {
    exists k :: 0 <= k < |languages| && languages[k] == x && x.tag !in Tags(languages[..k])
  }

  lemma FirstStays(front: seq<Language>, last: Language, x: Language)
    requires IsFirst(front, x) || (x == last && x.tag !in Tags(front))
    ensures IsFirst(front + [last], x)
  {
    if IsFirst(front, x) {
      var k :| 0 <= k < |front| && front[k] == x && x.tag !in Tags(front[..k]);
      assert (front + [last])[k] == x && (front + [last])[..k] == front[..k];
    } else {
      assert (front + [last])[|front|] == x && (front + [last])[..|front|] == front;
    }
  }

  /** The languages come out in strict tag order, with the same tags, and of several with one tag the first. */
  lemma {:induction false} NormalizedLanguages(languages: seq<Language>)
    ensures StrictlySorted(Tags(NormalizeLanguages(languages)))
    ensures forall tag :: tag in Tags(NormalizeLanguages(languages)) <==> tag in Tags(languages)
    ensures forall x | x in NormalizeLanguages(languages) :: IsFirst(languages, x)
  {
    if languages != [] {
      var front, last := languages[..|languages| - 1], languages[|languages| - 1];
      var normal := NormalizeLanguages(front);
      NormalizedLanguages(front);
      InsertionSortsTags(normal, last);
      InsertKeepsOrder(Tags(normal), last.tag);
      assert Tags(languages) == Tags(front) + [last.tag];
      forall x | x in NormalizeLanguages(languages) ensures IsFirst(languages, x) {
        InsertionMembers(normal, last, x);
        if last.tag in Tags(normal) {
          InsertionOfPresent(normal, last);
        }
        FirstStays(front, last, x);
        assert front + [last] == languages;
      }
    }
  }

  // ---------- The machine ----------

  function Normalized(evidence: Evidence): Evidence {
    evidence.(languages := NormalizeLanguages(evidence.languages))
  }

  /** Evidence of a tier that runs on the device, with its languages installed and without the network. */
  predicate IsLocal(blank: Blank, evidence: Evidence) {
    && !blank(evidence.implementation) && evidence.explicitlyOnDevice && !evidence.remotelyBacked
    && !evidence.discoveryContactedProvider && !evidence.prompted && !evidence.downloaded
    && evidence.networkDeniedSelfTest && evidence.languages != []
    && forall k | 0 <= k < |evidence.languages| ::
         var language := evidence.languages[k];
         language.installed && !blank(language.tag) && |language.tag| <= MAX_TAG_BYTES
  }

  function Quiet(s: State): State {
    s.(active := None)
  }

  function FallbackFor(kind: Kind): Fallback {
    match kind
    case Transcribe => VoiceNote
    case Speak => Silence
  }

  predicate Supports(s: State, kind: Kind, language: Name) {
    kind in s.tiers && Language(language, true) in s.tiers[kind].languages
  }

  function Start(s: State, kind: Kind, language: Name): (State, Result<Output, SpeechError>) {
    if Supports(s, kind, language) then (s.(active := Some(kind)), Ok(Started(kind, language)))
    else (s, Ok(Unsupported(kind, FallbackFor(kind))))
  }

  function StopFor(s: State, reason: StopReason): (State, Result<Output, SpeechError>) {
    (Quiet(s), Ok(Stopped(reason)))
  }

  function Dispatch(blank: Blank, s: State, input: Input): (State, Result<Output, SpeechError>) {
    match input
    case InstallEvidence(evidence) =>
      var normal := Normalized(evidence);
      if !IsLocal(blank, normal) then (s, Err(NotLocal))
      else (s.(tiers := s.tiers[normal.kind := normal]), Ok(Available(normal.kind, Tags(normal.languages))))
    case StartTranscribing(language, pcm) =>
      if pcm == [] then StopFor(s, EmptyInput)
      else if |pcm| > MAX_PCM_BYTES then StopFor(s, OversizedInput)
      else Start(s, Transcribe, language)
    case Transcript(language, text) =>
      if s.active != Some(Transcribe) then (s, Err(NotTranscribing))
      else if blank(text) then StopFor(s, EmptyInput)
      else (Quiet(s), Ok(Transcribed(language, text)))
    case StartSpeaking(language, text) =>
      if blank(text) then StopFor(s, EmptyInput)
      else if |text| > MAX_SPEAK_BYTES then StopFor(s, OversizedInput)
      else Start(s, Speak, language)
    case Complete => StopFor(s, Released)
    case Stop(reason) => StopFor(s, reason)
  }

  predicate IsAvailable(output: Output) {
    !output.Unsupported? && !output.Stopped?
  }

  // ---------- Properties of every run ----------

  /** A speech input with its answer, or a release forced from outside. */
  datatype Step = Answered(output: Result<Output, SpeechError>) | Forced

  /** What is going on, judged from the answers alone: the last start, unless something has ended it. */
  function ActiveAfter(steps: seq<Step>): Option<Kind> {
    if steps == [] then None
    else
      match steps[|steps| - 1]
      case Forced => None
      case Answered(Ok(Started(kind, _))) => Some(kind)
      case Answered(Ok(Transcribed(_, _))) => None
      case Answered(Ok(Stopped(_))) => None
      case Answered(_) => ActiveAfter(steps[..|steps| - 1])
  }

  /**
   Every tier is known to be local, its languages are in strict order, only a tier that is installed can be active,
   and the activity is the one the answers so far tell of.
   */
  ghost predicate Consistent(blank: Blank, s: State, steps: seq<Step>) {
    && (forall kind | kind in s.tiers ::
          s.tiers[kind].kind == kind && IsLocal(blank, s.tiers[kind]) && StrictlySorted(Tags(s.tiers[kind].languages)))
    && (s.active.Some? ==> s.active.value in s.tiers)
    && s.active == ActiveAfter(steps)
  }

  predicate Ends(output: Result<Output, SpeechError>) {
    output.Ok? && (output.value.Transcribed? || output.value.Stopped?)
  }

  /** What an input does to the activity and the tiers, by its answer. */
  lemma DispatchEffects(blank: Blank, s: State, input: Input)
    ensures var (after, output) := Dispatch(blank, s, input);
            && after.active == (if Ends(output) then None
                                else if output.Ok? && output.value.Started? then Some(output.value.kind) else s.active)
            && (output.Ok? && output.value.Started? ==> Supports(s, output.value.kind, output.value.language))
            && (output.Ok? && output.value.Transcribed? ==> s.active == Some(Transcribe))
            && (after.tiers == s.tiers || (input.InstallEvidence? && output.Ok?
                && after.tiers == s.tiers[input.evidence.kind := Normalized(input.evidence)]
                && IsLocal(blank, Normalized(input.evidence))))
            && (output.Err? ==> after == s)
  {
  }

  lemma StepIsLast(steps: seq<Step>, output: Result<Output, SpeechError>)
    ensures ActiveAfter(steps + [Answered(output)])
         == if Ends(output) then None
            else if output.Ok? && output.value.Started? then Some(output.value.kind) else ActiveAfter(steps)
  {
    assert (steps + [Answered(output)])[..|steps|] == steps;
  }

  lemma DispatchIsConsistent(blank: Blank, s: State, steps: seq<Step>, input: Input)
    requires Consistent(blank, s, steps)
    ensures var (after, output) := Dispatch(blank, s, input);
            && Consistent(blank, after, steps + [Answered(output)])
            && (output.Err? ==> after == s)
            && (output.Ok? && output.value.Transcribed? ==> ActiveAfter(steps) == Some(Transcribe))
            && (output.Ok? && output.value.Started? ==>
                  Supports(s, output.value.kind, output.value.language) && IsLocal(blank, s.tiers[output.value.kind]))
  {
    DispatchEffects(blank, s, input);
    StepIsLast(steps, Dispatch(blank, s, input).1);
    if input.InstallEvidence? {
      NormalizedLanguages(input.evidence.languages);
    }
  }

  lemma ReleaseIsConsistent(blank: Blank, s: State, steps: seq<Step>)
    requires Consistent(blank, s, steps)
    ensures Consistent(blank, Quiet(s), steps + [Forced])
  {
  }

  // ---------- What a run of inputs amounts to ----------

  function Run(blank: Blank, inputs: seq<Input>): State {
    if inputs == [] then INITIAL else Dispatch(blank, Run(blank, inputs[..|inputs| - 1]), inputs[|inputs| - 1]).0
  }

  /** Evidence that a tier runs on the device alone, with every language installed and properly named. */
  predicate ProvesLocal(blank: Blank, evidence: Evidence) {
    && !blank(evidence.implementation) && evidence.explicitlyOnDevice && evidence.networkDeniedSelfTest
    && !evidence.remotelyBacked && !evidence.discoveryContactedProvider && !evidence.prompted && !evidence.downloaded
    && evidence.languages != []
  }

  /** The first language of each tag is the one that counts. */
  predicate CountsAs(languages: seq<Language>, k: nat, tag: Name)
    requires k < |languages|
  {
    languages[k].tag == tag && forall j | 0 <= j < k :: languages[j].tag != tag
  }

  predicate Installed(languages: seq<Language>, tag: Name) {
    exists k :: 0 <= k < |languages| && CountsAs(languages, k, tag) && languages[k].installed
  }

  /** Every language that counts is installed and has a tag of one to sixty-four octets that is not blank. */
  predicate AllUsable(blank: Blank, languages: seq<Language>) {
    forall k | 0 <= k < |languages| && CountsAs(languages, k, languages[k].tag) ::
      languages[k].installed && !blank(languages[k].tag) && |languages[k].tag| <= 64
  }

  /** The evidence last accepted for a tier. */
  function TierOf(blank: Blank, inputs: seq<Input>, kind: Kind): Option<Evidence> {
    if inputs == [] then None
    else
      match inputs[|inputs| - 1]
      case InstallEvidence(evidence) =>
        if evidence.kind == kind && ProvesLocal(blank, evidence) && AllUsable(blank, evidence.languages)
        then Some(evidence) else TierOf(blank, inputs[..|inputs| - 1], kind)
      case _ => TierOf(blank, inputs[..|inputs| - 1], kind)
  }

  lemma FirstCounts(languages: seq<Language>, k: nat)
    requires k < |languages|
    ensures languages[k].tag !in Tags(languages[..k]) <==> CountsAs(languages, k, languages[k].tag)
  {
    assert forall j | 0 <= j < k :: Tags(languages[..k])[j] == languages[j].tag;
    if languages[k].tag in Tags(languages[..k]) {
      var j :| 0 <= j < k && Tags(languages[..k])[j] == languages[k].tag;
      assert languages[j].tag == languages[k].tag;
    }
  }

  /** A language of the list that counts. */
  predicate Counts(languages: seq<Language>, x: Language) {
    exists k :: 0 <= k < |languages| && languages[k] == x && CountsAs(languages, k, x.tag)
  }

  lemma CountsOnce(languages: seq<Language>, x: Language, y: Language)
    requires Counts(languages, x) && Counts(languages, y) && x.tag == y.tag
    ensures x == y
  {
  }

  /** The normalized languages are those that count. */
  lemma NormalAreThoseThatCount(languages: seq<Language>, x: Language)
    ensures x in NormalizeLanguages(languages) <==> Counts(languages, x)
  {
    NormalizedLanguages(languages);
    if x in NormalizeLanguages(languages) {
      NormalCounts(languages, x);
    }
    if Counts(languages, x) {
      var k :| 0 <= k < |languages| && languages[k] == x && CountsAs(languages, k, x.tag);
      assert Tags(languages)[k] == x.tag;
      var y := NormalOfTag(NormalizeLanguages(languages), x.tag);
      NormalCounts(languages, y);
      CountsOnce(languages, x, y);
    }
  }

  lemma NormalOfTag(normal: seq<Language>, tag: Name) returns (y: Language)
    requires tag in Tags(normal)
    ensures y in normal && y.tag == tag
  {
    var m :| 0 <= m < |Tags(normal)| && Tags(normal)[m] == tag;
    y := normal[m];
  }

  lemma NormalCounts(languages: seq<Language>, x: Language)
    requires x in NormalizeLanguages(languages)
    ensures Counts(languages, x)
  {
    NormalizedLanguages(languages);
    var k :| 0 <= k < |languages| && languages[k] == x && x.tag !in Tags(languages[..k]);
    FirstCounts(languages, k);
  }

  lemma LocalMeans(blank: Blank, evidence: Evidence)
    ensures IsLocal(blank, Normalized(evidence))
            <==> ProvesLocal(blank, evidence) && AllUsable(blank, evidence.languages)
  {
    var languages, normal := evidence.languages, NormalizeLanguages(evidence.languages);
    assert normal == [] <==> languages == [] by {
      NormalizedLanguages(languages);
      assert normal != [] ==> Tags(normal)[0] in Tags(languages);
      assert languages != [] ==> Tags(languages)[0] in Tags(normal);
    }
    forall x ensures x in normal <==> Counts(languages, x) {
      NormalAreThoseThatCount(languages, x);
    }
    if forall k | 0 <= k < |normal| :: normal[k].installed && !blank(normal[k].tag) && |normal[k].tag| <= 64 {
      forall k | 0 <= k < |languages| && CountsAs(languages, k, languages[k].tag)
        ensures languages[k].installed && !blank(languages[k].tag) && |languages[k].tag| <= 64
      {
        assert Counts(languages, languages[k]) && languages[k] in normal;
      }
    }
    if AllUsable(blank, languages) {
      forall m | 0 <= m < |normal|
        ensures normal[m].installed && !blank(normal[m].tag) && |normal[m].tag| <= 64
      {
        assert Counts(languages, normal[m]);
      }
    }
  }

  lemma InstalledMeans(languages: seq<Language>, tag: Name)
    ensures Language(tag, true) in NormalizeLanguages(languages) <==> Installed(languages, tag)
  {
    NormalAreThoseThatCount(languages, Language(tag, true));
    if k :| 0 <= k < |languages| && CountsAs(languages, k, tag) && languages[k].installed {
      assert languages[k] == Language(tag, true);
    }
  }

  /** The state holds the tiers that the inputs amount to. */
  predicate HoldsTier(blank: Blank, s: State, inputs: seq<Input>, kind: Kind) {
    match TierOf(blank, inputs, kind)
    case None => kind !in s.tiers
    case Some(evidence) => kind in s.tiers && s.tiers[kind] == Normalized(evidence)
  }

  lemma {:induction false} RunHoldsTiers(blank: Blank, inputs: seq<Input>, kind: Kind)
    ensures HoldsTier(blank, Run(blank, inputs), inputs, kind)
  {
    if inputs != [] {
      var front, last := inputs[..|inputs| - 1], inputs[|inputs| - 1];
      RunHoldsTiers(blank, front, kind);
      DispatchEffects(blank, Run(blank, front), last);
      if last.InstallEvidence? {
        LocalMeans(blank, last.evidence);
      }
    }
  }

  /** Which tiers there are afterwards depends on the tiers before and not on what is going on. */
  lemma TiersDecide(blank: Blank, s: State, other: State, input: Input)
    requires s.tiers == other.tiers
    ensures Dispatch(blank, s, input).0.tiers == Dispatch(blank, other, input).0.tiers
  {
  }

  /** A tier that is installed has the language. */
  predicate Speaks(blank: Blank, inputs: seq<Input>, kind: Kind, language: Name) {
    TierOf(blank, inputs, kind) != None && Installed(TierOf(blank, inputs, kind).value.languages, language)
  }

  lemma SupportsMeans(blank: Blank, s: State, inputs: seq<Input>, kind: Kind, language: Name)
    requires s.tiers == Run(blank, inputs).tiers
    ensures Supports(s, kind, language) <==> Speaks(blank, inputs, kind, language)
  {
    RunHoldsTiers(blank, inputs, kind);
    if TierOf(blank, inputs, kind).Some? {
      InstalledMeans(TierOf(blank, inputs, kind).value.languages, language);
    }
  }

  /** What an input is answered after a run in which `active` is going on. */
  ghost predicate Answers(blank: Blank, output: Result<Output, SpeechError>, inputs: seq<Input>, active: Option<Kind>,
                          input: Input) {
    match input
    case InstallEvidence(evidence) =>
      if ProvesLocal(blank, evidence) && AllUsable(blank, evidence.languages)
      then output.Ok? && output.value.Available? && output.value.kind == evidence.kind
           && StrictlySorted(output.value.languages)
           && forall tag :: tag in output.value.languages <==> tag in Tags(evidence.languages)
      else output == Err(NotLocal)
    case StartTranscribing(language, pcm) =>
      if pcm == [] then output == Ok(Stopped(EmptyInput))
      else if |pcm| > 8388608 then output == Ok(Stopped(OversizedInput))
      else if Speaks(blank, inputs, Transcribe, language) then output == Ok(Started(Transcribe, language))
      else output == Ok(Unsupported(Transcribe, VoiceNote))
    case StartSpeaking(language, text) =>
      if blank(text) then output == Ok(Stopped(EmptyInput))
      else if |text| > 32768 then output == Ok(Stopped(OversizedInput))
      else if Speaks(blank, inputs, Speak, language) then output == Ok(Started(Speak, language))
      else output == Ok(Unsupported(Speak, Silence))
    case Transcript(language, text) =>
      if active != Some(Transcribe) then output == Err(NotTranscribing)
      else if blank(text) then output == Ok(Stopped(EmptyInput))
      else output == Ok(Transcribed(language, text))
    case Complete => output == Ok(Stopped(Released))
    case Stop(reason) => output == Ok(Stopped(reason))
  }

  /**
   After any run, an input is answered as the inputs so far and the activity determine; what has ended the activity
   does not matter.
   */
  lemma InputsAreAnswered(blank: Blank, s: State, inputs: seq<Input>, input: Input)
    requires s.tiers == Run(blank, inputs).tiers
    ensures Answers(blank, Dispatch(blank, s, input).1, inputs, s.active, input)
  {
    match input
    case InstallEvidence(evidence) =>
      LocalMeans(blank, evidence);
      NormalizedLanguages(evidence.languages);
    case StartTranscribing(language, _) => SupportsMeans(blank, s, inputs, Transcribe, language);
    case StartSpeaking(language, _) => SupportsMeans(blank, s, inputs, Speak, language);
    case _ =>
  }

  // ---------- The mutable session ----------

  class SpeechState {
    const blank: Blank
    var tiers: map<Kind, Evidence>
    var active: Option<Kind>

    function Value(): State
      reads this
    {
      State(tiers, active)
    }

    constructor (blank: Blank)
      ensures Value() == INITIAL && this.blank == blank
    {
      this.blank := blank;
      tiers, active := map[], None;
    }

    method ReleaseAll()
      modifies this
      ensures Value() == Quiet(old(Value()))
    {
      active := None;
    }

    method StopBecause(reason: StopReason) returns (output: Output)
      modifies this
      ensures (Value(), Ok(output)) == StopFor(old(Value()), reason)
    {
      active := None;
      return Stopped(reason);
    }

    method StartActivity(kind: Kind, language: Name) returns (output: Output)
      modifies this
      ensures (Value(), Ok(output)) == Start(old(Value()), kind, language)
    {
      var supported := kind in tiers && Language(language, true) in tiers[kind].languages;
      if !supported {
        return Unsupported(kind, FallbackFor(kind));
      }
      active := Some(kind);
      return Started(kind, language);
    }

    method DispatchInput(input: Input) returns (output: Result<Output, SpeechError>)
      modifies this
      ensures (Value(), output) == Dispatch(blank, old(Value()), input)
    {
      var answer;
      match input {
        case InstallEvidence(evidence) =>
          var normal := Normalized(evidence);
          if !IsLocal(blank, normal) {
            return Err(NotLocal);
          }
          tiers := tiers[normal.kind := normal];
          return Ok(Available(normal.kind, Tags(normal.languages)));
        case StartTranscribing(language, pcm) =>
          if pcm == [] {
            answer := StopBecause(EmptyInput);
          } else if |pcm| > MAX_PCM_BYTES {
            answer := StopBecause(OversizedInput);
          } else {
            answer := StartActivity(Transcribe, language);
          }
        case Transcript(language, text) =>
          if active != Some(Transcribe) {
            return Err(NotTranscribing);
          }
          if blank(text) {
            answer := StopBecause(EmptyInput);
          } else {
            active := None;
            answer := Transcribed(language, text);
          }
        case StartSpeaking(language, text) =>
          if blank(text) {
            answer := StopBecause(EmptyInput);
          } else if |text| > MAX_SPEAK_BYTES {
            answer := StopBecause(OversizedInput);
          } else {
            answer := StartActivity(Speak, language);
          }
        case Complete => answer := StopBecause(Released);
        case Stop(reason) => answer := StopBecause(reason);
      }
      return Ok(answer);
    }
  }
}
