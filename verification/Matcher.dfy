/** Evidence-scored provider selection (`providers/matcher.ts`). */
module Matcher {
  import opened Wrappers
  import opened Separator

  // ---------------------------------------------------------------- vocabulary

  datatype Transport = Usb | Pci | Network | ModemManager
  datatype FactKind = FUsb | FPci | FInterface | FDriver | FGateway | FModel | FFirmware
  datatype Fact = Fact(kind: FactKind, value: string)

  datatype Request = Request(
    modem: string,
    generation: nat,
    transport: Transport,
    facts: seq<Fact>,
    composition: string,
    firmware: Option<string>)

  datatype Strength = Weak | Moderate | Strong
  datatype Signal = Match | Mismatch | UnknownSignal
  datatype Access = ReadOnly | ReadWrite

  datatype PassiveMatcher = PassiveMatcher(
    id: string, fact: FactKind, expected: seq<string>, profiles: seq<string>, strength: Strength, required: bool)

  datatype Fingerprint = Fingerprint(signal: Signal, strength: Strength, profiles: seq<string>, detail: string)

  /** Probes, authentication and readers are deterministic: they are functions of what they are given. */
  datatype Probe = Probe(id: string, run: Request -> Fingerprint)

  datatype CapabilityResult = CapabilityResult(signal: Signal, strength: Strength, detail: string)
  datatype CapabilityReader = CapabilityReader(id: string, read: (Request, string) -> CapabilityResult)

  datatype AuthResult = Matched(profile: string, detail: string) | AuthRefused(detail: string) | AuthUnavailable(detail: string)
  datatype AuthenticatedProfile = AuthenticatedProfile(algorithm: string, authenticate: (Request, seq<string>) -> AuthResult)

  datatype Provider = Provider(
    id: string,
    profileVersion: string,
    transports: seq<Transport>,
    matchers: seq<PassiveMatcher>,
    probes: seq<Probe>,
    auth: Option<AuthenticatedProfile>,
    readers: seq<CapabilityReader>,
    access: string -> Access)

  datatype EvidenceStage = TransportEligibility | PassiveFacts | UnauthenticatedFingerprint | AuthenticatedStage | CapabilityRead

  datatype Evidence = Evidence(
    provider: string,
    profile: Option<string>,
    stage: EvidenceStage,
    source: string,
    signal: Signal,
    strength: Option<Strength>,
    detail: string)

  datatype Score = Unsupported | Maybe | Likely | Supported
  datatype Status = StatusUnsupported | StatusAmbiguous | StatusSelected

  /** `confidence` is in thirds: `min(1, points / 3)`. */
  datatype MatchResult = MatchResult(
    status: Status,
    provider: Option<string>,
    profile: Option<string>,
    score: Score,
    confidence: nat,
    writable: bool,
    evidence: seq<Evidence>,
    conflicts: seq<Evidence>,
    generation: nat,
    modem: string)

  function Points(s: Strength): nat {
    match s
    case Weak => 1
    case Moderate => 2
    case Strong => 3
  }

  function ScoreOf(points: nat): Score {
    if points == 0 then Unsupported else if points == 1 then Maybe else if points == 2 then Likely else Supported
  }

  function ConfidenceOf(points: nat): nat {
    if points < 3 then points else 3
  }

  // ---------------------------------------------------------------- candidates

  datatype Candidate = Candidate(provider: Provider, profile: string, points: nat)

  function KeyOf(p: Provider, profile: string): string {
    p.id + [NUL] + profile
  }

  /** One award of points to a profile of a provider. */
  datatype Award = Award(provider: Provider, profile: string, strength: Strength)

  function AwardKey(a: Award): string {
    KeyOf(a.provider, a.profile)
  }

  function CandidateKey(c: Candidate): string {
    KeyOf(c.provider, c.profile)
  }

  /** The candidate map in insertion order: points go to the candidate of that key, or to a new one at the end. */
  function AddCandidate(cs: seq<Candidate>, a: Award): seq<Candidate> {
    if cs == [] then [Candidate(a.provider, a.profile, Points(a.strength))]
    else if CandidateKey(cs[0]) == AwardKey(a) then [cs[0].(points := cs[0].points + Points(a.strength))] + cs[1..]
    else [cs[0]] + AddCandidate(cs[1..], a)
  }

  function AddAll(cs: seq<Candidate>, awards: seq<Award>): seq<Candidate> {
    if awards == [] then cs else AddCandidate(AddAll(cs, awards[..|awards| - 1]), awards[|awards| - 1])
  }

  function AwardsTo(p: Provider, profiles: seq<string>, strength: Strength): seq<Award> {
    seq(|profiles|, i requires 0 <= i < |profiles| => Award(p, profiles[i], strength))
  }

  /** Stable sort, most points first. */
  function Ranked(cs: seq<Candidate>): (r: seq<Candidate>)
    ensures |r| == |cs|
  {
    if cs == [] then [] else InsertRanked(cs[0], Ranked(cs[1..]))
  }

  function InsertRanked(c: Candidate, cs: seq<Candidate>): (r: seq<Candidate>)
    ensures |r| == |cs| + 1
  {
    if cs == [] || cs[0].points <= c.points then [c] + cs else [cs[0]] + InsertRanked(c, cs[1..])
  }

  // ---------------------------------------------------------------- evidence

  datatype Progress = Progress(evidence: seq<Evidence>, conflicts: seq<Evidence>, awards: seq<Award>)

  function OnlyProfile(profiles: seq<string>): Option<string> {
    if |profiles| == 1 then Some(profiles[0]) else None
  }

  predicate Eligible(p: Provider, request: Request) {
    request.transport in p.transports
  }

  function TransportText(t: Transport): string {
    match t
    case Usb => "usb"
    case Pci => "pci"
    case Network => "network"
    case ModemManager => "modemmanager"
  }

  function TransportEvidence(p: Provider, request: Request): Evidence {
    var ok := Eligible(p, request);
    Evidence(p.id, None, TransportEligibility, TransportText(request.transport), if ok then Match else Mismatch, None,
             if ok then "eligible-transport" else "ineligible-transport")
  }

  predicate Has(facts: seq<Fact>, kind: FactKind) {
    exists i :: 0 <= i < |facts| && facts[i].kind == kind
  }

  predicate HasOneOf(facts: seq<Fact>, kind: FactKind, expected: seq<string>) {
    exists i :: 0 <= i < |facts| && facts[i].kind == kind && facts[i].value in expected
  }

  function PassiveSignal(m: PassiveMatcher, request: Request): Signal {
    if !Has(request.facts, m.fact) then UnknownSignal
    else if HasOneOf(request.facts, m.fact, m.expected) then Match
    else Mismatch
  }

  function PassiveStep(g: Progress, p: Provider, m: PassiveMatcher, request: Request): Progress {
    var signal := PassiveSignal(m, request);
    var item := Evidence(p.id, OnlyProfile(m.profiles), PassiveFacts, m.id, signal, Some(m.strength),
                         if signal.Match? then "expected-fact-present" else "expected-fact-not-proven");
    Progress(
      g.evidence + [item],
      if signal.Mismatch? && m.required then g.conflicts + [item] else g.conflicts,
      if signal.Match? then g.awards + AwardsTo(p, m.profiles, m.strength) else g.awards)
  }

  function PassiveOf(g: Progress, p: Provider, ms: seq<PassiveMatcher>, request: Request): Progress {
    if ms == [] then g else PassiveStep(PassiveOf(g, p, ms[..|ms| - 1], request), p, ms[|ms| - 1], request)
  }

  function PassiveAll(g: Progress, ps: seq<Provider>, request: Request): Progress {
    if ps == [] then g
    else PassiveOf(PassiveAll(g, ps[..|ps| - 1], request), ps[|ps| - 1], ps[|ps| - 1].matchers, request)
  }

  function ProbeStep(g: Progress, p: Provider, probe: Probe, request: Request): Progress {
    var result := probe.run(request);
    var item := Evidence(p.id, OnlyProfile(result.profiles), UnauthenticatedFingerprint, probe.id, result.signal,
                         Some(result.strength), result.detail);
    Progress(
      g.evidence + [item],
      if result.signal.Mismatch? then g.conflicts + [item] else g.conflicts,
      if result.signal.Match? then g.awards + AwardsTo(p, result.profiles, result.strength) else g.awards)
  }

  function ProbeOf(g: Progress, p: Provider, probes: seq<Probe>, request: Request): Progress {
    if probes == [] then g else ProbeStep(ProbeOf(g, p, probes[..|probes| - 1], request), p, probes[|probes| - 1], request)
  }

  function ProbeAll(g: Progress, ps: seq<Provider>, request: Request): Progress {
    if ps == [] then g
    else ProbeOf(ProbeAll(g, ps[..|ps| - 1], request), ps[|ps| - 1], ps[|ps| - 1].probes, request)
  }

  function EligibleOf(ps: seq<Provider>, request: Request): seq<Provider> {
    if ps == [] then []
    else EligibleOf(ps[..|ps| - 1], request) + (if Eligible(ps[|ps| - 1], request) then [ps[|ps| - 1]] else [])
  }

  function TransportAll(ps: seq<Provider>, request: Request): seq<Evidence> {
    seq(|ps|, i requires 0 <= i < |ps| => TransportEvidence(ps[i], request))
  }

  /** Everything gathered before anyone is authenticated. */
  function Gathered(ps: seq<Provider>, request: Request): Progress {
    var eligible := EligibleOf(ps, request);
    ProbeAll(PassiveAll(Progress(TransportAll(ps, request), [], []), eligible, request), eligible, request)
  }

  // ---------------------------------------------------------------- the decision and what follows it

  datatype Decision = NoCandidate | Tie(points: nat) | Top(candidate: Candidate)

  function Decide(cs: seq<Candidate>): Decision {
    var ranked := Ranked(cs);
    if ranked == [] then NoCandidate
    else if |ranked| > 1 && ranked[1].points == ranked[0].points then Tie(ranked[0].points)
    else Top(ranked[0])
  }

  function Unresolved(status: Status, request: Request, points: nat, evidence: seq<Evidence>, conflicts: seq<Evidence>): MatchResult {
    MatchResult(status, None, None, ScoreOf(points), ConfidenceOf(points), false, evidence, conflicts,
                request.generation, request.modem)
  }

  /** Evidence, conflicts and points while the chosen candidate is looked at more closely. */
  datatype Closer = Closer(evidence: seq<Evidence>, conflicts: seq<Evidence>, points: nat)

  function ReadStep(g: Closer, p: Provider, profile: string, reader: CapabilityReader, request: Request): Closer {
    var result := reader.read(request, profile);
    var item := Evidence(p.id, Some(profile), CapabilityRead, reader.id, result.signal, Some(result.strength), result.detail);
    Closer(
      g.evidence + [item],
      if result.signal.Mismatch? then g.conflicts + [item] else g.conflicts,
      if result.signal.Match? then g.points + Points(result.strength) else g.points)
  }

  function ReadAll(g: Closer, p: Provider, profile: string, readers: seq<CapabilityReader>, request: Request): Closer {
    if readers == [] then g
    else ReadStep(ReadAll(g, p, profile, readers[..|readers| - 1], request), p, profile, readers[|readers| - 1], request)
  }

  /** Authentication of the one candidate: what it adds, and whether it confirmed the profile. */
  datatype Confirmation = Confirmation(progress: Closer, matched: bool)

  function Authenticate(g: Closer, c: Candidate, auth: AuthenticatedProfile, request: Request): Confirmation {
    var result := auth.authenticate(request, [c.profile]);
    var matched := result.Matched? && result.profile == c.profile;
    var item := Evidence(c.provider.id, Some(c.profile), AuthenticatedStage, auth.algorithm,
                         if matched then Match else if result.AuthUnavailable? then UnknownSignal else Mismatch,
                         Some(Strong), result.detail);
    Confirmation(
      Closer(g.evidence + [item],
             if matched then g.conflicts else g.conflicts + [item],
             if matched then g.points + Points(Strong) else g.points),
      matched)
  }

  function Select(g: Closer, c: Candidate, request: Request): MatchResult {
    var r := ReadAll(g, c.provider, c.profile, c.provider.readers, request);
    if !ScoreOf(r.points).Supported? then Unresolved(StatusAmbiguous, request, r.points, r.evidence, r.conflicts)
    else MatchResult(StatusSelected, Some(c.provider.id), Some(c.profile), Supported, ConfidenceOf(r.points),
                     c.provider.access(c.profile).ReadWrite?, r.evidence, r.conflicts, request.generation, request.modem)
  }

  function Conclude(d: Decision, evidence: seq<Evidence>, conflicts: seq<Evidence>, request: Request): MatchResult {
    match d
    case NoCandidate => Unresolved(StatusUnsupported, request, 0, evidence, conflicts)
    case Tie(points) => Unresolved(StatusAmbiguous, request, points, evidence, conflicts)
    case Top(c) =>
      var g := Closer(evidence, conflicts, c.points);
      if c.provider.auth.None? then Select(g, c, request)
      else
        var confirmed := Authenticate(g, c, c.provider.auth.value, request);
        if !confirmed.matched then
          Unresolved(StatusAmbiguous, request, c.points, confirmed.progress.evidence, confirmed.progress.conflicts)
        else Select(confirmed.progress, c, request)
  }

  function DecisionOf(ps: seq<Provider>, request: Request): Decision {
    Decide(AddAll([], Gathered(ps, request).awards))
  }

  /** What `evaluate` resolves to for the providers registered when it is called. */
  function Evaluate(ps: seq<Provider>, request: Request): MatchResult {
    var g := Gathered(ps, request);
    Conclude(DecisionOf(ps, request), g.evidence, g.conflicts, request)
  }
}
