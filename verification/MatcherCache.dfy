/** The provider registry, `evaluate` as it runs, stage by stage, and the generation-scoped result cache. */
module MatcherCache {
  import opened Wrappers
  import opened Matcher
  import opened JsonText
  import Mapping

  // ---------------------------------------------------------------- registry

  datatype RegistryError = DuplicateProvider | EmptyProfileVersion

  class InMemoryProviderRegistry {
    var definitions: seq<Provider>
    var revision: nat

    /** Ids are unique, and the revision counts the registrations. */
    ghost predicate Valid()
      reads this
    {
      revision == |definitions| && forall i, j :: 0 <= i < j < |definitions| ==> definitions[i].id != definitions[j].id
    }

    constructor ()
      ensures Valid() && definitions == []
    {
      definitions, revision := [], 0;
    }

    method Register(definition: Provider) returns (error: Option<RegistryError>)
      requires Valid()
      modifies this
      ensures Valid()
      ensures error == Some(DuplicateProvider) <==> exists i :: 0 <= i < |old(definitions)| && old(definitions)[i].id == definition.id
      ensures error == Some(EmptyProfileVersion) ==> Mapping.Trim(definition.profileVersion) == ""
      ensures error.None? ==> Mapping.Trim(definition.profileVersion) != ""
      ensures definitions == if error.None? then old(definitions) + [definition] else old(definitions)
    {
      for i := 0 to |definitions|
        invariant forall j :: 0 <= j < i ==> definitions[j].id != definition.id
      {
        if definitions[i].id == definition.id {
          return Some(DuplicateProvider);
        }
      }
      if Mapping.Trim(definition.profileVersion) == "" {
        return Some(EmptyProfileVersion);
      }
      definitions := definitions + [definition];
      revision := revision + 1;
      error := None;
    }
  }

  // ---------------------------------------------------------------- evaluation

  /** What the loops of `evaluate` have pushed and awarded so far. */
  ghost predicate Reached(g: Progress, evidence: seq<Evidence>, conflicts: seq<Evidence>, candidates: seq<Candidate>) {
    evidence == g.evidence && conflicts == g.conflicts && candidates == AddAll([], g.awards)
  }

  lemma {:induction false} AddAllConcat(cs: seq<Candidate>, a: seq<Award>, b: seq<Award>)
    ensures AddAll(cs, a + b) == AddAll(AddAll(cs, a), b)
  {
    if b == [] {
      assert a + b == a;
    } else {
      assert (a + b)[..|a + b| - 1] == a + b[..|b| - 1];
      AddAllConcat(cs, a, b[..|b| - 1]);
    }
  }

  method AddCandidates(candidates: seq<Candidate>, provider: Provider, profiles: seq<string>, strength: Strength)
    returns (r: seq<Candidate>)
    ensures r == AddAll(candidates, AwardsTo(provider, profiles, strength))
  {
    r := candidates;
    ghost var awards := AwardsTo(provider, profiles, strength);
    for i := 0 to |profiles|
      invariant r == AddAll(candidates, awards[..i])
    {
      assert awards[..i + 1][..i] == awards[..i];
      r := AddCandidate(r, Award(provider, profiles[i], strength));
    }
    assert awards[..|profiles|] == awards;
  }

  method PassiveLoop(provider: Provider, request: Request, ghost g: Progress,
                     e: seq<Evidence>, f: seq<Evidence>, cs: seq<Candidate>)
    returns (evidence: seq<Evidence>, conflicts: seq<Evidence>, candidates: seq<Candidate>)
    requires Reached(g, e, f, cs)
    ensures Reached(PassiveOf(g, provider, provider.matchers, request), evidence, conflicts, candidates)
  {
    evidence, conflicts, candidates := e, f, cs;
    var ms := provider.matchers;
    for i := 0 to |ms|
      invariant Reached(PassiveOf(g, provider, ms[..i], request), evidence, conflicts, candidates)
    {
      var m := ms[i];
      assert ms[..i + 1][..i] == ms[..i];
      var signal := PassiveSignal(m, request);
      var item := Evidence(provider.id, if |m.profiles| == 1 then Some(m.profiles[0]) else None, PassiveFacts, m.id, signal, Some(m.strength),
                           if signal.Match? then "expected-fact-present" else "expected-fact-not-proven");
      evidence := evidence + [item];
      if signal.Mismatch? && m.required {
        conflicts := conflicts + [item];
      }
      if signal.Match? {
        AddAllConcat([], PassiveOf(g, provider, ms[..i], request).awards, AwardsTo(provider, m.profiles, m.strength));
        candidates := AddCandidates(candidates, provider, m.profiles, m.strength);
      }
    }
    assert ms[..|ms|] == ms;
  }

  method ProbeLoop(provider: Provider, request: Request, ghost g: Progress,
                   e: seq<Evidence>, f: seq<Evidence>, cs: seq<Candidate>)
    returns (evidence: seq<Evidence>, conflicts: seq<Evidence>, candidates: seq<Candidate>)
    requires Reached(g, e, f, cs)
    ensures Reached(ProbeOf(g, provider, provider.probes, request), evidence, conflicts, candidates)
  {
    evidence, conflicts, candidates := e, f, cs;
    var probes := provider.probes;
    for i := 0 to |probes|
      invariant Reached(ProbeOf(g, provider, probes[..i], request), evidence, conflicts, candidates)
    {
      var result := probes[i].run(request);
      assert probes[..i + 1][..i] == probes[..i];
      var item := Evidence(provider.id, if |result.profiles| == 1 then Some(result.profiles[0]) else None, UnauthenticatedFingerprint, probes[i].id, result.signal,
                           Some(result.strength), result.detail);
      evidence := evidence + [item];
      if result.signal.Mismatch? {
        conflicts := conflicts + [item];
      }
      if result.signal.Match? {
        AddAllConcat([], ProbeOf(g, provider, probes[..i], request).awards, AwardsTo(provider, result.profiles, result.strength));
        candidates := AddCandidates(candidates, provider, result.profiles, result.strength);
      }
    }
    assert probes[..|probes|] == probes;
  }

  lemma ScreenNext(front: seq<Provider>, p: Provider, request: Request)
    ensures TransportAll(front + [p], request) == TransportAll(front, request) + [TransportEvidence(p, request)]
    ensures EligibleOf(front + [p], request) == EligibleOf(front, request) + (if Eligible(p, request) then [p] else [])
  {
    assert (front + [p])[..|front|] == front;
  }

  /** Which providers the transport lets in, and what that says about each. */
  method Screen(registered: seq<Provider>, request: Request) returns (evidence: seq<Evidence>, eligible: seq<Provider>)
    ensures evidence == TransportAll(registered, request) && eligible == EligibleOf(registered, request)
  {
    evidence, eligible := [], [];
    for i := 0 to |registered|
      invariant eligible == EligibleOf(registered[..i], request)
      invariant evidence == TransportAll(registered[..i], request)
    {
      assert registered[..i + 1] == registered[..i] + [registered[i]];
      ScreenNext(registered[..i], registered[i], request);
      var matches := request.transport in registered[i].transports;
      evidence := evidence + [Evidence(registered[i].id, None, TransportEligibility, TransportText(request.transport),
                                       if matches then Match else Mismatch, None,
                                       if matches then "eligible-transport" else "ineligible-transport")];
      if matches {
        eligible := eligible + [registered[i]];
      }
    }
    assert registered[..|registered|] == registered;
  }

  method PassiveStage(eligible: seq<Provider>, request: Request, ghost g: Progress, e: seq<Evidence>)
    returns (evidence: seq<Evidence>, conflicts: seq<Evidence>, candidates: seq<Candidate>)
    requires Reached(g, e, [], [])
    ensures Reached(PassiveAll(g, eligible, request), evidence, conflicts, candidates)
  {
    evidence, conflicts, candidates := e, [], [];
    for i := 0 to |eligible|
      invariant Reached(PassiveAll(g, eligible[..i], request), evidence, conflicts, candidates)
    {
      assert eligible[..i + 1][..i] == eligible[..i];
      evidence, conflicts, candidates :=
        PassiveLoop(eligible[i], request, PassiveAll(g, eligible[..i], request), evidence, conflicts, candidates);
    }
    assert eligible[..|eligible|] == eligible;
  }

  method ProbeStage(eligible: seq<Provider>, request: Request, ghost g: Progress,
                    e: seq<Evidence>, f: seq<Evidence>, cs: seq<Candidate>)
    returns (evidence: seq<Evidence>, conflicts: seq<Evidence>, candidates: seq<Candidate>)
    requires Reached(g, e, f, cs)
    ensures Reached(ProbeAll(g, eligible, request), evidence, conflicts, candidates)
  {
    evidence, conflicts, candidates := e, f, cs;
    for i := 0 to |eligible|
      invariant Reached(ProbeAll(g, eligible[..i], request), evidence, conflicts, candidates)
    {
      assert eligible[..i + 1][..i] == eligible[..i];
      evidence, conflicts, candidates :=
        ProbeLoop(eligible[i], request, ProbeAll(g, eligible[..i], request), evidence, conflicts, candidates);
    }
    assert eligible[..|eligible|] == eligible;
  }

  method Gather(registered: seq<Provider>, request: Request)
    returns (evidence: seq<Evidence>, conflicts: seq<Evidence>, candidates: seq<Candidate>)
    ensures Reached(Gathered(registered, request), evidence, conflicts, candidates)
  {
    var transportEvidence, eligible := Screen(registered, request);
    ghost var g := Progress(transportEvidence, [], []);
    evidence, conflicts, candidates := PassiveStage(eligible, request, g, transportEvidence);
    evidence, conflicts, candidates :=
      ProbeStage(eligible, request, PassiveAll(g, eligible, request), evidence, conflicts, candidates);
  }

  /** Capability reads of the chosen candidate, and the verdict. */
  method Finish(top: Candidate, request: Request, g: Closer) returns (r: MatchResult)
    ensures r == Select(g, top, request)
  {
    var evidence, conflicts, points: nat := g.evidence, g.conflicts, g.points;
    var readers := top.provider.readers;
    for i := 0 to |readers|
      invariant Closer(evidence, conflicts, points) == ReadAll(g, top.provider, top.profile, readers[..i], request)
    {
      assert readers[..i + 1][..i] == readers[..i];
      var result := readers[i].read(request, top.profile);
      var item := Evidence(top.provider.id, Some(top.profile), CapabilityRead, readers[i].id, result.signal,
                           Some(result.strength), result.detail);
      evidence := evidence + [item];
      if result.signal.Match? {
        points := points + Points(result.strength);
      }
      if result.signal.Mismatch? {
        conflicts := conflicts + [item];
      }
    }
    assert readers[..|readers|] == readers;
    if !ScoreOf(points).Supported? {
      return Unresolved(StatusAmbiguous, request, points, evidence, conflicts);
    }
    r := MatchResult(StatusSelected, Some(top.provider.id), Some(top.profile), Supported, ConfidenceOf(points),
                     top.provider.access(top.profile).ReadWrite?, evidence, conflicts, request.generation, request.modem);
  }

  /** The whole evaluation; `authentications` lists the provider and profile of each authentication it ran. */
  method Run(registered: seq<Provider>, request: Request) returns (r: MatchResult, authentications: seq<(string, string)>)
    ensures r == Evaluate(registered, request)
    ensures |authentications| <= 1
    ensures authentications != [] ==>
              && DecisionOf(registered, request).Top?
              && var top := DecisionOf(registered, request).candidate;
                 top.provider.auth.Some? && authentications == [(top.provider.id, top.profile)]
  {
    authentications := [];
    var evidence, conflicts, candidates := Gather(registered, request);
    var ranked := Ranked(candidates);
    if ranked == [] {
      r := Unresolved(StatusUnsupported, request, 0, evidence, conflicts);
      return;
    }
    var top := ranked[0];
    if |ranked| > 1 && ranked[1].points == top.points {
      r := Unresolved(StatusAmbiguous, request, top.points, evidence, conflicts);
      return;
    }
    var g := Closer(evidence, conflicts, top.points);
    if top.provider.auth.Some? {
      var confirmation := Authenticate(g, top, top.provider.auth.value, request);
      authentications := [(top.provider.id, top.profile)];
      if !confirmation.matched {
        r := Unresolved(StatusAmbiguous, request, top.points, confirmation.progress.evidence, confirmation.progress.conflicts);
        return;
      }
      g := confirmation.progress;
    }
    r := Finish(top, request, g);
  }

  // ---------------------------------------------------------------- cache signatures

  function TransportJson(t: Transport): Json {
    Str(TransportText(t))
  }

  function KindText(k: FactKind): string {
    match k
    case FUsb => "usb"
    case FPci => "pci"
    case FInterface => "interface"
    case FDriver => "driver"
    case FGateway => "gateway"
    case FModel => "model"
    case FFirmware => "firmware"
  }

  function FactJson(f: Fact): Json {
    Obj([Member("kind", Str(KindText(f.kind))), Member("value", Str(f.value))])
  }

  function FactsJson(fs: seq<Fact>): Json {
    Arr(seq(|fs|, i requires 0 <= i < |fs| => FactJson(fs[i])))
  }

  function SignatureJson(request: Request, revision: nat): Json {
    Obj([ Member("registryRevision", Num(revision, 0)),
          Member("generation", Num(request.generation, 0)),
          Member("transport", TransportJson(request.transport)),
          Member("passiveFacts", FactsJson(request.facts)),
          Member("composition", Str(request.composition)),
          Member("firmware", Mapping.OptionJson(request.firmware)) ])
  }

  function CacheSignature(request: Request, revision: nat): string {
    Stringify(SignatureJson(request, revision))
  }

  lemma FactsInjective(a: seq<Fact>, b: seq<Fact>)
    requires FactsJson(a) == FactsJson(b)
    ensures a == b
  {
    var x, y := FactsJson(a).items, FactsJson(b).items;
    assert |x| == |a| && |y| == |b|;
    forall i | 0 <= i < |a| ensures a[i] == b[i] {
      assert x[i] == FactJson(a[i]) && y[i] == FactJson(b[i]);
      Mapping.MembersEqual(FactJson(a[i]).members, FactJson(b[i]).members, 0);
      Mapping.MembersEqual(FactJson(a[i]).members, FactJson(b[i]).members, 1);
    }
  }

  /** Two requests of one modem have the same signature exactly when they are equal and meet the same registry. */
  lemma SignatureExact(a: Request, r: nat, b: Request, t: nat)
    requires a.modem == b.modem
    ensures CacheSignature(a, r) == CacheSignature(b, t) <==> a == b && r == t
  {
    if CacheSignature(a, r) == CacheSignature(b, t) {
      var x, y := SignatureJson(a, r).members, SignatureJson(b, t).members;
      StringifyInjective(SignatureJson(a, r), SignatureJson(b, t));
      Mapping.MembersEqual(x, y, 0);
      Mapping.MembersEqual(x, y, 1);
      Mapping.MembersEqual(x, y, 2);
      Mapping.MembersEqual(x, y, 3);
      Mapping.MembersEqual(x, y, 4);
      Mapping.MembersEqual(x, y, 5);
      FactsInjective(a.facts, b.facts);
    }
  }

  // ---------------------------------------------------------------- concurrent matches

  datatype CacheEntry = CacheEntry(signature: string, result: MatchResult)

  /** One `match` call: the registry it met and, once settled, what it resolved to. */
  datatype Call = Call(request: Request, registry: seq<Provider>, result: Option<MatchResult>)

  datatype State = State(definitions: seq<Provider>, cache: map<string, CacheEntry>, calls: seq<Call>)

  /** A registration, the start of a call up to its first await, and the end of an evaluation. */
  datatype Action = Register(definition: Provider) | Begin(request: Request) | Settle(call: nat)

  const INITIAL := State([], map[], [])

  predicate Registers(s: State, p: Provider) {
    (forall i :: 0 <= i < |s.definitions| ==> s.definitions[i].id != p.id) && Mapping.Trim(p.profileVersion) != ""
  }

  function Hit(s: State, request: Request): Option<MatchResult> {
    if request.modem in s.cache && s.cache[request.modem].signature == CacheSignature(request, |s.definitions|)
    then Some(s.cache[request.modem].result) else None
  }

  function Step(s: State, a: Action): State {
    match a
    case Register(p) => if Registers(s, p) then s.(definitions := s.definitions + [p]) else s
    case Begin(request) => s.(calls := s.calls + [Call(request, s.definitions, Hit(s, request))])
    case Settle(c) =>
      if c < |s.calls| && s.calls[c].result.None? then
        var call := s.calls[c];
        var result := Evaluate(call.registry, call.request);
        s.(calls := s.calls[c := call.(result := Some(result))],
           cache := s.cache[call.request.modem := CacheEntry(CacheSignature(call.request, |call.registry|), result)])
      else s
  }

  function At(actions: seq<Action>, i: nat): State
    requires i <= |actions|
  {
    if i == 0 then INITIAL else Step(At(actions, i - 1), actions[i - 1])
  }

  /** A cached result is what some request of that modem evaluates to against an earlier registry. */
  ghost predicate EntryOk(definitions: seq<Provider>, modem: string, e: CacheEntry) {
    exists request: Request, r: nat :: r <= |definitions| && request.modem == modem
      && e.signature == CacheSignature(request, r) && e.result == Evaluate(definitions[..r], request)
  }

  ghost predicate CallOk(definitions: seq<Provider>, c: Call) {
    && c.registry <= definitions
    && (c.result.Some? ==> c.result.value == Evaluate(c.registry, c.request))
  }

  ghost predicate Inv(s: State) {
    && (forall m :: m in s.cache ==> EntryOk(s.definitions, m, s.cache[m]))
    && (forall c :: 0 <= c < |s.calls| ==> CallOk(s.definitions, s.calls[c]))
  }

  /** A hit is as good as an evaluation. */
  lemma HitIsFresh(s: State, request: Request)
    requires Inv(s) && Hit(s, request).Some?
    ensures Hit(s, request).value == Evaluate(s.definitions, request)
  {
    var e := s.cache[request.modem];
    assert EntryOk(s.definitions, request.modem, e);
    var other: Request, r: nat :| r <= |s.definitions| && other.modem == request.modem
      && e.signature == CacheSignature(other, r) && e.result == Evaluate(s.definitions[..r], other);
    SignatureExact(other, r, request, |s.definitions|);
    assert s.definitions[..|s.definitions|] == s.definitions;
  }

  lemma EntryStays(definitions: seq<Provider>, p: Provider, m: string, e: CacheEntry)
    requires EntryOk(definitions, m, e)
    ensures EntryOk(definitions + [p], m, e)
  {
    var request: Request, r: nat :| r <= |definitions| && request.modem == m
      && e.signature == CacheSignature(request, r) && e.result == Evaluate(definitions[..r], request);
    assert (definitions + [p])[..r] == definitions[..r];
  }

  lemma RegisterKeepsInv(s: State, p: Provider)
    requires Inv(s)
    ensures Inv(s.(definitions := s.definitions + [p]))
  {
    forall m | m in s.cache ensures EntryOk(s.definitions + [p], m, s.cache[m]) {
      EntryStays(s.definitions, p, m, s.cache[m]);
    }
    forall c | 0 <= c < |s.calls| ensures CallOk(s.definitions + [p], s.calls[c]) {
      assert CallOk(s.definitions, s.calls[c]);
    }
  }

  lemma BeginKeepsInv(s: State, call: Call)
    requires Inv(s) && CallOk(s.definitions, call)
    ensures Inv(s.(calls := s.calls + [call]))
  {
  }

  lemma SettleKeepsInv(s: State, c: nat, call: Call, m: string, e: CacheEntry)
    requires Inv(s) && c < |s.calls| && CallOk(s.definitions, call) && EntryOk(s.definitions, m, e)
    ensures Inv(s.(calls := s.calls[c := call], cache := s.cache[m := e]))
  {
  }

  lemma SettledEntry(definitions: seq<Provider>, call: Call)
    requires CallOk(definitions, call) && call.result.Some?
    ensures EntryOk(definitions, call.request.modem,
                    CacheEntry(CacheSignature(call.request, |call.registry|), call.result.value))
  {
    assert definitions[..|call.registry|] == call.registry;
  }

  lemma StepKeepsInv(s: State, a: Action)
    requires Inv(s)
    ensures Inv(Step(s, a))
  {
    match a {
      case Register(p) => RegisterKeepsInv(s, p);
      case Begin(request) =>
        if Hit(s, request).Some? {
          HitIsFresh(s, request);
        }
        BeginKeepsInv(s, Call(request, s.definitions, Hit(s, request)));
      case Settle(c) =>
        if c < |s.calls| && s.calls[c].result.None? {
          assert CallOk(s.definitions, s.calls[c]);
          var call := Step(s, a).calls[c];
          SettledEntry(s.definitions, call);
          SettleKeepsInv(s, c, call, call.request.modem,
                         CacheEntry(CacheSignature(call.request, |call.registry|), call.result.value));
        }
    }
  }

  lemma {:induction false} RunKeepsInv(actions: seq<Action>, i: nat)
    requires i <= |actions|
    ensures Inv(At(actions, i))
  {
    if i > 0 {
      RunKeepsInv(actions, i - 1);
      StepKeepsInv(At(actions, i - 1), actions[i - 1]);
    }
  }

  /** The same call, perhaps settled meanwhile. */
  ghost predicate SameCall(a: Call, b: Call) {
    a.request == b.request && a.registry == b.registry
  }

  /** No call is dropped or turned into another. */
  ghost predicate Kept(cs: seq<Call>, ds: seq<Call>) {
    |cs| <= |ds| && forall c :: 0 <= c < |cs| ==> SameCall(cs[c], ds[c])
  }

  lemma StepKeepsCalls(s: State, a: Action)
    ensures Kept(s.calls, Step(s, a).calls)
  {
  }

  lemma KeptFurther(cs: seq<Call>, ds: seq<Call>, es: seq<Call>)
    requires Kept(cs, ds) && Kept(ds, es)
    ensures Kept(cs, es)
  {
  }

  lemma {:induction false} CallsKept(actions: seq<Action>, i: nat, j: nat)
    requires i <= j <= |actions|
    ensures Kept(At(actions, i).calls, At(actions, j).calls)
    decreases j
  {
    if i < j {
      CallsKept(actions, i, j - 1);
      StepKeepsCalls(At(actions, j - 1), actions[j - 1]);
      KeptFurther(At(actions, i).calls, At(actions, j - 1).calls, At(actions, j).calls);
    }
  }

  lemma BegunCall(s: State, request: Request)
    ensures var t := Step(s, Begin(request));
            |t.calls| == |s.calls| + 1 && t.calls[|s.calls|].request == request && t.calls[|s.calls|].registry == s.definitions
  {
  }

  /** If the call has settled, then with what evaluating `request` against `registry` gives. */
  ghost predicate FreshResult(call: Call, registry: seq<Provider>, request: Request) {
    call.result.Some? ==> call.result.value == Evaluate(registry, request)
  }

  lemma CallIsFresh(s: State, c: nat, registry: seq<Provider>, request: Request)
    requires Inv(s) && c < |s.calls| && s.calls[c].registry == registry && s.calls[c].request == request
    ensures FreshResult(s.calls[c], registry, request)
  {
    assert CallOk(s.definitions, s.calls[c]);
  }

  /**
   In any interleaving of `match` calls and registrations: whatever a call resolves to, from the cache or
   not, is what evaluating its request against the registry as it stood when the call began gives,
   even when an older, slower evaluation has overwritten the cache in between.
   */
  lemma CacheTransparent(actions: seq<Action>, i: nat, j: nat)
    requires i < j <= |actions| && actions[i].Begin?
    ensures var c := |At(actions, i).calls|;
            && c < |At(actions, j).calls|
            && FreshResult(At(actions, j).calls[c], At(actions, i).definitions, actions[i].request)
  {
    var c := |At(actions, i).calls|;
    BegunCall(At(actions, i), actions[i].request);
    CallsKept(actions, i + 1, j);
    assert SameCall(At(actions, i + 1).calls[c], At(actions, j).calls[c]);
    RunKeepsInv(actions, j);
    CallIsFresh(At(actions, j), c, At(actions, i).definitions, actions[i].request);
  }

  // ---------------------------------------------------------------- the matcher object

  class GenerationScopedProviderMatcher {
    const registry: InMemoryProviderRegistry
    var cache: map<string, CacheEntry>
    var calls: seq<Call>

    constructor (registry: InMemoryProviderRegistry)
      ensures this.registry == registry && cache == map[] && calls == []
    {
      this.registry := registry;
      cache := map[];
      calls := [];
    }

    ghost function View(): State
      reads this, registry
    {
      State(registry.definitions, cache, calls)
    }

    /** `match` up to its await: a hit settles the call at once. */
    method BeginMatch(request: Request)
      requires registry.Valid()
      modifies this
      ensures View() == Step(old(View()), Begin(request))
    {
      var signature := CacheSignature(request, registry.revision);
      var result := None;
      if request.modem in cache && cache[request.modem].signature == signature {
        result := Some(cache[request.modem].result);
      }
      calls := calls + [Call(request, registry.definitions, result)];
    }

    /** The evaluation of call `c` is through: store and return its result. */
    method SettleMatch(c: nat)
      requires c < |calls| && calls[c].result.None?
      modifies this
      ensures View() == Step(old(View()), Settle(c))
    {
      var call := calls[c];
      var result, _ := Run(call.registry, call.request);
      cache := cache[call.request.modem := CacheEntry(CacheSignature(call.request, |call.registry|), result)];
      calls := calls[c := call.(result := Some(result))];
    }
  }
}
