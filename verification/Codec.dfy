/** The journal's entry vocabulary and its one-line JSON codec (`journal/entry.ts`, `journal/codec.ts`). */
module Codec {
  import opened Wrappers
  import opened Operation
  import opened JsonText
  import opened JsonCut

  // ---------------------------------------------------------------- entries

  datatype Outcome =
    | OutApplied
    | OutRefused(reason: string)
    | OutFailed(reason: string)
    | OutUnknown(why: UnknownReason)

  datatype Phase = Started | Completed(outcome: Outcome)

  datatype Evidence = Evidence(
    descriptorId: string,
    provider: string,
    authority: Authority,
    impact: Impact,
    profiles: seq<string>,
    firmware: seq<string>,
    confidence: Confidence)

  datatype Entry = Entry(
    phase: Phase,
    operationId: string,
    modem: ModemId,
    generation: Generation,
    recordedAtMs: nat,
    descriptor: Evidence)

  /** Flatten a descriptor to what the journal keeps of it. */
  function EvidenceOf(d: Descriptor): Evidence {
    Evidence(d.id, d.provider, d.authority, d.impact, d.profiles, d.firmware, d.confidence)
  }

  /** Project a result onto its journalable outcome; the value is dropped. */
  function OutcomeOf(r: OpResult): (o: Outcome)
    ensures o.OutUnknown? <==> r.RequiresReconciliation()
  {
    match r
    case ResApplied(_, _) => OutApplied
    case ResRefused(reason, _) => OutRefused(reason)
    case ResFailed(reason, _) => OutFailed(reason)
    case ResUnknown(why, _) => OutUnknown(why)
  }

  /** The entry the engine's journal hook writes: a start, or a completion with its result. */
  function EntryFor(x: Execution, g: Generation, result: Option<OpResult>, recordedAtMs: nat): Entry {
    var phase := if result.None? then Started else Completed(OutcomeOf(result.value));
    Entry(phase, x.operationId, x.modem, g, recordedAtMs, EvidenceOf(x.descriptor))
  }

  predicate ReasonGiven(o: Outcome) {
    (o.OutRefused? || o.OutFailed?) ==> o.reason != ""
  }

  /** Every string the decoder insists on has at least one character. */
  predicate WellFormed(e: Entry) {
    && e.operationId != ""
    && e.modem != ""
    && e.descriptor.descriptorId != ""
    && e.descriptor.provider != ""
    && (e.phase.Completed? ==> ReasonGiven(e.phase.outcome))
  }

  // ---------------------------------------------------------------- vocabulary

  const SCHEMA_VERSION := 1

  function AuthorityText(a: Authority): string {
    match a
    case Provider => "provider"
    case Controller => "controller"
    case Hardware => "hardware"
  }

  function ImpactText(i: Impact): string {
    match i
    case Read => "read"
    case Write => "write"
    case Session => "session"
    case Disruptive => "disruptive"
    case Recovery => "recovery"
  }

  function ConfidenceText(c: Confidence): string {
    match c
    case High => "high"
    case Medium => "medium"
    case Low => "low"
    case Unknown => "unknown"
  }

  function WhyText(w: UnknownReason): string {
    match w
    case StaleGeneration => "stale-generation"
    case WriteReplyTimedOut => "write-reply-timed-out"
    case WriteReplyDropped => "write-reply-dropped"
  }

  // ---------------------------------------------------------------- encoding

  function Strings(xs: seq<string>): Json {
    Arr(seq(|xs|, i requires 0 <= i < |xs| => Str(xs[i])))
  }

  function OutcomeMembers(o: Outcome): seq<Member> {
    match o
    case OutApplied => [Member("status", Str("applied"))]
    case OutRefused(reason) => [Member("status", Str("refused")), Member("reason", Str(reason))]
    case OutFailed(reason) => [Member("status", Str("failed")), Member("reason", Str(reason))]
    case OutUnknown(why) => [Member("status", Str("unknown-outcome")), Member("reason", Str(WhyText(why)))]
  }

  function EvidenceMembers(d: Evidence): seq<Member> {
    [ Member("descriptorId", Str(d.descriptorId)),
      Member("provider", Str(d.provider)),
      Member("authority", Str(AuthorityText(d.authority))),
      Member("mutationImpact", Str(ImpactText(d.impact))),
      Member("profiles", Strings(d.profiles)),
      Member("firmware", Strings(d.firmware)),
      Member("confidence", Str(ConfidenceText(d.confidence)))
    ]
  }

  function BaseMembers(e: Entry): seq<Member> {
    [ Member("schemaVersion", Num(SCHEMA_VERSION, 0)),
      Member("phase", Str(if e.phase.Started? then "started" else "completed")),
      Member("operationId", Str(e.operationId)),
      Member("physicalModemId", Str(e.modem)),
      Member("generation", Num(e.generation, 0)),
      Member("recordedAtMs", Num(e.recordedAtMs, 0)),
      Member("descriptor", Obj(EvidenceMembers(e.descriptor)))
    ]
  }

  function EntryMembers(e: Entry): seq<Member> {
    match e.phase
    case Started => BaseMembers(e)
    case Completed(o) => BaseMembers(e) + [Member("outcome", Obj(OutcomeMembers(o)))]
  }

  /** One entry as one line, without its terminator. */
  function Encode(e: Entry): string {
    Stringify(Obj(EntryMembers(e)))
  }

  // ---------------------------------------------------------------- decoding

  /** A failure names a field, never its content. */
  datatype Failure = Empty | InvalidJson | UnsupportedSchemaVersion | SchemaMismatch(field: string)

  /** The characters `String.prototype.trim` removes. */
  predicate IsTrimSpace(c: char) {
    var n := c as int;
    || 9 <= n <= 13 || n == 0x20 || n == 0xA0 || n == 0x1680 || 0x2000 <= n <= 0x200A
    || n == 0x2028 || n == 0x2029 || n == 0x202F || n == 0x205F || n == 0x3000 || n == 0xFEFF
  }

  predicate Blank(line: string) {
    forall i :: 0 <= i < |line| ==> IsTrimSpace(line[i])
  }

  /** Property access on a parsed object: the last member of that name wins. */
  function Lookup(members: seq<Member>, key: string): Option<Json> {
    if members == [] then None
    else if members[|members| - 1].key == key then Some(members[|members| - 1].value)
    else Lookup(members[..|members| - 1], key)
  }

  function Pow10(n: nat): nat
    ensures Pow10(n) > 0
  {
    if n == 0 then 1 else 10 * Pow10(n - 1)
  }

  /** The integer a number literal denotes, if it denotes one. */
  function IntegerValue(v: Json): Option<int> {
    if !v.Num? then None
    else if v.exponent >= 0 then Some(v.mantissa * Pow10(v.exponent))
    else if v.mantissa % Pow10(-v.exponent) == 0 then Some(v.mantissa / Pow10(-v.exponent))
    else None
  }

  function AsRecord(v: Option<Json>, field: string): Result<seq<Member>, Failure> {
    if v.Some? && v.value.Obj? then Ok(v.value.members) else Err(SchemaMismatch(field))
  }

  function RequiredString(source: seq<Member>, field: string): (r: Result<string, Failure>)
    ensures r.Ok? ==> r.value != ""
  {
    match Lookup(source, field)
    case Some(Str(s)) => if s == "" then Err(SchemaMismatch(field)) else Ok(s)
    case _ => Err(SchemaMismatch(field))
  }

  function RequiredNat(source: seq<Member>, field: string): Result<nat, Failure> {
    match Lookup(source, field)
    case None => Err(SchemaMismatch(field))
    case Some(v) =>
      match IntegerValue(v)
      case Some(n) => if n >= 0 then Ok(n) else Err(SchemaMismatch(field))
      case None => Err(SchemaMismatch(field))
  }

  function RequiredStrings(source: seq<Member>, field: string): Result<seq<string>, Failure> {
    match Lookup(source, field)
    case Some(Arr(items)) =>
      if forall i :: 0 <= i < |items| ==> items[i].Str? then
        Ok(seq(|items|, i requires 0 <= i < |items| && items[i].Str? => items[i].s))
      else Err(SchemaMismatch(field))
    case _ => Err(SchemaMismatch(field))
  }

  /** A string field restricted to a vocabulary: `values[i]` is spelt `texts[i]`. */
  function OneOf<T>(source: seq<Member>, field: string, texts: seq<string>, values: seq<T>): Result<T, Failure>
    requires |texts| == |values|
  {
    match Lookup(source, field)
    case Some(Str(s)) =>
      if s in texts then Ok(values[IndexIn(s, texts)]) else Err(SchemaMismatch(field))
    case _ => Err(SchemaMismatch(field))
  }

  function IndexIn(s: string, texts: seq<string>): (i: nat)
    requires s in texts
    ensures i < |texts| && texts[i] == s
  {
    if texts[0] == s then 0 else 1 + IndexIn(s, texts[1..])
  }

  function ReadAuthority(source: seq<Member>): Result<Authority, Failure> {
    OneOf(source, "authority", ["provider", "controller", "hardware"], [Provider, Controller, Hardware])
  }

  function ReadImpact(source: seq<Member>): Result<Impact, Failure> {
    OneOf(source, "mutationImpact", ["read", "write", "session", "disruptive", "recovery"],
          [Read, Write, Session, Disruptive, Recovery])
  }

  function ReadConfidence(source: seq<Member>): Result<Confidence, Failure> {
    OneOf(source, "confidence", ["high", "medium", "low", "unknown"], [High, Medium, Low, Unknown])
  }

  function ReadWhy(source: seq<Member>): Result<UnknownReason, Failure> {
    OneOf(source, "reason", ["stale-generation", "write-reply-timed-out", "write-reply-dropped"],
          [StaleGeneration, WriteReplyTimedOut, WriteReplyDropped])
  }

  function ParseEvidence(raw: Option<Json>): (r: Result<Evidence, Failure>)
    ensures r.Ok? ==> r.value.descriptorId != "" && r.value.provider != ""
  {
    var source :- AsRecord(raw, "descriptor");
    var descriptorId :- RequiredString(source, "descriptorId");
    var provider :- RequiredString(source, "provider");
    var authority :- ReadAuthority(source);
    var impact :- ReadImpact(source);
    var profiles :- RequiredStrings(source, "profiles");
    var firmware :- RequiredStrings(source, "firmware");
    var confidence :- ReadConfidence(source);
    Ok(Evidence(descriptorId, provider, authority, impact, profiles, firmware, confidence))
  }

  function ParseOutcome(raw: Option<Json>): (r: Result<Outcome, Failure>)
    ensures r.Ok? ==> ReasonGiven(r.value)
  {
    var source :- AsRecord(raw, "outcome");
    var status :- OneOf(source, "status", ["applied", "refused", "failed", "unknown-outcome"], [0, 1, 2, 3]);
    if status == 0 then Ok(OutApplied)
    else if status == 1 then
      var reason :- RequiredString(source, "reason");
      Ok(OutRefused(reason))
    else if status == 2 then
      var reason :- RequiredString(source, "reason");
      Ok(OutFailed(reason))
    else
      var why :- ReadWhy(source);
      Ok(OutUnknown(why))
  }

  function ParsePhase(source: seq<Member>): (r: Result<Phase, Failure>)
    ensures r.Ok? && r.value.Completed? ==> ReasonGiven(r.value.outcome)
  {
    var started :- OneOf(source, "phase", ["started", "completed"], [true, false]);
    if started then Ok(Started)
    else
      var outcome :- ParseOutcome(Lookup(source, "outcome"));
      Ok(Completed(outcome))
  }

  function HasSchemaVersion(source: seq<Member>): bool {
    var v := Lookup(source, "schemaVersion");
    v.Some? && IntegerValue(v.value) == Some(SCHEMA_VERSION)
  }

  function ParseEntry(v: Json): (r: Result<Entry, Failure>)
    ensures r.Ok? ==> WellFormed(r.value)
  {
    var source :- AsRecord(Some(v), "entry");
    if !HasSchemaVersion(source) then Err(UnsupportedSchemaVersion)
    else
      var operationId :- RequiredString(source, "operationId");
      var modem :- RequiredString(source, "physicalModemId");
      var generation :- RequiredNat(source, "generation");
      var recordedAtMs :- RequiredNat(source, "recordedAtMs");
      var descriptor :- ParseEvidence(Lookup(source, "descriptor"));
      var phase :- ParsePhase(source);
      Ok(Entry(phase, operationId, modem, generation, recordedAtMs, descriptor))
  }

  function Decode(line: string): (r: Result<Entry, Failure>)
    ensures r.Ok? ==> WellFormed(r.value)
  {
    if Blank(line) then Err(Empty)
    else
      match Parse(line)
      case Fail => Err(InvalidJson)
      case Done(v, _) => ParseEntry(v)
  }

  // ---------------------------------------------------------------- the codec's laws

  lemma {:induction false} LookupAt(members: seq<Member>, i: nat)
    requires i < |members|
    requires forall j :: i < j < |members| ==> members[j].key != members[i].key
    ensures Lookup(members, members[i].key) == Some(members[i].value)
    decreases |members|
  {
    if i < |members| - 1 {
      var front := members[..|members| - 1];
      assert front[i] == members[i];
      LookupAt(front, i);
    }
  }

  /** `m` carries the fields of `d`, whatever else it carries. */
  ghost predicate HasEvidence(m: seq<Member>, d: Evidence) {
    && Lookup(m, "descriptorId") == Some(Str(d.descriptorId))
    && Lookup(m, "provider") == Some(Str(d.provider))
    && Lookup(m, "authority") == Some(Str(AuthorityText(d.authority)))
    && Lookup(m, "mutationImpact") == Some(Str(ImpactText(d.impact)))
    && Lookup(m, "profiles") == Some(Strings(d.profiles))
    && Lookup(m, "firmware") == Some(Strings(d.firmware))
    && Lookup(m, "confidence") == Some(Str(ConfidenceText(d.confidence)))
  }

  /** `m` carries the fields of `e`, whatever else it carries. */
  ghost predicate HasEntry(m: seq<Member>, e: Entry) {
    && Lookup(m, "schemaVersion") == Some(Num(SCHEMA_VERSION, 0))
    && Lookup(m, "phase") == Some(Str(if e.phase.Started? then "started" else "completed"))
    && Lookup(m, "operationId") == Some(Str(e.operationId))
    && Lookup(m, "physicalModemId") == Some(Str(e.modem))
    && Lookup(m, "generation") == Some(Num(e.generation, 0))
    && Lookup(m, "recordedAtMs") == Some(Num(e.recordedAtMs, 0))
    && Lookup(m, "descriptor") == Some(Obj(EvidenceMembers(e.descriptor)))
    && (e.phase.Completed? ==> Lookup(m, "outcome") == Some(Obj(OutcomeMembers(e.phase.outcome))))
  }

  lemma EvidenceFields(d: Evidence)
    ensures HasEvidence(EvidenceMembers(d), d)
  {
    var m := EvidenceMembers(d);
    forall i | 0 <= i < 7 ensures Lookup(m, m[i].key) == Some(m[i].value) {
      LookupAt(m, i);
    }
    assert m[0].key == "descriptorId" && m[1].key == "provider" && m[2].key == "authority";
    assert m[3].key == "mutationImpact" && m[4].key == "profiles" && m[5].key == "firmware";
    assert m[6].key == "confidence";
  }

  lemma EntryFields(e: Entry)
    ensures HasEntry(EntryMembers(e), e)
  {
    var m := EntryMembers(e);
    forall i | 0 <= i < |m| ensures Lookup(m, m[i].key) == Some(m[i].value) {
      LookupAt(m, i);
    }
    assert m[0].key == "schemaVersion" && m[1].key == "phase" && m[2].key == "operationId";
    assert m[3].key == "physicalModemId" && m[4].key == "generation" && m[5].key == "recordedAtMs";
    assert m[6].key == "descriptor";
    assert e.phase.Completed? ==> m[7].key == "outcome";
  }

  lemma StringsRead(source: seq<Member>, field: string, xs: seq<string>)
    requires Lookup(source, field) == Some(Strings(xs))
    ensures RequiredStrings(source, field) == Ok(xs)
  {
    var items := Strings(xs).items;
    assert seq(|items|, i requires 0 <= i < |items| && items[i].Str? => items[i].s) == xs;
  }

  lemma OneOfAt<T>(source: seq<Member>, field: string, texts: seq<string>, values: seq<T>, i: nat)
    requires |texts| == |values| && i < |texts|
    requires forall j, k :: 0 <= j < k < |texts| ==> texts[j] != texts[k]
    requires Lookup(source, field) == Some(Str(texts[i]))
    ensures OneOf(source, field, texts, values) == Ok(values[i])
  {
  }

  lemma VocabularyRead(m: seq<Member>, d: Evidence)
    requires Lookup(m, "authority") == Some(Str(AuthorityText(d.authority)))
    requires Lookup(m, "mutationImpact") == Some(Str(ImpactText(d.impact)))
    requires Lookup(m, "confidence") == Some(Str(ConfidenceText(d.confidence)))
    ensures ReadAuthority(m) == Ok(d.authority)
    ensures ReadImpact(m) == Ok(d.impact)
    ensures ReadConfidence(m) == Ok(d.confidence)
  {
    OneOfAt(m, "authority", ["provider", "controller", "hardware"], [Provider, Controller, Hardware],
            match d.authority case Provider => 0 case Controller => 1 case Hardware => 2);
    OneOfAt(m, "mutationImpact", ["read", "write", "session", "disruptive", "recovery"],
            [Read, Write, Session, Disruptive, Recovery],
            match d.impact case Read => 0 case Write => 1 case Session => 2 case Disruptive => 3 case Recovery => 4);
    OneOfAt(m, "confidence", ["high", "medium", "low", "unknown"], [High, Medium, Low, Unknown],
            match d.confidence case High => 0 case Medium => 1 case Low => 2 case Unknown => 3);
  }

  lemma EvidenceRead(m: seq<Member>, d: Evidence)
    requires HasEvidence(m, d)
    ensures ParseEvidence(Some(Obj(m))).Ok? <==> d.descriptorId != "" && d.provider != ""
    ensures ParseEvidence(Some(Obj(m))).Ok? ==> ParseEvidence(Some(Obj(m))) == Ok(d)
  {
    StringsRead(m, "profiles", d.profiles);
    StringsRead(m, "firmware", d.firmware);
    VocabularyRead(m, d);
  }

  lemma OutcomeRead(o: Outcome)
    ensures ParseOutcome(Some(Obj(OutcomeMembers(o)))).Ok? <==> ReasonGiven(o)
    ensures ReasonGiven(o) ==> ParseOutcome(Some(Obj(OutcomeMembers(o)))) == Ok(o)
  {
    var m := OutcomeMembers(o);
    LookupAt(m, 0);
    if |m| == 2 {
      LookupAt(m, 1);
      assert m[1].key == "reason";
    }
    assert m[0].key == "status";
    OneOfAt(m, "status", ["applied", "refused", "failed", "unknown-outcome"], [0, 1, 2, 3],
            match o case OutApplied => 0 case OutRefused(_) => 1 case OutFailed(_) => 2 case OutUnknown(_) => 3);
    if o.OutUnknown? {
      OneOfAt(m, "reason", ["stale-generation", "write-reply-timed-out", "write-reply-dropped"],
              [StaleGeneration, WriteReplyTimedOut, WriteReplyDropped],
              match o.why case StaleGeneration => 0 case WriteReplyTimedOut => 1 case WriteReplyDropped => 2);
    }
  }

  lemma PhaseRead(m: seq<Member>, e: Entry)
    requires HasEntry(m, e)
    ensures ParsePhase(m).Ok? <==> (e.phase.Completed? ==> ReasonGiven(e.phase.outcome))
    ensures ParsePhase(m).Ok? ==> ParsePhase(m) == Ok(e.phase)
  {
    OneOfAt(m, "phase", ["started", "completed"], [true, false], if e.phase.Started? then 0 else 1);
    if e.phase.Completed? {
      OutcomeRead(e.phase.outcome);
    }
  }

  lemma EntryRead(m: seq<Member>, e: Entry)
    requires HasEntry(m, e)
    ensures ParseEntry(Obj(m)).Ok? <==> WellFormed(e)
    ensures ParseEntry(Obj(m)).Ok? ==> ParseEntry(Obj(m)) == Ok(e)
  {
    EvidenceFields(e.descriptor);
    EvidenceRead(EvidenceMembers(e.descriptor), e.descriptor);
    PhaseRead(m, e);
  }

  /** The encoding starts with a brace, so no line of it is ever taken for a blank one. */
  lemma EncodedHead(e: Entry)
    ensures Encode(e) != "" && Encode(e)[0] == '{' && !Blank(Encode(e))
  {
    assert Encode(e)[0] == '{';
  }

  /** An entry decodes to itself, exactly when its required strings are present. */
  lemma RoundTrip(e: Entry)
    ensures Decode(Encode(e)).Ok? <==> WellFormed(e)
    ensures WellFormed(e) ==> Decode(Encode(e)) == Ok(e)
  {
    EncodedHead(e);
    JsonText.RoundTrip(Obj(EntryMembers(e)));
    EntryFields(e);
    EntryRead(EntryMembers(e), e);
  }

  /** A line that decodes may be spelt differently, but its entry encodes to a line that means the same. */
  lemma DecodedReencodes(line: string)
    requires Decode(line).Ok?
    ensures Decode(Encode(Decode(line).value)) == Decode(line)
  {
    RoundTrip(Decode(line).value);
  }

  /** One entry is one line. */
  lemma EncodedOneLine(e: Entry)
    ensures OneLine(Encode(e))
  {
    EmitOneLine(Obj(EntryMembers(e)), "");
  }

  /** No text that stops short of an encoding decodes, so a torn line is never taken for an entry. */
  lemma NoPrefixDecodes(e: Entry, p: string)
    requires p < Encode(e)
    ensures Decode(p).Err?
  {
    NoPrefixParses(EntryMembers(e), p);
  }

  lemma EncodingFollows(e: Entry)
    ensures Follows(Encode(e))
  {
    ObjectFollows(EntryMembers(e));
  }

  /** An encoding, whole or cut anywhere, with another one behind it on the same line: neither entry is read. */
  lemma GluedEntriesDoNotDecode(lost: Entry, p: string, next: Entry)
    requires p != "" && p <= Encode(lost)
    ensures Decode(p + Encode(next)).Err?
  {
    EncodingFollows(next);
    CutObjectsDoNotParse(EntryMembers(lost), p, Encode(next));
  }
}
