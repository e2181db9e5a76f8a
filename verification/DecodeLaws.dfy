/** Exactly which lines decode, to what, and what the rest is refused for (`journal/codec.ts`). */
module DecodeLaws {
  import opened Wrappers
  import opened Operation
  import opened JsonText
  import JsonLayout
  import opened Codec

  // ---------------------------------------------------------------- fields

  /** Of several members with one name the last one counts. */
  lemma {:induction false} LookupExact(members: seq<Member>, key: string, v: Json)
    ensures Lookup(members, key) == Some(v) <==>
            exists i :: 0 <= i < |members| && members[i] == Member(key, v) && forall j :: i < j < |members| ==> members[j].key != key
    ensures Lookup(members, key) == None <==> forall i :: 0 <= i < |members| ==> members[i].key != key
  {
    if members != [] {
      var front, n := members[..|members| - 1], |members| - 1;
      LookupExact(front, key, v);
      if members[n].key == key {
        assert Lookup(members, key) == Some(members[n].value);
      } else {
        if i :| 0 <= i < n && front[i] == Member(key, v) && forall j :: i < j < n ==> front[j].key != key {
          assert members[i] == Member(key, v) && forall j :: i < j < |members| ==> members[j].key != key;
        }
        if i :| 0 <= i < |members| && members[i] == Member(key, v) && forall j :: i < j < |members| ==> members[j].key != key {
          assert front[i] == Member(key, v) && forall j :: i < j < n ==> front[j].key != key;
        }
      }
    }
  }

  /** The literal's value is `n`, however it is spelt. */
  predicate Denotes(v: Option<Json>, n: nat) {
    v.Some? && v.value.Num?
    && (if v.value.exponent >= 0 then v.value.mantissa * Pow10(v.value.exponent) == n
        else v.value.mantissa == n * Pow10(-v.value.exponent))
  }

  lemma DivideExact(m: int, p: nat, n: int)
    requires p > 0
    ensures m % p == 0 && m / p == n <==> m == n * p
  {
    var k := n - m / p;
    assert m == m / p * p + m % p;
    assert k * p == n * p - m / p * p;
    if m == n * p && k != 0 {
      AtLeastOnce(if k > 0 then k else -k, p);
    }
  }

  lemma AtLeastOnce(k: int, p: nat)
    requires k >= 1
    ensures k * p >= p && (-k) * p == -(k * p)
  {
  }

  lemma IntegerExact(v: Json, n: nat)
    ensures IntegerValue(v) == Some(n) <==> Denotes(Some(v), n)
  {
    if v.Num? && v.exponent < 0 {
      DivideExact(v.mantissa, Pow10(-v.exponent), n);
    }
  }

  lemma NatExact(m: seq<Member>, field: string, n: nat)
    ensures RequiredNat(m, field) == Ok(n) <==> Denotes(Lookup(m, field), n)
  {
    if Lookup(m, field).Some? {
      IntegerExact(Lookup(m, field).value, n);
    }
  }

  lemma TextExact(m: seq<Member>, field: string, s: string)
    ensures RequiredString(m, field) == Ok(s) <==> s != "" && Lookup(m, field) == Some(Str(s))
  {
  }

  lemma TextsExact(m: seq<Member>, field: string, xs: seq<string>)
    ensures RequiredStrings(m, field) == Ok(xs) <==> Lookup(m, field) == Some(Strings(xs))
  {
    if Lookup(m, field) == Some(Strings(xs)) {
      StringsRead(m, field, xs);
    }
    var r := RequiredStrings(m, field);
    if r.Ok? {
      assert Lookup(m, field).value.items == Strings(r.value).items;
    }
  }

  lemma WordExact<T>(m: seq<Member>, field: string, texts: seq<string>, values: seq<T>, i: nat)
    requires |texts| == |values| && i < |texts|
    requires forall j, k :: 0 <= j < k < |texts| ==> texts[j] != texts[k] && values[j] != values[k]
    ensures OneOf(m, field, texts, values) == Ok(values[i]) <==> Lookup(m, field) == Some(Str(texts[i]))
  {
    if Lookup(m, field) == Some(Str(texts[i])) {
      OneOfAt(m, field, texts, values, i);
    }
  }

  lemma AuthorityExact(m: seq<Member>, a: Authority)
    ensures ReadAuthority(m) == Ok(a) <==> Lookup(m, "authority") == Some(Str(AuthorityText(a)))
  {
    WordExact(m, "authority", ["provider", "controller", "hardware"], [Provider, Controller, Hardware],
              match a case Provider => 0 case Controller => 1 case Hardware => 2);
  }

  lemma ImpactExact(m: seq<Member>, i: Impact)
    ensures ReadImpact(m) == Ok(i) <==> Lookup(m, "mutationImpact") == Some(Str(ImpactText(i)))
  {
    WordExact(m, "mutationImpact", ["read", "write", "session", "disruptive", "recovery"],
              [Read, Write, Session, Disruptive, Recovery],
              match i case Read => 0 case Write => 1 case Session => 2 case Disruptive => 3 case Recovery => 4);
  }

  lemma ConfidenceExact(m: seq<Member>, c: Confidence)
    ensures ReadConfidence(m) == Ok(c) <==> Lookup(m, "confidence") == Some(Str(ConfidenceText(c)))
  {
    WordExact(m, "confidence", ["high", "medium", "low", "unknown"], [High, Medium, Low, Unknown],
              match c case High => 0 case Medium => 1 case Low => 2 case Unknown => 3);
  }

  lemma WhyExact(m: seq<Member>, w: UnknownReason)
    ensures ReadWhy(m) == Ok(w) <==> Lookup(m, "reason") == Some(Str(WhyText(w)))
  {
    WordExact(m, "reason", ["stale-generation", "write-reply-timed-out", "write-reply-dropped"],
              [StaleGeneration, WriteReplyTimedOut, WriteReplyDropped],
              match w case StaleGeneration => 0 case WriteReplyTimedOut => 1 case WriteReplyDropped => 2);
  }

  // ---------------------------------------------------------------- decimal fractions

  /** The last `k` decimal digits of `f`, leading zeros included, in front of `tail`. */
  function FixedDigits(f: nat, k: nat, tail: string): string {
    if k == 0 then tail else FixedDigits(f / 10, k - 1, [DigitChar(f % 10)] + tail)
  }

  lemma {:induction false} FixedRead(f: nat, k: nat, acc: nat, tail: string)
    requires f < Pow10(k)
    ensures TakeDigits(FixedDigits(f, k, tail), acc) == TakeDigits(tail, acc * Pow10(k) + f)
    ensures |FixedDigits(f, k, tail)| == k + |tail|
    decreases k
  {
    if k > 0 {
      var t := [DigitChar(f % 10)] + tail;
      FixedRead(f / 10, k - 1, acc, t);
      assert t[1..] == tail;
      TenTimes(acc, Pow10(k - 1), f);
    }
  }

  lemma TenTimes(acc: nat, p: nat, f: nat)
    ensures (acc * p + f / 10) * 10 + f % 10 == acc * (10 * p) + f
  {
    assert acc * (10 * p) == 10 * (acc * p);
  }

  lemma FixedHead(f: nat, k: nat, tail: string)
    requires k > 0
    ensures FixedDigits(f, k, tail) != "" && IsDigit(FixedDigits(f, k, tail)[0])
    decreases k
  {
    if k > 1 {
      FixedHead(f / 10, k - 1, [DigitChar(f % 10)] + tail);
    }
  }

  lemma DigitsRead(f: nat, k: nat, acc: nat, tail: string)
    requires k > 0 && f < Pow10(k) && (tail != "" ==> !IsDigit(tail[0]))
    ensures ParseDigits(FixedDigits(f, k, tail), acc) == Done(acc * Pow10(k) + f, tail)
  {
    FixedHead(f, k, tail);
    FixedRead(f, k, acc, tail);
    assert TakeDigits(tail, acc * Pow10(k) + f) == (acc * Pow10(k) + f, tail);
  }

  /** The exponent of a literal in front of `tail`: none, or one in plain decimal. */
  function Exponent(e: int, tail: string): string {
    if e == 0 then tail else ['e'] + EmitInt(e, tail)
  }

  lemma UnsignedParts(s: string, w: nat, part: string, m: nat, more: string, e: int, tail: string)
    requires ParseWhole(s) == Done(w, ['.'] + part)
    requires ParseDigits(part, w) == Done(m, more) && ParseExponent(more) == Done(e, tail)
    ensures ParseUnsigned(s) == Done((m, e - (|part| - |more|)), tail)
  {
    assert (['.'] + part)[1..] == part;
  }

  lemma ExponentRead(e: int, tail: string)
    requires Separated(tail)
    ensures ParseExponent(Exponent(e, tail)) == Done(e, tail)
    ensures Exponent(e, tail) != "" ==> !IsDigit(Exponent(e, tail)[0])
  {
    if e != 0 {
      ParseEmittedExponent(e, tail);
    }
  }

  lemma UnsignedRead(w: nat, f: nat, k: nat, e: int, tail: string)
    requires k > 0 && f < Pow10(k) && Separated(tail)
    ensures ParseUnsigned(EmitNat(w, ['.'] + FixedDigits(f, k, Exponent(e, tail)))) == Done((w * Pow10(k) + f, e - k), tail)
  {
    var more := Exponent(e, tail);
    var part := FixedDigits(f, k, more);
    ExponentRead(e, tail);
    ParseEmittedWhole(w, ['.'] + part);
    DigitsRead(f, k, w, more);
    FixedRead(f, k, w, more);
    UnsignedParts(EmitNat(w, ['.'] + part), w, part, w * Pow10(k) + f, more, e, tail);
  }

  lemma PositiveRead(digits: string, m: nat, e: int, tail: string)
    requires ParseUnsigned(digits) == Done((m, e), tail) && digits != "" && IsDigit(digits[0])
    ensures ParseNumber(digits) == Done(Num(m, e), tail)
  {
  }

  lemma NegativeRead(digits: string, m: int, e: int, tail: string)
    requires m >= 0 && ParseUnsigned(digits) == Done((m as nat, e), tail)
    ensures ParseNumber(['-'] + digits) == Done(Num(-m, e), tail)
  {
    assert (['-'] + digits)[1..] == digits;
  }

  lemma SignRead(negative: bool, digits: string, m: int, e: int, tail: string)
    requires m >= 0 && ParseUnsigned(digits) == Done((m as nat, e), tail) && digits != "" && IsDigit(digits[0])
    ensures ParseNumber((if negative then ['-'] else []) + digits) == Done(Num(if negative then -m else m, e), tail)
  {
    if negative {
      NegativeRead(digits, m, e, tail);
    } else {
      PositiveRead(digits, m, e, tail);
      assert [] + digits == digits;
    }
  }

  /** A literal with a fraction and an exponent denotes its digits, scaled by both. */
  lemma FractionRead(negative: bool, w: nat, f: nat, k: nat, e: int, tail: string)
    requires k > 0 && f < Pow10(k) && Separated(tail)
    ensures var m: int := w * Pow10(k) + f;
            ParseNumber((if negative then ['-'] else []) + EmitNat(w, ['.'] + FixedDigits(f, k, Exponent(e, tail))))
            == Done(Num(if negative then -m else m, e - k), tail)
  {
    var rest := ['.'] + FixedDigits(f, k, Exponent(e, tail));
    var digits := EmitNat(w, rest);
    UnsignedRead(w, f, k, e, tail);
    EmittedNatHead(w, rest);
    SignRead(negative, digits, w * Pow10(k) + f, e - k, tail);
  }

  // ---------------------------------------------------------------- objects

  lemma EvidenceExact(raw: Option<Json>, d: Evidence)
    ensures ParseEvidence(raw) == Ok(d) <==>
            raw.Some? && raw.value.Obj? && HasEvidence(raw.value.members, d) && d.descriptorId != "" && d.provider != ""
  {
    if raw.Some? && raw.value.Obj? {
      var m := raw.value.members;
      TextExact(m, "descriptorId", d.descriptorId);
      TextExact(m, "provider", d.provider);
      AuthorityExact(m, d.authority);
      ImpactExact(m, d.impact);
      TextsExact(m, "profiles", d.profiles);
      TextsExact(m, "firmware", d.firmware);
      ConfidenceExact(m, d.confidence);
    }
  }

  /** `m` spells the outcome `o`, whatever else it carries. */
  ghost predicate HasOutcome(m: seq<Member>, o: Outcome) {
    match o
    case OutApplied => Lookup(m, "status") == Some(Str("applied"))
    case OutRefused(reason) => Lookup(m, "status") == Some(Str("refused")) && Lookup(m, "reason") == Some(Str(reason))
    case OutFailed(reason) => Lookup(m, "status") == Some(Str("failed")) && Lookup(m, "reason") == Some(Str(reason))
    case OutUnknown(why) => Lookup(m, "status") == Some(Str("unknown-outcome")) && Lookup(m, "reason") == Some(Str(WhyText(why)))
  }

  lemma OutcomeExact(raw: Option<Json>, o: Outcome)
    ensures ParseOutcome(raw) == Ok(o) <==>
            raw.Some? && raw.value.Obj? && HasOutcome(raw.value.members, o) && ReasonGiven(o)
  {
    if raw.Some? && raw.value.Obj? {
      var m := raw.value.members;
      WordExact(m, "status", ["applied", "refused", "failed", "unknown-outcome"], [0, 1, 2, 3], 0);
      WordExact(m, "status", ["applied", "refused", "failed", "unknown-outcome"], [0, 1, 2, 3], 1);
      WordExact(m, "status", ["applied", "refused", "failed", "unknown-outcome"], [0, 1, 2, 3], 2);
      WordExact(m, "status", ["applied", "refused", "failed", "unknown-outcome"], [0, 1, 2, 3], 3);
      match o {
        case OutRefused(reason) => TextExact(m, "reason", reason);
        case OutFailed(reason) => TextExact(m, "reason", reason);
        case OutUnknown(why) => WhyExact(m, why);
        case _ =>
      }
    }
  }

  /** `m` spells the phase `p`; an outcome beside a start is not looked at. */
  ghost predicate HasPhase(m: seq<Member>, p: Phase) {
    match p
    case Started => Lookup(m, "phase") == Some(Str("started"))
    case Completed(o) =>
      && Lookup(m, "phase") == Some(Str("completed"))
      && Lookup(m, "outcome").Some? && Lookup(m, "outcome").value.Obj? && HasOutcome(Lookup(m, "outcome").value.members, o)
  }

  lemma PhaseExact(m: seq<Member>, p: Phase)
    ensures ParsePhase(m) == Ok(p) <==> HasPhase(m, p) && (p.Completed? ==> ReasonGiven(p.outcome))
  {
    WordExact(m, "phase", ["started", "completed"], [true, false], 0);
    WordExact(m, "phase", ["started", "completed"], [true, false], 1);
    if p.Completed? {
      OutcomeExact(Lookup(m, "outcome"), p.outcome);
    }
  }

  /** `m` spells version 1 and every field of `e`, in any order and whatever else it carries. */
  ghost predicate Spells(m: seq<Member>, e: Entry) {
    && Denotes(Lookup(m, "schemaVersion"), 1)
    && Lookup(m, "operationId") == Some(Str(e.operationId))
    && Lookup(m, "physicalModemId") == Some(Str(e.modem))
    && Denotes(Lookup(m, "generation"), e.generation)
    && Denotes(Lookup(m, "recordedAtMs"), e.recordedAtMs)
    && Lookup(m, "descriptor").Some? && Lookup(m, "descriptor").value.Obj?
    && HasEvidence(Lookup(m, "descriptor").value.members, e.descriptor)
    && HasPhase(m, e.phase)
  }

  lemma VersionRead(m: seq<Member>)
    ensures HasSchemaVersion(m) <==> Denotes(Lookup(m, "schemaVersion"), 1)
  {
    if Lookup(m, "schemaVersion").Some? {
      IntegerExact(Lookup(m, "schemaVersion").value, 1);
    }
  }

  lemma EntryExact(v: Json, e: Entry)
    ensures ParseEntry(v) == Ok(e) <==> v.Obj? && Spells(v.members, e) && WellFormed(e)
  {
    if v.Obj? {
      var m := v.members;
      VersionRead(m);
      TextExact(m, "operationId", e.operationId);
      TextExact(m, "physicalModemId", e.modem);
      NatExact(m, "generation", e.generation);
      NatExact(m, "recordedAtMs", e.recordedAtMs);
      EvidenceExact(Lookup(m, "descriptor"), e.descriptor);
      PhaseExact(m, e.phase);
    }
  }

  // ---------------------------------------------------------------- lines

  /**
   A line decodes to an entry exactly when it is one JSON object that spells schema version 1 and the entry's
   fields, in any order and beside any others, and the strings that must say something do.
   */
  lemma DecodeExact(line: string, e: Entry)
    ensures Decode(line) == Ok(e) <==>
            !Blank(line) && Parse(line).Done? && Parse(line).value.Obj? && Spells(Parse(line).value.members, e) && WellFormed(e)
  {
    if Parse(line).Done? {
      EntryExact(Parse(line).value, e);
    }
  }

  /**
   What is not read is refused for one reason: nothing on the line, no JSON, an object of another version, and only
   then something missing from it.
   */
  lemma RefusalExact(line: string)
    ensures Decode(line) == Err(Empty) <==> Blank(line)
    ensures Decode(line) == Err(InvalidJson) <==> !Blank(line) && Parse(line).Fail?
    ensures Decode(line) == Err(UnsupportedSchemaVersion) <==>
            !Blank(line) && Parse(line).Done? && Parse(line).value.Obj?
            && !Denotes(Lookup(Parse(line).value.members, "schemaVersion"), 1)
  {
    if Parse(line).Done? {
      var v := Parse(line).value;
      if v.Obj? {
        VersionRead(v.members);
        FieldsMismatch(v.members);
      }
    }
  }

  predicate Mismatch<T>(r: Result<T, Failure>) {
    r.Err? ==> r.error.SchemaMismatch?
  }

  lemma EvidenceMismatch(raw: Option<Json>)
    ensures Mismatch(ParseEvidence(raw))
  {
  }

  lemma PhaseMismatch(m: seq<Member>)
    ensures Mismatch(ParsePhase(m))
  {
  }

  /** A refused field is named, whichever it is. */
  lemma FieldsMismatch(m: seq<Member>)
    ensures HasSchemaVersion(m) ==> Mismatch(ParseEntry(Obj(m)))
    ensures !HasSchemaVersion(m) ==> ParseEntry(Obj(m)) == Err(UnsupportedSchemaVersion)
  {
    EvidenceMismatch(Lookup(m, "descriptor"));
    PhaseMismatch(m);
  }

  /** However an entry's JSON is laid out, it decodes to the entry. */
  lemma AnyLayoutDecodes(e: Entry, w: JsonLayout.Layout)
    requires WellFormed(e) && JsonLayout.Spaces(w)
    ensures Decode(JsonLayout.Document(Obj(EntryMembers(e)), w)) == Ok(e)
  {
    var v := Obj(EntryMembers(e));
    var line := JsonLayout.Document(v, w);
    JsonLayout.LayoutIgnored(v, w);
    EntryFields(e);
    EntryRead(EntryMembers(e), e);
    var at := |w(JsonLayout.Lay(v, w, w("")))|;
    assert line[at] == '{' && !IsTrimSpace(line[at]);
  }

  // ---------------------------------------------------------------- what is recorded

  /** The journaled line of an operation's start or end tells these facts, and can tell no others. */
  lemma RecordedFacts(x: Execution, g: Generation, result: Option<OpResult>, now: nat, e: Entry)
    requires Decode(Encode(EntryFor(x, g, result, now))) == Ok(e)
    ensures e.operationId == x.operationId && e.modem == x.modem && e.generation == g && e.recordedAtMs == now
    ensures e.phase.Started? <==> result.None?
    ensures result.Some? ==>
              match result.value
              case ResApplied(_, _) => e.phase.outcome == OutApplied
              case ResRefused(reason, _) => e.phase.outcome == OutRefused(reason)
              case ResFailed(reason, _) => e.phase.outcome == OutFailed(reason)
              case ResUnknown(why, _) => e.phase.outcome == OutUnknown(why)
    ensures e.descriptor.descriptorId == x.descriptor.id && e.descriptor.provider == x.descriptor.provider
    ensures e.descriptor.authority == x.descriptor.authority && e.descriptor.impact == x.descriptor.impact
    ensures e.descriptor.profiles == x.descriptor.profiles && e.descriptor.firmware == x.descriptor.firmware
    ensures e.descriptor.confidence == x.descriptor.confidence
  {
    Codec.RoundTrip(EntryFor(x, g, result, now));
  }

  /** What was sent and what was read never reach the journal: operations that differ only there leave the same lines. */
  lemma NothingPrivate(x: Execution, input: Input, g: Generation, v: string, w: string, now: nat)
    ensures Encode(EntryFor(x, g, None, now)) == Encode(EntryFor(x.(input := input), g, None, now))
    ensures Encode(EntryFor(x, g, Some(ResApplied(v, g)), now)) == Encode(EntryFor(x.(input := input), g, Some(ResApplied(w, g)), now))
  {
  }
}
