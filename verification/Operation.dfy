/** Operation descriptors, completions and their classification (`domain/operation.ts`). */
module Operation {
  import opened Wrappers

  type ModemId = string
  type Generation = nat

  datatype Impact = Read | Write | Session | Disruptive | Recovery
  datatype Authority = Provider | Controller | Hardware
  datatype Confidence = High | Medium | Low | Unknown
  datatype RetryClass = Never | IdempotentRead
  datatype Support = Supported | Unsupported(reason: string)
  datatype Availability = Available | Unavailable(reason: string) | RefusedNow(reason: string)

  /** An operation input: a number, or any other value (compared by `Object.is`). */
  datatype Input = NumberInput(n: int) | OtherInput(tag: string)

  datatype Constraints =
    | Unconstrained
    | AllowedValues(values: seq<Input>)
    | NumericRange(min: int, max: int, step: Option<int>)

  datatype Descriptor = Descriptor(
    id: string,
    provider: string,
    authority: Authority,
    readSupport: Support,
    writeSupport: Support,
    constraints: Constraints,
    availability: Availability,
    impact: Impact,
    retryClass: RetryClass,
    readbackRequired: bool,
    rollbackRequired: bool,
    journalRequired: bool,
    admissionRequired: bool,
    profiles: seq<string>,
    firmware: seq<string>,
    confidence: Confidence)

  /** One invocation. Its hooks are known here only by their presence. */
  datatype Execution = Execution(
    operationId: string,
    modem: ModemId,
    descriptor: Descriptor,
    input: Input,
    hasReadback: bool,
    hasRollback: bool,
    hasJournal: bool)
  {
    predicate IsRead() {
      descriptor.impact.Read?
    }
  }

  /** What a provider answers. */
  datatype Completion =
    | Applied(value: string)
    | Refused(reason: string)
    | Failed(reason: string)
    | TimedOut
    | Dropped

  datatype UnknownReason = StaleGeneration | WriteReplyTimedOut | WriteReplyDropped

  /** What the engine tells its caller; `generation` is the one the operation was fenced to. */
  datatype OpResult =
    | ResApplied(value: string, generation: Generation)
    | ResRefused(reason: string, generation: Generation)
    | ResFailed(reason: string, generation: Generation)
    | ResUnknown(why: UnknownReason, generation: Generation)
  {
    predicate RequiresReconciliation() {
      ResUnknown?
    }
  }

  function Classify(isRead: bool, fenced: Generation, current: Generation, completion: Completion): (r: OpResult)
    ensures r.generation == fenced
    ensures r.RequiresReconciliation() <==>
            fenced != current || (!isRead && (completion.TimedOut? || completion.Dropped?))
    ensures r.ResApplied? <==> fenced == current && completion.Applied?
    ensures r.ResRefused? <==> fenced == current && completion.Refused?
    ensures r.ResUnknown? ==> (r.why.StaleGeneration? <==> fenced != current)
    ensures r.ResUnknown? && fenced == current ==> (r.why.WriteReplyTimedOut? <==> completion.TimedOut?)
    ensures r.ResRefused? || (r.ResFailed? && completion.Failed?) ==> r.reason == completion.reason
  {
    if fenced != current then ResUnknown(StaleGeneration, fenced)
    else
      match completion
      case Applied(v) => ResApplied(v, fenced)
      case Refused(reason) => ResRefused(reason, fenced)
      case Failed(reason) => ResFailed(reason, fenced)
      case TimedOut =>
        if isRead then ResFailed("read-reply-timed-out", fenced) else ResUnknown(WriteReplyTimedOut, fenced)
      case Dropped =>
        if isRead then ResFailed("read-reply-dropped", fenced) else ResUnknown(WriteReplyDropped, fenced)
  }

  /** Automatic retries are for failed reads that declare themselves idempotent. */
  predicate CanAutoRetry(d: Descriptor, result: OpResult) {
    d.impact.Read? && d.readSupport.Supported? && d.retryClass.IdempotentRead? && result.ResFailed?
  }

  function InputAllowed(d: Descriptor, input: Input): bool {
    match d.constraints
    case Unconstrained => true
    case AllowedValues(values) => input in values
    case NumericRange(min, max, step) =>
      && input.NumberInput?
      && min <= input.n <= max
      && (step.Some? ==> step.value != 0 && (input.n - min) % step.value == 0)
  }

  /** A range with a step lets in the numbers that lie a whole number of steps above its minimum; a step of 0 none. */
  lemma RangeExact(d: Descriptor, input: Input)
    requires d.constraints.NumericRange?
    ensures var r := d.constraints;
            InputAllowed(d, input) <==>
            && input.NumberInput? && r.min <= input.n <= r.max
            && (r.step.Some? ==> r.step.value != 0 && exists k :: input.n == r.min + k * r.step.value)
  {
    var r := d.constraints;
    if input.NumberInput? && r.step.Some? && r.step.value != 0 {
      var m, p := input.n - r.min, r.step.value;
      if m % p == 0 {
        assert input.n == r.min + (m / p) * p;
      }
      if k :| input.n == r.min + k * p {
        Multiple(k, p, m);
      }
    }
  }

  lemma Multiple(k: int, p: int, m: int)
    requires p != 0 && m == k * p
    ensures m % p == 0
  {
    var rest := k - m / p;
    assert rest * p == k * p - m / p * p == m % p;
    if rest != 0 {
      Beyond(rest, p);
    }
  }

  lemma Beyond(a: int, p: int)
    requires a != 0 && p != 0
    ensures a * p >= (if p > 0 then p else -p) || a * p < 0
  {
  }

  /** The support that an execution's kind, read or write, calls for. */
  function SupportFor(x: Execution): Support {
    if x.IsRead() then x.descriptor.readSupport else x.descriptor.writeSupport
  }

  /** Supported, available now, within its constraint, and with every hook its descriptor requires. */
  predicate Permitted(x: Execution) {
    && SupportFor(x).Supported? && x.descriptor.availability.Available? && InputAllowed(x.descriptor, x.input)
    && (x.descriptor.readbackRequired ==> x.hasReadback)
    && (x.descriptor.rollbackRequired ==> x.hasRollback)
    && (x.descriptor.journalRequired ==> x.hasJournal)
  }

  /** Why a descriptor refuses an execution before any precondition is looked at. */
  function DescriptorRefusal(x: Execution): (r: Option<string>)
    ensures r.None? <==> Permitted(x)
    ensures SupportFor(x).Unsupported? ==> r == Some(SupportFor(x).reason)
    ensures SupportFor(x).Supported? && !x.descriptor.availability.Available? ==> r == Some(x.descriptor.availability.reason)
    ensures SupportFor(x).Supported? && x.descriptor.availability.Available? && r.Some? ==>
              match r.value
              case "constraint-refused" => !InputAllowed(x.descriptor, x.input)
              case "readback-hook-missing" => x.descriptor.readbackRequired && !x.hasReadback
              case "rollback-hook-missing" => x.descriptor.rollbackRequired && !x.hasRollback
              case "journal-hook-missing" => x.descriptor.journalRequired && !x.hasJournal
              case _ => false
  {
    var d := x.descriptor;
    var support := if x.IsRead() then d.readSupport else d.writeSupport;
    if support.Unsupported? then Some(support.reason)
    else if !d.availability.Available? then Some(d.availability.reason)
    else if !InputAllowed(d, x.input) then Some("constraint-refused")
    else if d.readbackRequired && !x.hasReadback then Some("readback-hook-missing")
    else if d.rollbackRequired && !x.hasRollback then Some("rollback-hook-missing")
    else if d.journalRequired && !x.hasJournal then Some("journal-hook-missing")
    else None
  }
}
