/**
 The operation engine between two awaits (`operations/operation-engine.ts`).

 JavaScript runs one stretch of an async function at a time; every `await` ends a stretch. A call
 is therefore its program counter, and each function below is what one stretch computes.
 */
module Engine {
  import opened Wrappers
  import opened Operation

  const MAX_IDEMPOTENT_READ_ATTEMPTS := 2

  /** How a call's promise settles. */
  datatype Ending = Returned(result: OpResult) | Threw | Reconciled | NotReconciled

  /** Where a call is: what it awaits, or how it ended. */
  datatype Pc =
    | Queued
    | Checking(generation: Generation)
    | Admitting(generation: Generation)
    | JournalingStart(generation: Generation, at: nat)
    | Executing(generation: Generation, attempt: nat)
    | ReadingBack(generation: Generation, result: OpResult)
    | RollingBack(generation: Generation, result: OpResult)
    | JournalingEnd(generation: Generation, result: OpResult, at: nat)
    | Releasing(ending: Ending)
    | Reconciling
    | Done(ending: Ending)

  /** What an awaited port, hook or provider answers. */
  datatype Answer =
    | Satisfied
    | Admitted
    | Denied(reason: string)
    | Replied(completion: Completion, matches: bool)
    | Released
    | Throws

  /** The next program counter, and the verdict if this stretch reached one. */
  datatype Next = Next(pc: Pc, verdict: Option<OpResult>)

  function Refuse(reason: string, g: Generation): Next {
    Next(Done(Returned(ResRefused(reason, g))), None)
  }

  predicate HoldsLease(x: Execution) {
    x.descriptor.admissionRequired && !x.IsRead()
  }

  /** The `finally` block: a held admission lease is released before the call settles. */
  function Finish(x: Execution, ending: Ending): Pc {
    if HoldsLease(x) then Releasing(ending) else Done(ending)
  }

  /** The first stretch of an invocation, up to the live preconditions. */
  function Begin(gate: set<ModemId>, x: Execution, g: Generation): Next {
    if !x.IsRead() && x.modem in gate then Refuse("reconciliation-required", g)
    else
      match DescriptorRefusal(x)
      case Some(reason) => Refuse(reason, g)
      case None => Next(Checking(g), None)
  }

  function AfterAdmission(x: Execution, g: Generation, now: nat): Next {
    Next(if x.hasJournal then JournalingStart(g, now) else Executing(g, 1), None)
  }

  function Conclude(x: Execution, g: Generation, result: OpResult, now: nat): Next {
    Next(if x.hasJournal then JournalingEnd(g, result, now) else Finish(x, Returned(result)), Some(result))
  }

  function AfterExecute(x: Execution, g: Generation, attempt: nat, result: OpResult, now: nat): Next {
    if CanAutoRetry(x.descriptor, result) && attempt < MAX_IDEMPOTENT_READ_ATTEMPTS then
      Next(Executing(g, attempt + 1), None)
    else if result.ResApplied? && x.descriptor.readbackRequired then
      if x.hasReadback then Next(ReadingBack(g, result), None)
      else Conclude(x, g, ResRefused("readback-hook-missing", g), now)
    else if result.ResFailed? && x.descriptor.rollbackRequired && x.hasRollback then
      Next(RollingBack(g, result), None)
    else Conclude(x, g, result, now)
  }

  function AfterReadback(x: Execution, g: Generation, result: OpResult, readback: OpResult, matches: bool, now: nat): Next {
    if readback.ResApplied? && matches then Conclude(x, g, result, now)
    else if readback.ResUnknown? then Conclude(x, g, readback, now)
    else
      var failed := ResFailed(if readback.ResApplied? then "readback-mismatch" else "readback-" + readback.reason, g);
      if x.hasRollback then Next(RollingBack(g, failed), None) else Conclude(x, g, failed, now)
  }

  /** Whether `answer` is one the awaited party can give. */
  predicate Answers(pc: Pc, answer: Answer) {
    match pc
    case Checking(_) => answer.Satisfied? || answer.Denied? || answer.Throws?
    case Admitting(_) => answer.Admitted? || answer.Denied? || answer.Throws?
    case Executing(_, _) => answer.Replied? || answer.Throws?
    case ReadingBack(_, _) => answer.Replied? || answer.Throws?
    case RollingBack(_, _) => answer.Replied? || answer.Throws?
    case Releasing(_) => answer.Released? || answer.Throws?
    case _ => false
  }

  /** One stretch of an invocation, from an answer to the next await. `current` is read when a reply is classified. */
  function Resume(x: Execution, pc: Pc, current: Generation, answer: Answer, now: nat): Next
    requires Answers(pc, answer)
  {
    match pc
    case Checking(g) =>
      if answer.Satisfied? then Next(Admitting(g), None)
      else if answer.Denied? then Refuse(answer.reason, g)
      else Next(Done(Threw), None)
    case Admitting(g) =>
      if !x.descriptor.admissionRequired then AfterAdmission(x, g, now)
      else if x.IsRead() then Refuse("admission-port-missing", g)
      else if answer.Admitted? then AfterAdmission(x, g, now)
      else if answer.Denied? then Refuse(answer.reason, g)
      else Next(Done(Threw), None)
    case Executing(g, attempt) =>
      if answer.Throws? then Next(Finish(x, Threw), None)
      else AfterExecute(x, g, attempt, Classify(x.IsRead(), g, current, answer.completion), now)
    case ReadingBack(g, result) =>
      if answer.Throws? then Next(Finish(x, Threw), None)
      else AfterReadback(x, g, result, Classify(true, g, current, answer.completion), answer.matches, now)
    case RollingBack(g, result) =>
      if answer.Throws? then Next(Finish(x, Threw), None) else Conclude(x, g, result, now)
    case Releasing(ending) =>
      Next(Done(if answer.Throws? then Threw else ending), None)
  }

  /** What an unknown outcome does to the gate. */
  function GateAfter(gate: set<ModemId>, m: ModemId, verdict: Option<OpResult>): set<ModemId> {
    if verdict.Some? && verdict.value.RequiresReconciliation() then gate + {m} else gate
  }

  function BeginReconcile(gate: set<ModemId>, m: ModemId, requested: Generation, current: Generation): Pc {
    if m !in gate || current != requested then Done(NotReconciled) else Reconciling
  }

  /** How a reconciliation run ended. */
  datatype RunEnd = RunReconciled | RunFailed | RunThrew

  function EndReconcile(requested: Generation, current: Generation, end: RunEnd): Ending {
    if end.RunThrew? then Threw
    else if current != requested || end.RunFailed? then NotReconciled
    else Reconciled
  }

  // ---------------------------------------------------------------- the engine object

  class OperationEngine {
    var reconciliationRequired: set<ModemId>

    constructor ()
      ensures reconciliationRequired == {}
    {
      reconciliationRequired := {};
    }

    method BeginInvocation(x: Execution, generation: Generation) returns (next: Next)
      ensures next == Begin(reconciliationRequired, x, generation) && next.verdict.None?
      ensures !x.IsRead() && x.modem in reconciliationRequired ==>
                next.pc == Done(Returned(ResRefused("reconciliation-required", generation)))
      ensures next.pc == Checking(generation) <==> (x.IsRead() || x.modem !in reconciliationRequired) && Permitted(x)
      ensures next.pc != Checking(generation) ==> next.pc.Done? && next.pc.ending.Returned? && next.pc.ending.result.ResRefused?
    {
      if !x.IsRead() && x.modem in reconciliationRequired {
        return Refuse("reconciliation-required", generation);
      }
      var refusal := DescriptorRefusal(x);
      if refusal.Some? {
        return Refuse(refusal.value, generation);
      }
      next := Next(Checking(generation), None);
    }

    /** An unknown outcome closes the modem's gate before the completion is journaled. */
    method ConcludeInvocation(x: Execution, generation: Generation, result: OpResult, now: nat) returns (next: Next)
      modifies this
      ensures next == Conclude(x, generation, result, now)
      ensures reconciliationRequired == GateAfter(old(reconciliationRequired), x.modem, next.verdict)
    {
      if result.RequiresReconciliation() {
        reconciliationRequired := reconciliationRequired + {x.modem};
      }
      if x.hasJournal {
        return Next(JournalingEnd(generation, result, now), Some(result));
      }
      next := Next(Finish(x, Returned(result)), Some(result));
    }

    /** The gate reopens only when the run succeeded in the generation it was asked for. */
    method FinishReconciliation(m: ModemId, requested: Generation, current: Generation, end: RunEnd)
      returns (ending: Ending)
      modifies this
      ensures ending == EndReconcile(requested, current, end)
      ensures reconciliationRequired == old(reconciliationRequired) - (if ending.Reconciled? then {m} else {})
    {
      if end.RunThrew? {
        return Threw;
      }
      if current != requested {
        return NotReconciled;
      }
      if end.RunFailed? {
        return NotReconciled;
      }
      reconciliationRequired := reconciliationRequired - {m};
      ending := Reconciled;
    }

    /**
     The retry loop on its own: `replies` are the provider's answers and the generation read as
     each one arrives. Only a failed idempotent read is asked twice, and never a third time.
     */
    static method ExecuteWithRetry(x: Execution, generation: Generation, replies: nat -> (Completion, Generation))
      returns (result: OpResult, attempts: nat)
      ensures 1 <= attempts <= MAX_IDEMPOTENT_READ_ATTEMPTS
      ensures result == Classify(x.IsRead(), generation, replies(attempts).1, replies(attempts).0)
      ensures forall a :: 1 <= a < attempts ==>
                CanAutoRetry(x.descriptor, Classify(x.IsRead(), generation, replies(a).1, replies(a).0))
      ensures attempts < MAX_IDEMPOTENT_READ_ATTEMPTS ==> !CanAutoRetry(x.descriptor, result)
      ensures !x.IsRead() ==> attempts == 1
    {
      attempts := 1;
      while true
        invariant 1 <= attempts <= MAX_IDEMPOTENT_READ_ATTEMPTS
        invariant forall a :: 1 <= a < attempts ==>
                    CanAutoRetry(x.descriptor, Classify(x.IsRead(), generation, replies(a).1, replies(a).0))
        invariant !x.IsRead() ==> attempts == 1
        decreases MAX_IDEMPOTENT_READ_ATTEMPTS - attempts
      {
        var reply := replies(attempts);
        result := Classify(x.IsRead(), generation, reply.1, reply.0);
        if !CanAutoRetry(x.descriptor, result) || attempts == MAX_IDEMPOTENT_READ_ATTEMPTS {
          return;
        }
        attempts := attempts + 1;
      }
    }
  }
}
