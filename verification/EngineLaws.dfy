/** What a result, a rollback and a lease mean, over every run of the whole system. */
module EngineLaws {
  import opened Wrappers
  import opened Operation
  import opened Engine
  import opened System
  import Fence

  // ---------------------------------------------------------------- program counters

  /** Past the descriptor's refusals and not settled. */
  predicate Begun(pc: Pc) {
    pc.Checking? || pc.Admitting? || Admitted(pc) || pc.Releasing?
  }

  /** Only permitted operations get going; and what is carried across readback, rollback and retries. */
  predicate PcOk(x: Execution, pc: Pc) {
    && (Begun(pc) ==> Permitted(x))
    && match pc
       case Executing(_, n) =>
         1 <= n <= MAX_IDEMPOTENT_READ_ATTEMPTS && (n > 1 ==> x.IsRead() && x.descriptor.retryClass.IdempotentRead?)
       case ReadingBack(g, r) => r.ResApplied? && r.generation == g && x.descriptor.readbackRequired && x.hasReadback
       case RollingBack(g, r) => r.ResFailed? && x.hasRollback
       case JournalingEnd(_, _, _) => x.hasJournal
       case Reconciling => false
       case _ => true
  }

  /** An invocation between its admission and its end: it holds its lease, if it needed one. */
  predicate Admitted(pc: Pc) {
    pc.JournalingStart? || pc.Executing? || pc.ReadingBack? || pc.RollingBack? || pc.JournalingEnd?
  }

  lemma BeginOk(gate: set<ModemId>, x: Execution, g: Generation)
    ensures PcOk(x, Begin(gate, x, g).pc) && !Admitted(Begin(gate, x, g).pc)
  {
  }

  lemma ResumeOk(x: Execution, pc: Pc, current: Generation, answer: Answer, now: nat)
    requires PcOk(x, pc) && Answers(pc, answer)
    ensures PcOk(x, Resume(x, pc, current, answer, now).pc)
  {
  }

  ghost predicate AllOk(s: State) {
    forall c :: 0 <= c < |s.calls| && s.calls[c].job.Invoke? ==> PcOk(s.calls[c].job.x, s.calls[c].pc)
  }

  lemma StepOk(s: State, a: Action)
    requires AllOk(s) && Chained(s)
    ensures AllOk(Step(s, a))
  {
    var t := Step(s, a);
    forall c | 0 <= c < |t.calls| && t.calls[c].job.Invoke? ensures PcOk(t.calls[c].job.x, t.calls[c].pc) {
      if c < |s.calls| {
        Fence.OnlyMoverMoves(s, a, c);
        if c == Fence.Mover(s, a) && Enabled(s, a) {
          MovedOk(s, a, c);
        }
      }
    }
  }

  lemma MovedOk(s: State, a: Action, c: nat)
    requires Enabled(s, a) && c < |s.calls| && c == Fence.Mover(s, a) && s.calls[c].job.Invoke?
    requires PcOk(s.calls[c].job.x, s.calls[c].pc)
    ensures PcOk(s.calls[c].job.x, Step(s, a).calls[c].pc)
  {
    var x := s.calls[c].job.x;
    match a {
      case Answer(_, answer, now) => ResumeOk(x, s.calls[c].pc, GenerationOf(s, x.modem), answer, now);
      case StartTask(_) => BeginOk(s.gate, x, GenerationOf(s, x.modem));
      case _ =>
    }
  }

  lemma {:induction false} RunOk(file: Option<string>, actions: seq<Action>, i: nat)
    requires i <= |actions|
    ensures AllOk(At(file, actions, i))
  {
    if i > 0 {
      RunOk(file, actions, i - 1);
      RunKeepsChained(file, actions[..i - 1]);
      AtNext(file, actions, i - 1);
      StepOk(At(file, actions, i - 1), actions[i - 1]);
    }
  }

  // ---------------------------------------------------------------- what an applied result means

  /** The answer confirms `v`: the provider applied it, or a readback matched, in the generation it was fenced to. */
  predicate Confirms(x: Execution, pc: Pc, current: Generation, answer: Answer, v: string) {
    && answer.Replied? && answer.completion.Applied?
    && (if x.descriptor.readbackRequired
        then pc.ReadingBack? && pc.generation == current && answer.matches && pc.result == ResApplied(v, current)
        else pc.Executing? && pc.generation == current && answer.completion.value == v)
  }

  lemma ResumeApplied(x: Execution, pc: Pc, current: Generation, answer: Answer, now: nat, v: string)
    requires PcOk(x, pc) && Answers(pc, answer)
    ensures Resume(x, pc, current, answer, now).verdict == Some(ResApplied(v, current)) <==> Confirms(x, pc, current, answer, v)
    ensures Resume(x, pc, current, answer, now).verdict.Some? && Resume(x, pc, current, answer, now).verdict.value.ResApplied? ==>
              Resume(x, pc, current, answer, now).verdict.value.generation == current
  {
  }

  /**
   In every run an operation comes to be `applied` in exactly those steps that bring the confirming answer: with
   readback required, an applied readback that matches, and never after the device generation has moved.
   */
  lemma AppliedIsConfirmed(file: Option<string>, actions: seq<Action>, i: nat, c: nat, v: string)
    requires i < |actions| && c < |At(file, actions, i).calls| && At(file, actions, i).calls[c].verdict.None?
    requires actions[i].Answer? && actions[i].call == c && Enabled(At(file, actions, i), actions[i])
    ensures var s := At(file, actions, i);
            var call, current := s.calls[c], GenerationOf(s, s.calls[c].Modem());
            Step(s, actions[i]).calls[c].verdict == Some(ResApplied(v, current))
            <==> Confirms(call.job.x, call.pc, current, actions[i].answer, v)
  {
    RunOk(file, actions, i);
    var s := At(file, actions, i);
    ResumeApplied(s.calls[c].job.x, s.calls[c].pc, GenerationOf(s, s.calls[c].Modem()), actions[i].answer, actions[i].now, v);
  }

  // ---------------------------------------------------------------- rollbacks

  lemma ResumeRollsBack(x: Execution, pc: Pc, current: Generation, answer: Answer, now: nat)
    requires PcOk(x, pc) && Answers(pc, answer) && Resume(x, pc, current, answer, now).pc.RollingBack?
    ensures (pc.Executing? || pc.ReadingBack?) && pc.generation == current && answer.Replied?
    ensures pc.Executing? ==> x.descriptor.rollbackRequired && (x.IsRead() || answer.completion.Failed?)
    ensures pc.ReadingBack? ==> !(answer.completion.Applied? && answer.matches)
  {
  }

  /**
   In every run a rollback starts only on a definite failure: the generation has not moved, and a write's
   provider said that it failed, or its readback said something other than what was written. A lost reply
   or a stale completion of a write is never rolled back.
   */
  lemma RollbackIsDefinite(file: Option<string>, actions: seq<Action>, i: nat, c: nat)
    requires i < |actions| && c < |At(file, actions, i).calls|
    requires !At(file, actions, i).calls[c].pc.RollingBack? && Step(At(file, actions, i), actions[i]).calls[c].pc.RollingBack?
    ensures var s := At(file, actions, i);
            && actions[i].Answer? && actions[i].call == c && actions[i].answer.Replied?
            && (s.calls[c].pc.Executing? || s.calls[c].pc.ReadingBack?)
            && s.calls[c].pc.generation == GenerationOf(s, s.calls[c].Modem())
            && (s.calls[c].pc.Executing? && s.calls[c].IsWrite() ==> actions[i].answer.completion.Failed?)
            && (s.calls[c].pc.ReadingBack? ==> !(actions[i].answer.completion.Applied? && actions[i].answer.matches))
  {
    RunOk(file, actions, i);
    var s, a := At(file, actions, i), actions[i];
    Fence.OnlyMoverMoves(s, a, c);
    assert a.Answer? && a.call == c;
    ResumeRollsBack(s.calls[c].job.x, s.calls[c].pc, GenerationOf(s, s.calls[c].Modem()), a.answer, a.now);
  }

  // ---------------------------------------------------------------- leases

  lemma ResumeHolds(x: Execution, pc: Pc, current: Generation, answer: Answer, now: nat)
    requires Answers(pc, answer) && HoldsLease(x) && Admitted(pc)
    ensures var next := Resume(x, pc, current, answer, now).pc; Admitted(next) || next.Releasing?
  {
  }

  lemma LeaseHeld(s: State, a: Action, c: nat)
    requires c < |s.calls| && s.calls[c].job.Invoke? && HoldsLease(s.calls[c].job.x) && Admitted(s.calls[c].pc)
    ensures Admitted(Step(s, a).calls[c].pc) || Step(s, a).calls[c].pc.Releasing?
  {
    Fence.OnlyMoverMoves(s, a, c);
    if a.Answer? && a.call == c && Enabled(s, a) {
      ResumeHolds(s.calls[c].job.x, s.calls[c].pc, GenerationOf(s, s.calls[c].Modem()), a.answer, a.now);
    }
  }

  /** At point `k` the call is admitted and holds a lease. */
  predicate HoldsAt(file: Option<string>, actions: seq<Action>, c: nat, k: nat) {
    && k <= |actions| && c < |At(file, actions, k).calls|
    && var call := At(file, actions, k).calls[c];
       call.job.Invoke? && HoldsLease(call.job.x) && Admitted(call.pc)
  }

  /** At point `k` the call awaits the release of its lease. */
  predicate ReleasesAt(file: Option<string>, actions: seq<Action>, c: nat, k: nat) {
    k <= |actions| && c < |At(file, actions, k).calls| && At(file, actions, k).calls[c].pc.Releasing?
  }

  lemma HeldOrReleasing(file: Option<string>, actions: seq<Action>, c: nat, k: nat)
    requires k < |actions| && HoldsAt(file, actions, c, k)
    ensures HoldsAt(file, actions, c, k + 1) || ReleasesAt(file, actions, c, k + 1)
  {
    AtNext(file, actions, k);
    Fence.OnlyMoverMoves(At(file, actions, k), actions[k], c);
    LeaseHeld(At(file, actions, k), actions[k], c);
  }

  /**
   In every run, whatever hooks, provider and journal do: a call that holds its lease at one point still holds it
   at any later point, or the release has been called in between. So it is never done without that.
   */
  lemma {:induction false} LeaseIsReleased(file: Option<string>, actions: seq<Action>, c: nat, i: nat, j: nat)
    requires i <= j <= |actions| && HoldsAt(file, actions, c, i)
    ensures HoldsAt(file, actions, c, j) || exists k: nat :: i < k <= j && ReleasesAt(file, actions, c, k)
    decreases j
  {
    if i < j {
      LeaseIsReleased(file, actions, c, i, j - 1);
      if HoldsAt(file, actions, c, j - 1) {
        HeldOrReleasing(file, actions, c, j - 1);
      }
    }
  }

  // ---------------------------------------------------------------- permission

  /** In every run a provider is called only for operations that their descriptors permit. */
  lemma ExecutedIsPermitted(file: Option<string>, actions: seq<Action>, i: nat, c: nat)
    requires i <= |actions| && c < |At(file, actions, i).calls|
    requires At(file, actions, i).calls[c].job.Invoke? && At(file, actions, i).calls[c].pc.Executing?
    ensures Permitted(At(file, actions, i).calls[c].job.x)
  {
    RunOk(file, actions, i);
  }
}
