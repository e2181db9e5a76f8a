/**
 What becomes of a call, answer by answer, in any run: when a provider is asked again, read back or rolled
 back, what the caller is told, and how a closed gate is opened again.
 */
module Outcomes {
  import opened Wrappers
  import opened Operation
  import opened Engine
  import opened System
  import opened EngineLaws
  import Actor
  import Fence

  // ---------------------------------------------------------------- one answer

  /** Action number `i` brings the invocation `c` an answer it awaits. */
  predicate Answered(file: Option<string>, actions: seq<Action>, i: nat, c: nat) {
    && i < |actions| && c < |At(file, actions, i).calls|
    && actions[i].Answer? && actions[i].call == c && Enabled(At(file, actions, i), actions[i])
  }

  /** The device generation is still the one the call was fenced to. */
  predicate Unmoved(s: State, c: nat)
    requires c < |s.calls| && (s.calls[c].pc.Executing? || s.calls[c].pc.ReadingBack?)
  {
    s.calls[c].pc.generation == GenerationOf(s, s.calls[c].Modem())
  }

  /** The provider, or the silence after a read, says that it failed. */
  predicate SaysFailed(x: Execution, completion: Completion) {
    completion.Failed? || (x.IsRead() && (completion.TimedOut? || completion.Dropped?))
  }

  /** The reply of a write got lost: nobody knows what became of it. */
  predicate Lost(x: Execution, completion: Completion) {
    !x.IsRead() && (completion.TimedOut? || completion.Dropped?)
  }

  /** How the call's promise will settle, once that is decided. */
  function Decided(pc: Pc): Option<Ending> {
    match pc
    case Releasing(ending) => Some(ending)
    case Done(ending) => Some(ending)
    case _ => None
  }

  /** The call goes on with verdict `v`: to the journal where there is one, else past its lease to its caller. */
  predicate Concludes(x: Execution, after: Call, g: Generation, v: OpResult) {
    && after.verdict == Some(v)
    && (if x.hasJournal then after.pc.JournalingEnd? && after.pc.generation == g && after.pc.result == v
        else Settles(x, after.pc, Returned(v)))
  }

  /** The ending is decided, and the lease of an admitted write is released before it is told. */
  predicate Settles(x: Execution, pc: Pc, ending: Ending) {
    pc == if x.descriptor.admissionRequired && !x.IsRead() then Releasing(ending) else Done(ending)
  }

  lemma AnswerMoves(file: Option<string>, actions: seq<Action>, i: nat, c: nat)
    requires Answered(file, actions, i, c)
    ensures var s, a := At(file, actions, i), actions[i];
            var call := s.calls[c];
            var next := Resume(call.job.x, call.pc, GenerationOf(s, call.Modem()), a.answer, a.now);
            && call.job.Invoke? && PcOk(call.job.x, call.pc)
            && c < |At(file, actions, i + 1).calls|
            && At(file, actions, i + 1).calls[c] == Onward(call, next)
            && At(file, actions, i + 1).gate == GateAfter(s.gate, call.Modem(), next.verdict)
  {
    RunOk(file, actions, i);
    AtNext(file, actions, i);
  }

  // ---------------------------------------------------------------- the provider's reply

  /** What a provider's reply in `pc` makes of the call. */
  ghost predicate ReplyLeads(x: Execution, pc: Pc, unmoved: bool, reply: Completion, after: Call)
    requires pc.Executing?
  {
    var retries := unmoved && SaysFailed(x, reply) && x.IsRead() && x.descriptor.retryClass.IdempotentRead? && pc.attempt == 1;
    && (after.pc == Executing(pc.generation, 2) <==> retries)
    && (after.pc.ReadingBack? <==> unmoved && reply.Applied? && x.descriptor.readbackRequired)
    && (after.pc.RollingBack? <==> unmoved && SaysFailed(x, reply) && !retries && x.descriptor.rollbackRequired)
    && (after.verdict.Some? <==> !after.pc.Executing? && !after.pc.ReadingBack? && !after.pc.RollingBack?)
    && (after.verdict.Some? ==> Concludes(x, after, pc.generation, after.verdict.value))
    && (after.verdict.Some? && after.verdict.value.ResUnknown? <==> !unmoved || Lost(x, reply))
    && (unmoved && reply.Refused? ==> after.verdict == Some(ResRefused(reply.reason, pc.generation)))
    && (after.pc.RollingBack? && reply.Failed? ==> after.pc.result == ResFailed(reply.reason, pc.generation))
    && (after.verdict.Some? && unmoved && reply.Failed? ==> after.verdict == Some(ResFailed(reply.reason, pc.generation)))
  }

  lemma ResumeReplied(x: Execution, pc: Pc, current: Generation, answer: Engine.Answer, now: nat, call: Call)
    requires PcOk(x, pc) && pc.Executing? && answer.Replied? && call.verdict.None?
    ensures ReplyLeads(x, pc, pc.generation == current, answer.completion, Onward(call, Resume(x, pc, current, answer, now)))
  {
  }

  /**
   In every run, when a provider's reply arrives: it is asked once more exactly for a first failed idempotent read;
   read back exactly when it applied and the descriptor demands it; rolled back exactly when it failed, is not asked
   again and the descriptor demands it; all of this only while the generation has not moved. Otherwise the verdict
   falls: unknown exactly when the generation moved or a write's reply was lost, and then the modem's gate closes.
   */
  lemma ReplyExact(file: Option<string>, actions: seq<Action>, i: nat, c: nat)
    requires Answered(file, actions, i, c) && actions[i].answer.Replied?
    requires At(file, actions, i).calls[c].pc.Executing?
    ensures var s, t, reply := At(file, actions, i), At(file, actions, i + 1), actions[i].answer.completion;
            && s.calls[c].job.Invoke? && c < |t.calls|
            && ReplyLeads(s.calls[c].job.x, s.calls[c].pc, Unmoved(s, c), reply, t.calls[c])
            && t.gate == s.gate + (if !Unmoved(s, c) || Lost(s.calls[c].job.x, reply) then {s.calls[c].job.x.modem} else {})
  {
    AnswerMoves(file, actions, i, c);
    RunTold(file, actions, i);
    var s, a := At(file, actions, i), actions[i];
    ResumeReplied(s.calls[c].job.x, s.calls[c].pc, GenerationOf(s, s.calls[c].Modem()), a.answer, a.now, s.calls[c]);
  }

  // ---------------------------------------------------------------- readback and rollback

  /** What the readback's reply makes of the call that applied `pc.result`. */
  ghost predicate ReadbackLeads(x: Execution, pc: Pc, unmoved: bool, reply: Completion, matches: bool, after: Call)
    requires pc.ReadingBack?
  {
    var confirmed := reply.Applied? && matches;
    && (after.pc.RollingBack? <==> unmoved && !confirmed && x.hasRollback)
    && (after.verdict == Some(pc.result) <==> unmoved && confirmed)
    && (after.verdict.Some? && after.verdict.value.ResUnknown? <==> !unmoved)
    && (after.verdict.Some? && after.verdict.value.ResFailed? <==> unmoved && !confirmed && !x.hasRollback)
    && (after.verdict.None? <==> after.pc.RollingBack?)
    && (after.verdict.Some? ==> Concludes(x, after, pc.generation, after.verdict.value))
    && (after.pc.RollingBack? ==> ReadbackFailed(reply, pc.generation, after.pc.result))
    && (unmoved && !confirmed && !x.hasRollback ==> ReadbackFailed(reply, pc.generation, after.verdict.value))
  }

  /** The failure that a readback amounts to which does not confirm what was written. */
  ghost predicate ReadbackFailed(reply: Completion, g: Generation, r: OpResult) {
    && r.ResFailed? && r.generation == g
    && (reply.Applied? ==> r.reason == "readback-mismatch")
    && (reply.Refused? || reply.Failed? ==> r.reason == "readback-" + reply.reason)
  }

  lemma ResumeReadBack(x: Execution, pc: Pc, current: Generation, answer: Engine.Answer, now: nat, call: Call)
    requires PcOk(x, pc) && pc.ReadingBack? && answer.Replied? && call.verdict.None?
    ensures ReadbackLeads(x, pc, pc.generation == current, answer.completion, answer.matches,
                          Onward(call, Resume(x, pc, current, answer, now)))
  {
  }

  /**
   In every run, when a readback's reply arrives: the applied result stands exactly when the readback applied and
   matches in an unmoved generation; the verdict is unknown, and the gate closes, exactly when the generation moved;
   everything else is a failure that is rolled back wherever there is a rollback hook.
   */
  lemma ReadbackExact(file: Option<string>, actions: seq<Action>, i: nat, c: nat)
    requires Answered(file, actions, i, c) && actions[i].answer.Replied?
    requires At(file, actions, i).calls[c].pc.ReadingBack?
    ensures var s, t, answer := At(file, actions, i), At(file, actions, i + 1), actions[i].answer;
            && s.calls[c].job.Invoke? && c < |t.calls|
            && ReadbackLeads(s.calls[c].job.x, s.calls[c].pc, Unmoved(s, c), answer.completion, answer.matches, t.calls[c])
            && t.gate == s.gate + (if Unmoved(s, c) then {} else {s.calls[c].job.x.modem})
  {
    AnswerMoves(file, actions, i, c);
    RunTold(file, actions, i);
    var s, a := At(file, actions, i), actions[i];
    ResumeReadBack(s.calls[c].job.x, s.calls[c].pc, GenerationOf(s, s.calls[c].Modem()), a.answer, a.now, s.calls[c]);
  }

  /** In every run, whatever the rollback answers: the verdict is the failure that made it necessary. */
  lemma RollbackSettles(file: Option<string>, actions: seq<Action>, i: nat, c: nat)
    requires Answered(file, actions, i, c) && actions[i].answer.Replied?
    requires At(file, actions, i).calls[c].pc.RollingBack?
    ensures var s, t := At(file, actions, i), At(file, actions, i + 1);
            && s.calls[c].job.Invoke? && c < |t.calls| && s.calls[c].pc.result.ResFailed?
            && Concludes(s.calls[c].job.x, t.calls[c], s.calls[c].pc.generation, s.calls[c].pc.result)
            && t.gate == s.gate
  {
    AnswerMoves(file, actions, i, c);
  }

  // ---------------------------------------------------------------- up to the provider

  /** The call ends refused, and the caller is told why. */
  predicate EndsRefused(after: Call, reason: string, g: Generation) {
    after.pc == Done(Returned(ResRefused(reason, g)))
  }

  /** The first stretch: a closed gate refuses writes and never reads; what is not permitted goes no further. */
  predicate Started(s: State, x: Execution, after: Call) {
    var g := GenerationOf(s, x.modem);
    && (after.pc == Checking(g) <==> Permitted(x) && (x.IsRead() || x.modem !in s.gate))
    && (!x.IsRead() && x.modem in s.gate ==> EndsRefused(after, "reconciliation-required", g))
    && (after.pc != Checking(g) ==> after.pc.Done? && after.pc.ending.Returned? && after.pc.ending.result.ResRefused?)
  }

  /**
   In every run a read starts as it is submitted and a write when its modem's actor comes to it, fenced to the
   generation of that moment, and each gets past its first stretch exactly as the gate and its descriptor let it.
   */
  lemma StartsExact(file: Option<string>, actions: seq<Action>, i: nat, c: nat)
    requires i < |actions| && c < |At(file, actions, i + 1).calls| && At(file, actions, i + 1).calls[c].job.Invoke?
    requires !At(file, actions, i + 1).calls[c].pc.Queued?
    requires c < |At(file, actions, i).calls| ==> At(file, actions, i).calls[c].pc.Queued?
    ensures var s, t := At(file, actions, i), At(file, actions, i + 1);
            && (if t.calls[c].job.x.IsRead() then c == |s.calls| && actions[i] == Submit(t.calls[c].job)
                else actions[i] == StartTask(c))
            && Started(s, t.calls[c].job.x, t.calls[c])
  {
    AtNext(file, actions, i);
    RunReads(file, actions, i);
    var s, a := At(file, actions, i), actions[i];
    if c < |s.calls| {
      Fence.OnlyMoverMoves(s, a, c);
      assert a == StartTask(c);
    } else {
      Fence.NewCall(s, a, c);
    }
  }

  /** Reads never queue. */
  ghost predicate ReadsRun(s: State) {
    forall c :: 0 <= c < |s.calls| && s.calls[c].pc.Queued? ==> s.calls[c].UsesActor()
  }

  /** A call that was there before does not go back into the queue. */
  lemma StaysUnqueued(s: State, a: Action, c: nat)
    requires c < |s.calls| && Step(s, a).calls[c].pc.Queued?
    ensures s.calls[c].pc.Queued? && Step(s, a).calls[c].job == s.calls[c].job
  {
    Fence.OnlyMoverMoves(s, a, c);
  }

  lemma NewQueues(s: State, a: Action)
    requires a.Submit?
    ensures var t := Step(s, a); |t.calls| == |s.calls| + 1 && (t.calls[|s.calls|].pc.Queued? ==> t.calls[|s.calls|].UsesActor())
  {
  }

  lemma StepReads(s: State, a: Action)
    requires ReadsRun(s)
    ensures ReadsRun(Step(s, a))
  {
    var t := Step(s, a);
    forall c | 0 <= c < |t.calls| && t.calls[c].pc.Queued? ensures t.calls[c].UsesActor() {
      if c < |s.calls| {
        StaysUnqueued(s, a, c);
      } else {
        Fence.NewCall(s, a, c);
        NewQueues(s, a);
      }
    }
  }

  lemma {:induction false} RunReads(file: Option<string>, actions: seq<Action>, i: nat)
    requires i <= |actions|
    ensures ReadsRun(At(file, actions, i))
  {
    if i > 0 {
      RunReads(file, actions, i - 1);
      AtNext(file, actions, i - 1);
      StepReads(At(file, actions, i - 1), actions[i - 1]);
    }
  }

  /** In every run satisfied preconditions bring a call to its admission; a refusal is passed on; a rejection ends it. */
  lemma CheckExact(file: Option<string>, actions: seq<Action>, i: nat, c: nat)
    requires Answered(file, actions, i, c) && At(file, actions, i).calls[c].pc.Checking?
    ensures var g, t, answer := At(file, actions, i).calls[c].pc.generation, At(file, actions, i + 1), actions[i].answer;
            && c < |t.calls|
            && (answer.Satisfied? ==> t.calls[c].pc == Admitting(g))
            && (answer.Denied? ==> EndsRefused(t.calls[c], answer.reason, g))
            && (answer.Throws? ==> t.calls[c].pc == Done(Threw))
  {
    AnswerMoves(file, actions, i, c);
  }

  /** The admission a descriptor asks for: none, one that only writes can be given, or a lease that is granted. */
  predicate LetIn(x: Execution, answer: Engine.Answer) {
    x.descriptor.admissionRequired ==> !x.IsRead() && answer.Admitted?
  }

  /**
   In every run a call comes from its admission to its journal, or without one to its provider, exactly when no
   admission is required or a write has been admitted. Otherwise it ends there and holds no lease.
   */
  lemma AdmissionExact(file: Option<string>, actions: seq<Action>, i: nat, c: nat)
    requires Answered(file, actions, i, c) && At(file, actions, i).calls[c].pc.Admitting?
    ensures var s, t, a := At(file, actions, i), At(file, actions, i + 1), actions[i];
            && s.calls[c].job.Invoke? && c < |t.calls|
            && var x, g, after := s.calls[c].job.x, s.calls[c].pc.generation, t.calls[c];
               && (x.hasJournal ==> (after.pc == JournalingStart(g, a.now) <==> LetIn(x, a.answer)))
               && (!x.hasJournal ==> (after.pc == Executing(g, 1) <==> LetIn(x, a.answer)))
               && (!LetIn(x, a.answer) ==> after.pc.Done?)
               && (!LetIn(x, a.answer) && x.IsRead() ==> EndsRefused(after, "admission-port-missing", g))
               && (!LetIn(x, a.answer) && !x.IsRead() && a.answer.Denied? ==> EndsRefused(after, a.answer.reason, g))
               && (!LetIn(x, a.answer) && !x.IsRead() && a.answer.Throws? ==> after.pc == Done(Threw))
  {
    AnswerMoves(file, actions, i, c);
  }

  // ---------------------------------------------------------------- the journal, and what callers are told

  /**
   In every run, when the append of a call's entry completes: the provider is called after the start entry, the
   verdict is told after the completion; when the append is rejected, the call throws; leases are released first.
   */
  lemma JournaledExact(file: Option<string>, actions: seq<Action>, i: nat)
    requires i < |actions| && (actions[i].WriteHead? || actions[i].FailHead?) && Enabled(At(file, actions, i), actions[i])
    ensures var s, t := At(file, actions, i), At(file, actions, i + 1);
            var c := s.appends[0];
            && c < |t.calls|
            && var x, pc, after := s.calls[c].job.x, s.calls[c].pc, t.calls[c].pc;
               && (actions[i].WriteHead? && pc.JournalingStart? ==> after == Executing(pc.generation, 1))
               && (actions[i].WriteHead? && pc.JournalingEnd? ==> Settles(x, after, Returned(pc.result)))
               && (actions[i].FailHead? ==> Settles(x, after, Threw))
  {
    AtNext(file, actions, i);
  }

  /** Verdicts are told unchanged, and nothing is told as a verdict that is none. */
  ghost predicate Told(call: Call) {
    match call.pc
    case JournalingEnd(g, r, _) => call.verdict == Some(r) && call.executed == Some(g)
    case Executing(g, _) => call.verdict.None? && call.executed == Some(g)
    case ReadingBack(g, _) => call.verdict.None? && call.executed == Some(g)
    case RollingBack(g, _) => call.verdict.None? && call.executed == Some(g)
    case Releasing(ending) => ToldEnding(call, ending)
    case Done(ending) => ToldEnding(call, ending)
    case _ => call.verdict.None? && call.executed.None?
  }

  ghost predicate ToldEnding(call: Call, ending: Ending) {
    match ending
    case Returned(r) => call.verdict == Some(r) || (call.verdict.None? && call.executed.None? && r.ResRefused?)
    case Threw => true
    case _ => call.job.Reconcile?
  }

  ghost predicate AllTold(s: State) {
    forall c :: 0 <= c < |s.calls| ==> Told(s.calls[c])
  }

  lemma OnwardTold(call: Call, current: Generation, answer: Engine.Answer, now: nat)
    requires call.job.Invoke? && Told(call) && Answers(call.pc, answer)
    ensures Told(Onward(call, Resume(call.job.x, call.pc, current, answer, now)))
  {
  }

  lemma MovedTold(s: State, a: Action, c: nat)
    requires Enabled(s, a) && c < |s.calls| && c == Fence.Mover(s, a) && Told(s.calls[c])
    ensures Told(Step(s, a).calls[c])
  {
    match a {
      case Answer(_, answer, now) => OnwardTold(s.calls[c], GenerationOf(s, s.calls[c].Modem()), answer, now);
      case _ =>
    }
  }

  lemma NewTold(s: State, a: Action)
    requires a.Submit?
    ensures Told(Step(s, a).calls[|s.calls|])
  {
  }

  lemma StepTold(s: State, a: Action)
    requires AllTold(s)
    ensures AllTold(Step(s, a))
  {
    var t := Step(s, a);
    forall c | 0 <= c < |t.calls| ensures Told(t.calls[c]) {
      if c >= |s.calls| {
        Fence.NewCall(s, a, c);
        NewTold(s, a);
      } else {
        Fence.OnlyMoverMoves(s, a, c);
        if c == Fence.Mover(s, a) && Enabled(s, a) {
          MovedTold(s, a, c);
        }
      }
    }
  }

  lemma {:induction false} RunTold(file: Option<string>, actions: seq<Action>, i: nat)
    requires i <= |actions|
    ensures AllTold(At(file, actions, i))
  {
    if i > 0 {
      RunTold(file, actions, i - 1);
      AtNext(file, actions, i - 1);
      StepTold(At(file, actions, i - 1), actions[i - 1]);
    }
  }

  /**
   In every run: a call that returns, returns its verdict; or, if its provider was never called, a refusal. Its
   completion entry carries that verdict as well.
   */
  lemma ReturnsItsVerdict(file: Option<string>, actions: seq<Action>, i: nat, c: nat)
    requires i <= |actions| && c < |At(file, actions, i).calls|
    ensures var call := At(file, actions, i).calls[c];
            && (call.pc.Done? && call.pc.ending.Returned? ==>
                  var r := call.pc.ending.result;
                  call.verdict == Some(r) || (call.verdict.None? && call.executed.None? && r.ResRefused?))
            && (call.pc.JournalingEnd? ==> call.verdict == Some(call.pc.result))
  {
    RunTold(file, actions, i);
    assert Told(At(file, actions, i).calls[c]);
  }

  /** In this step call `c` is thrown at: by its provider, a hook, a port it asked, or the journal. */
  predicate ThrownAt(s: State, a: Action, c: nat)
    requires c < |s.calls| && s.calls[c].job.Invoke?
  {
    || (&& a.Answer? && a.call == c && a.answer.Throws?
        && (s.calls[c].pc.Admitting? ==> s.calls[c].job.x.descriptor.admissionRequired && !s.calls[c].job.x.IsRead()))
    || (a.FailHead? && s.appends != [] && s.appends[0] == c)
  }

  predicate HasThrown(call: Call) {
    Decided(call.pc) == Some(Threw)
  }

  lemma ResumeThrows(x: Execution, pc: Pc, current: Generation, answer: Engine.Answer, now: nat)
    requires Answers(pc, answer) && Decided(pc) != Some(Threw)
    ensures Decided(Resume(x, pc, current, answer, now).pc) == Some(Threw) <==>
            answer.Throws? && (pc.Admitting? ==> x.descriptor.admissionRequired && !x.IsRead())
  {
  }

  lemma BeginThrowsNot(gate: set<ModemId>, x: Execution, g: Generation)
    ensures Decided(Begin(gate, x, g).pc) != Some(Threw)
  {
  }

  /** In every run an invocation throws in exactly those steps in which something throws at it. */
  lemma ThrowsExact(file: Option<string>, actions: seq<Action>, i: nat, c: nat)
    requires i < |actions| && Enabled(At(file, actions, i), actions[i])
    requires c < |At(file, actions, i).calls| && At(file, actions, i).calls[c].job.Invoke?
    requires !HasThrown(At(file, actions, i).calls[c])
    ensures c < |At(file, actions, i + 1).calls|
    ensures HasThrown(At(file, actions, i + 1).calls[c]) <==> ThrownAt(At(file, actions, i), actions[i], c)
  {
    AtNext(file, actions, i);
    var s, a := At(file, actions, i), actions[i];
    Fence.OnlyMoverMoves(s, a, c);
    if c == Fence.Mover(s, a) {
      match a {
        case Answer(_, answer, now) =>
          ResumeThrows(s.calls[c].job.x, s.calls[c].pc, GenerationOf(s, s.calls[c].Modem()), answer, now);
        case StartTask(_) => BeginThrowsNot(s.gate, s.calls[c].job.x, GenerationOf(s, s.calls[c].Modem()));
        case _ =>
      }
    }
  }

  /** In every run a released lease leaves the ending as it was decided; a release that throws replaces it. */
  lemma ReleaseExact(file: Option<string>, actions: seq<Action>, i: nat, c: nat)
    requires Answered(file, actions, i, c) && At(file, actions, i).calls[c].pc.Releasing?
    ensures var s, t := At(file, actions, i), At(file, actions, i + 1);
            c < |t.calls| && t.calls[c].pc == Done(if actions[i].answer.Throws? then Threw else s.calls[c].pc.ending)
  {
    AnswerMoves(file, actions, i, c);
  }

  // ---------------------------------------------------------------- nothing executes unasked

  /** Action number `k` satisfies the live preconditions of call `c`. */
  predicate SatisfiedAt(file: Option<string>, actions: seq<Action>, c: nat, k: nat) {
    Answered(file, actions, k, c) && At(file, actions, k).calls[c].pc.Checking? && actions[k].answer.Satisfied?
  }

  /** Action number `k` lets call `c` past its admission. */
  predicate LetInAt(file: Option<string>, actions: seq<Action>, c: nat, k: nat) {
    && Answered(file, actions, k, c) && At(file, actions, k).calls[c].pc.Admitting?
    && At(file, actions, k).calls[c].job.Invoke? && LetIn(At(file, actions, k).calls[c].job.x, actions[k].answer)
  }

  ghost predicate WasSatisfied(file: Option<string>, actions: seq<Action>, c: nat, j: nat) {
    exists k: nat :: k < j && SatisfiedAt(file, actions, c, k)
  }

  ghost predicate WasLetIn(file: Option<string>, actions: seq<Action>, c: nat, j: nat) {
    exists k: nat :: k < j && LetInAt(file, actions, c, k) && WasSatisfied(file, actions, c, k)
  }

  ghost predicate Asked(file: Option<string>, actions: seq<Action>, c: nat, j: nat)
    requires j <= |actions|
  {
    c < |At(file, actions, j).calls| ==>
      && (At(file, actions, j).calls[c].pc.Admitting? ==> WasSatisfied(file, actions, c, j))
      && (EngineLaws.Admitted(At(file, actions, j).calls[c].pc) ==> WasLetIn(file, actions, c, j))
  }

  /** Past its preconditions: at its admission, or admitted. */
  predicate Under(pc: Pc) {
    pc.Admitting? || EngineLaws.Admitted(pc)
  }

  lemma ComesToAdmission(s: State, a: Action, c: nat)
    requires c < |s.calls| && Step(s, a).calls[c].pc.Admitting? && !s.calls[c].pc.Admitting?
    ensures a.Answer? && a.call == c && Enabled(s, a) && s.calls[c].pc.Checking? && a.answer.Satisfied?
  {
    Fence.OnlyMoverMoves(s, a, c);
  }

  lemma ComesPastAdmission(s: State, a: Action, c: nat)
    requires c < |s.calls| && EngineLaws.Admitted(Step(s, a).calls[c].pc) && !EngineLaws.Admitted(s.calls[c].pc)
    ensures a.Answer? && a.call == c && Enabled(s, a) && s.calls[c].pc.Admitting?
    ensures s.calls[c].job.Invoke? && LetIn(s.calls[c].job.x, a.answer)
  {
    Fence.OnlyMoverMoves(s, a, c);
  }

  lemma NewPc(s: State, a: Action)
    requires a.Submit?
    ensures var pc := Step(s, a).calls[|s.calls|].pc; pc.Queued? || pc.Checking? || pc.Done?
  {
  }

  lemma {:induction false} RunAsked(file: Option<string>, actions: seq<Action>, c: nat, j: nat)
    requires j <= |actions|
    ensures Asked(file, actions, c, j)
  {
    if j > 0 {
      RunAsked(file, actions, c, j - 1);
      AtNext(file, actions, j - 1);
      var s, a := At(file, actions, j - 1), actions[j - 1];
      AskedOn(file, actions, c, j - 1);
      if c < |Step(s, a).calls| && Under(Step(s, a).calls[c].pc) {
        if c >= |s.calls| {
          Fence.NewCall(s, a, c);
          NewPc(s, a);
        } else if Step(s, a).calls[c].pc.Admitting? && !s.calls[c].pc.Admitting? {
          ComesToAdmission(s, a, c);
        } else if EngineLaws.Admitted(Step(s, a).calls[c].pc) && !EngineLaws.Admitted(s.calls[c].pc) {
          ComesPastAdmission(s, a, c);
        }
      }
    }
  }

  lemma AskedOn(file: Option<string>, actions: seq<Action>, c: nat, k: nat)
    ensures WasSatisfied(file, actions, c, k) ==> WasSatisfied(file, actions, c, k + 1)
    ensures WasLetIn(file, actions, c, k) ==> WasLetIn(file, actions, c, k + 1)
    ensures SatisfiedAt(file, actions, c, k) ==> WasSatisfied(file, actions, c, k + 1)
    ensures LetInAt(file, actions, c, k) && WasSatisfied(file, actions, c, k) ==> WasLetIn(file, actions, c, k + 1)
  {
  }

  /**
   In every run a provider is called only after the call's preconditions were satisfied and, later, its admission
   was granted wherever its descriptor requires one.
   */
  lemma ExecutedWasLetIn(file: Option<string>, actions: seq<Action>, c: nat, j: nat)
    requires j <= |actions| && c < |At(file, actions, j).calls| && At(file, actions, j).calls[c].pc.Executing?
    ensures exists i: nat, k: nat :: i < k < j && SatisfiedAt(file, actions, c, i) && LetInAt(file, actions, c, k)
  {
    RunAsked(file, actions, c, j);
    var k: nat :| k < j && LetInAt(file, actions, c, k) && WasSatisfied(file, actions, c, k);
    var i: nat :| i < k && SatisfiedAt(file, actions, c, i);
  }

  // ---------------------------------------------------------------- reconciliation

  /**
   In every run a reconciliation, once its modem's actor comes to it, is run exactly when the gate is closed and the
   generation is the one it was asked for; otherwise it ends at once, and says so.
   */
  lemma ReconcileStarts(file: Option<string>, actions: seq<Action>, i: nat, c: nat)
    requires i < |actions| && actions[i] == StartTask(c) && Enabled(At(file, actions, i), actions[i])
    requires At(file, actions, i).calls[c].job.Reconcile?
    ensures var s, t := At(file, actions, i), At(file, actions, i + 1);
            && c < |t.calls| && t.gate == s.gate
            && var m, requested := s.calls[c].job.m, s.calls[c].job.requested;
               && (t.calls[c].pc.Reconciling? <==> m in s.gate && GenerationOf(s, m) == requested)
               && (!t.calls[c].pc.Reconciling? <==> t.calls[c].pc == Done(NotReconciled))
  {
    AtNext(file, actions, i);
  }

  /**
   In every run the end of a reconciliation opens the gate of its modem, and reports `reconciled`, exactly when it
   succeeded in the generation it was asked for; it touches no other gate, and rejects exactly when its run does.
   */
  lemma ReconcileEnds(file: Option<string>, actions: seq<Action>, i: nat)
    requires i < |actions| && actions[i].EndRun? && Enabled(At(file, actions, i), actions[i])
    ensures var s, t, c := At(file, actions, i), At(file, actions, i + 1), actions[i].call;
            && c < |t.calls| && s.calls[c].job.Reconcile? && t.calls[c].pc.Done?
            && var m, requested, end := s.calls[c].job.m, s.calls[c].job.requested, actions[i].end;
               var succeeds := end.RunReconciled? && GenerationOf(s, m) == requested;
               && (t.calls[c].pc.ending == Reconciled <==> succeeds)
               && (t.calls[c].pc.ending == Threw <==> end.RunThrew?)
               && (t.calls[c].pc.ending.Reconciled? || t.calls[c].pc.ending.Threw? || t.calls[c].pc.ending.NotReconciled?)
               && t.gate == s.gate - (if succeeds then {m} else {})
  {
    AtNext(file, actions, i);
  }

  /** No task of the modem's actor is waiting or running. */
  ghost predicate Idle(s: State, m: ModemId) {
    forall i :: 0 <= i < |ActorOf(s, m).tasks| ==> Actor.Finished(ActorOf(s, m).tasks[i])
  }

  lemma QueuedMayStart(s: State, m: ModemId)
    requires ActorsOk(s) && Idle(s, m)
    ensures var t := Actor.Effect(ActorOf(s, m), Actor.Submit(m)); Actor.Enabled(t, Actor.Start(|ActorOf(s, m).tasks|))
  {
    Actor.RunKeepsInv([]);
    Actor.SubmitKeepsInv(ActorOf(s, m), m);
  }

  lemma Resubmitted(s: State, m: ModemId, t: State, job: Job)
    requires ActorsOk(s) && Idle(s, m) && job == Reconcile(m, GenerationOf(s, m)) && t == Step(s, Submit(job))
    ensures t.gate == s.gate && GenerationOf(t, m) == GenerationOf(s, m) && t.session == s.session
    ensures |t.calls| == |s.calls| + 1 && t.calls[|s.calls|].job == job
    ensures Enabled(t, StartTask(|s.calls|))
  {
    QueuedMayStart(s, m);
  }

  /**
   A closed gate does not stay closed for good: from every reachable state in which the modem's actor is idle, asking
   for a reconciliation in the current generation, and having it succeed, opens the gate again.
   */
  lemma GateCanReopen(file: Option<string>, actions: seq<Action>, m: ModemId)
    requires m in Run(Boot(file), actions).gate && Idle(Run(Boot(file), actions), m)
    ensures var s := Run(Boot(file), actions);
            var n, job := |s.calls|, Reconcile(m, GenerationOf(s, m));
            var t := Step(Step(Step(s, Submit(job)), StartTask(n)), EndRun(n, RunReconciled));
            m !in t.gate && n < |t.calls| && t.calls[n].pc == Done(Reconciled) && t.gate == s.gate - {m}
  {
    RunKeepsSerial(file, actions);
    var s := Run(Boot(file), actions);
    var n, job := |s.calls|, Reconcile(m, GenerationOf(s, m));
    var t := Step(s, Submit(job));
    Resubmitted(s, m, t, job);
    RunAndEnded(t, n, m);
  }

  lemma RunAndEnded(t: State, n: nat, m: ModemId)
    requires n < |t.calls| && t.calls[n].job == Reconcile(m, GenerationOf(t, m)) && m in t.gate && Enabled(t, StartTask(n))
    ensures var u := Step(Step(t, StartTask(n)), EndRun(n, RunReconciled));
            n < |u.calls| && u.calls[n].pc == Done(Reconciled) && u.gate == t.gate - {m}
  {
    var v := Step(t, StartTask(n));
    assert v.calls[n].pc.Reconciling? && Live(v, n);
  }
}
