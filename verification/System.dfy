/**
 The engine, its per-modem actors, the journal file and crashes, as one transition system.

 A session is one process: one composition root, one engine, one store object over the journal
 file. A crash ends it and the next session starts with nothing but the file. Calls of earlier
 sessions stay listed, as the run's history.
 */
module System {
  import opened Wrappers
  import opened Operation
  import opened Codec
  import opened Store
  import opened Engine
  import Actor

  datatype Job = Invoke(x: Execution) | Reconcile(m: ModemId, requested: Generation)

  /** `executed` and `verdict` record what has happened to the call. */
  datatype Call = Call(
    job: Job,
    session: nat,
    ticket: nat,
    pc: Pc,
    executed: Option<Generation>,
    verdict: Option<OpResult>)
  {
    function Modem(): ModemId {
      if job.Invoke? then job.x.modem else job.m
    }

    predicate Journaled() {
      job.Invoke? && job.x.hasJournal
    }

    predicate IsWrite() {
      job.Invoke? && !job.x.IsRead()
    }

    /** Reads do not enter the modem's actor; writes and reconciliations do. */
    predicate UsesActor() {
      job.Reconcile? || !job.x.IsRead()
    }

    /** Started, and its promise not settled yet. */
    predicate Active() {
      !pc.Queued? && !pc.Done?
    }

    predicate AwaitsJournal() {
      pc.JournalingStart? || pc.JournalingEnd?
    }
  }

  datatype State = State(
    session: nat,
    actors: map<ModemId, Actor.State>,
    gate: set<ModemId>,
    generations: map<ModemId, Generation>,
    calls: seq<Call>,
    store: StoreState,
    appends: seq<nat>)

  datatype Action =
    | Submit(job: Job)
    | StartTask(call: nat)
    | Answer(call: nat, answer: Engine.Answer, now: nat)
    | EndRun(call: nat, end: RunEnd)
    | SettleTask(call: nat)
    | DrainTask(call: nat)
    | CleanupTask(call: nat)
    | WriteHead
    | FailHead(written: nat)
    | SetGeneration(m: ModemId, g: Generation)
    | Die(written: nat)

  /** A first session over whatever journal file is already there. */
  function Boot(file: Option<string>): State {
    State(0, map[], {}, map[], [], StoreState(file, None), [])
  }

  function GenerationOf(s: State, m: ModemId): Generation {
    if m in s.generations then s.generations[m] else 0
  }

  /** `actorFor`: one actor per modem, created on first use. */
  function ActorOf(s: State, m: ModemId): Actor.State {
    if m in s.actors then s.actors[m] else Actor.INITIAL
  }

  predicate Live(s: State, c: nat) {
    c < |s.calls| && s.calls[c].session == s.session
  }

  /** The entry a call is having appended. */
  function PendingEntry(call: Call): Entry
    requires call.Journaled() && call.AwaitsJournal()
  {
    EntryFor(call.job.x, call.pc.generation, if call.pc.JournalingStart? then None else Some(call.pc.result), call.pc.at)
  }

  predicate HeadReady(s: State) {
    s.appends != [] && Live(s, s.appends[0]) && s.calls[s.appends[0]].Journaled() && s.calls[s.appends[0]].AwaitsJournal()
  }

  function HeadEntry(s: State): Entry
    requires HeadReady(s)
  {
    PendingEntry(s.calls[s.appends[0]])
  }

  // ---------------------------------------------------------------- steps

  predicate TaskEnabled(s: State, c: nat, a: Actor.Action) {
    Live(s, c) && s.calls[c].UsesActor() && Actor.Enabled(ActorOf(s, s.calls[c].Modem()), a)
  }

  predicate Enabled(s: State, a: Action) {
    match a
    case Submit(_) => true
    case StartTask(c) => Live(s, c) && s.calls[c].pc.Queued? && TaskEnabled(s, c, Actor.Start(s.calls[c].ticket))
    case Answer(c, answer, _) => Live(s, c) && s.calls[c].job.Invoke? && Answers(s.calls[c].pc, answer)
    case EndRun(c, _) => Live(s, c) && s.calls[c].job.Reconcile? && s.calls[c].pc.Reconciling?
    case SettleTask(c) => Live(s, c) && s.calls[c].pc.Done? && TaskEnabled(s, c, Actor.Settle(s.calls[c].ticket, false))
    case DrainTask(c) => Live(s, c) && TaskEnabled(s, c, Actor.Drain(s.calls[c].ticket))
    case CleanupTask(c) => Live(s, c) && TaskEnabled(s, c, Actor.Cleanup(s.calls[c].ticket))
    case WriteHead => HeadReady(s)
    case FailHead(k) => HeadReady(s) && k <= |Chunk(Terminated(s.store), HeadEntry(s))|
    case SetGeneration(_, _) => true
    case Die(k) => HeadReady(s) ==> k <= |Chunk(Terminated(s.store), HeadEntry(s))|
  }

  function WithActor(s: State, m: ModemId, a: Actor.Action): State
    requires Actor.Enabled(ActorOf(s, m), a)
  {
    s.(actors := s.actors[m := Actor.Effect(ActorOf(s, m), a)])
  }

  /** The call after a stretch of it ran. */
  function Onward(call: Call, next: Next): Call {
    call.(pc := next.pc,
          executed := if next.pc.Executing? then Some(next.pc.generation) else call.executed,
          verdict := if next.verdict.Some? then next.verdict else call.verdict)
  }

  /** A stretch of call `c` ran: it now awaits at `next.pc`. */
  function WithNext(s: State, c: nat, next: Next): State
    requires c < |s.calls|
  {
    var call := s.calls[c];
    var call' := Onward(call, next);
    s.(calls := s.calls[c := call'],
       gate := GateAfter(s.gate, call.Modem(), next.verdict),
       appends := if call'.AwaitsJournal() then s.appends + [c] else s.appends)
  }

  function SubmitEffect(s: State, job: Job): State {
    var call := Call(job, s.session, 0, Queued, None, None);
    var m := call.Modem();
    if call.UsesActor() then
      var queued := call.(ticket := |ActorOf(s, m).tasks|);
      WithActor(s, m, Actor.Submit(m)).(calls := s.calls + [queued])
    else
      WithNext(s.(calls := s.calls + [call]), |s.calls|, Begin(s.gate, job.x, GenerationOf(s, m)))
  }

  function StartEffect(s: State, c: nat): State
    requires Enabled(s, StartTask(c))
  {
    var call := s.calls[c];
    var m := call.Modem();
    var t := WithActor(s, m, Actor.Start(call.ticket));
    match call.job
    case Invoke(x) => WithNext(t, c, Begin(s.gate, x, GenerationOf(s, m)))
    case Reconcile(_, requested) =>
      WithNext(t, c, Next(BeginReconcile(s.gate, m, requested, GenerationOf(s, m)), None))
  }

  function EndRunEffect(s: State, c: nat, end: RunEnd): State
    requires Enabled(s, EndRun(c, end))
  {
    var call := s.calls[c];
    var ending := EndReconcile(call.job.requested, GenerationOf(s, call.Modem()), end);
    WithNext(s, c, Next(Done(ending), None)).(gate := if ending.Reconciled? then s.gate - {call.Modem()} else s.gate)
  }

  /** The append at the head of the store's chain completed, and its call goes on. */
  function WriteEffect(s: State): State
    requires HeadReady(s)
  {
    var c := s.appends[0];
    var call := s.calls[c];
    var next := if call.pc.JournalingStart? then Executing(call.pc.generation, 1)
                else Finish(call.job.x, Returned(call.pc.result));
    WithNext(s.(store := Appended(s.store, HeadEntry(s)), appends := s.appends[1..]), c, Next(next, None))
  }

  /** The append was rejected with `k` characters on file; the call's hook throws. */
  function FailEffect(s: State, k: nat): State
    requires Enabled(s, FailHead(k))
  {
    var c := s.appends[0];
    WithNext(s.(store := AppendFailed(s.store, HeadEntry(s), k), appends := s.appends[1..]), c,
             Next(Finish(s.calls[c].job.x, Threw), None))
  }

  /** The process dies; the append in progress, if any, leaves `k` of its characters. */
  function CrashEffect(s: State, k: nat): State
    requires Enabled(s, Die(k))
  {
    s.(session := s.session + 1, actors := map[], gate := {}, appends := [],
       store := if HeadReady(s) then Crashed(s.store, HeadEntry(s), k) else s.store.(terminated := None))
  }

  function Effect(s: State, a: Action): State
    requires Enabled(s, a)
  {
    match a
    case Submit(job) => SubmitEffect(s, job)
    case StartTask(c) => StartEffect(s, c)
    case Answer(c, answer, now) =>
      WithNext(s, c, Resume(s.calls[c].job.x, s.calls[c].pc, GenerationOf(s, s.calls[c].Modem()), answer, now))
    case EndRun(c, end) => EndRunEffect(s, c, end)
    case SettleTask(c) => WithActor(s, s.calls[c].Modem(), Actor.Settle(s.calls[c].ticket, false))
    case DrainTask(c) => WithActor(s, s.calls[c].Modem(), Actor.Drain(s.calls[c].ticket))
    case CleanupTask(c) => WithActor(s, s.calls[c].Modem(), Actor.Cleanup(s.calls[c].ticket))
    case WriteHead => WriteEffect(s)
    case FailHead(k) => FailEffect(s, k)
    case SetGeneration(m, g) => s.(generations := s.generations[m := g])
    case Die(k) => CrashEffect(s, k)
  }

  /** A disabled action does nothing, so every sequence of actions is a run. */
  function Step(s: State, a: Action): State {
    if Enabled(s, a) then Effect(s, a) else s
  }

  function Run(s: State, actions: seq<Action>): State {
    if actions == [] then s else Step(Run(s, actions[..|actions| - 1]), actions[|actions| - 1])
  }

  /** The state in which action number `i` of a run is taken. */
  function At(file: Option<string>, actions: seq<Action>, i: nat): State
    requires i <= |actions|
  {
    Run(Boot(file), actions[..i])
  }

  lemma AtNext(file: Option<string>, actions: seq<Action>, i: nat)
    requires i < |actions|
    ensures At(file, actions, i + 1) == Step(At(file, actions, i), actions[i])
  {
    assert actions[..i + 1][..i] == actions[..i];
  }

  lemma RunOne(s: State, actions: seq<Action>, a: Action)
    ensures Run(s, actions + [a]) == Step(Run(s, actions), a)
  {
    assert (actions + [a])[..|actions|] == actions;
  }

  lemma {:induction false} RunConcat(s: State, a: seq<Action>, b: seq<Action>)
    ensures Run(s, a + b) == Run(Run(s, a), b)
  {
    if b == [] {
      assert a + b == a;
    } else {
      var front, last := b[..|b| - 1], b[|b| - 1];
      assert a + b == (a + front) + [last];
      RunOne(s, a + front, last);
      RunConcat(s, a, front);
    }
  }

  lemma RunFour(s: State, a: Action, b: Action, c: Action, d: Action)
    ensures Run(s, [a, b, c, d]) == Step(Step(Step(Step(s, a), b), c), d)
  {
    RunOne(s, [], a);
    RunOne(s, [a], b);
    RunOne(s, [a, b], c);
    RunOne(s, [a, b, c], d);
    assert [] + [a] == [a] && [a] + [b] == [a, b] && [a, b] + [c] == [a, b, c] && [a, b, c] + [d] == [a, b, c, d];
  }

  // ---------------------------------------------------------------- writes and reconciliations are serialised

  /** Every live actor call holds its own task of its modem's actor, in step with its program counter. */
  ghost predicate TicketOk(s: State, c: nat)
    requires c < |s.calls|
  {
    var call := s.calls[c];
    Live(s, c) && call.UsesActor() ==>
      && call.Modem() in s.actors && call.ticket < |s.actors[call.Modem()].tasks|
      && var phase := s.actors[call.Modem()].tasks[call.ticket].phase;
         (call.pc.Queued? <==> phase.Queued?) && (call.Active() ==> phase.Running?)
  }

  ghost predicate ActorsOk(s: State) {
    forall m :: m in s.actors ==>
      Actor.Inv(s.actors[m]) && forall i :: 0 <= i < |s.actors[m].tasks| ==> s.actors[m].tasks[i].key == m
  }

  predicate SameQueue(s: State, c: nat, d: nat) {
    && Live(s, c) && Live(s, d) && s.calls[c].UsesActor() && s.calls[d].UsesActor()
    && s.calls[c].Modem() == s.calls[d].Modem()
  }

  ghost predicate Serial(s: State) {
    && ActorsOk(s)
    && (forall c :: 0 <= c < |s.calls| ==> TicketOk(s, c))
    && (forall c, d :: 0 <= c < d < |s.calls| && SameQueue(s, c, d) ==> s.calls[c].ticket != s.calls[d].ticket)
  }

  /** Two writes or reconciliations of one modem are never active together. */
  lemma OneActive(s: State, c: nat, d: nat)
    requires Serial(s) && SameQueue(s, c, d)
    requires s.calls[c].Active() && s.calls[d].Active()
    ensures c == d
  {
    assert TicketOk(s, c) && TicketOk(s, d);
    var tasks := s.actors[s.calls[c].Modem()].tasks;
    var i, j := s.calls[c].ticket, s.calls[d].ticket;
    assert Actor.InOrder(s.actors[s.calls[c].Modem()]);
    assert tasks[i].key == tasks[j].key;
    assert tasks[i].phase.Running? && tasks[j].phase.Running?;
  }

  /** Only call `c` moved, and it stays in step with its task. */
  lemma LocalKeepsSerial(s: State, t: State, c: nat)
    requires Serial(s) && c < |s.calls|
    requires t.session == s.session && t.actors == s.actors && |t.calls| == |s.calls|
    requires forall d :: 0 <= d < |s.calls| && d != c ==> t.calls[d] == s.calls[d]
    requires t.calls[c].job == s.calls[c].job && t.calls[c].session == s.calls[c].session
    requires t.calls[c].ticket == s.calls[c].ticket
    requires s.calls[c].Active() && !t.calls[c].pc.Queued?
    ensures Serial(t)
  {
    assert TicketOk(s, c);
    forall d | 0 <= d < |t.calls| ensures TicketOk(t, d) {
      assert TicketOk(s, d);
    }
    forall d, e | 0 <= d < e < |t.calls| && SameQueue(t, d, e) ensures t.calls[d].ticket != t.calls[e].ticket {
      assert SameQueue(s, d, e);
    }
  }

  /** One actor task of call `c` moved, and the call with it. */
  lemma TaskKeepsSerial(s: State, t: State, c: nat, a: Actor.Action)
    requires Serial(s) && Live(s, c) && s.calls[c].UsesActor()
    requires s.calls[c].Modem() in s.actors
    requires !a.Submit? && a.task == s.calls[c].ticket && Actor.Enabled(s.actors[s.calls[c].Modem()], a)
    requires t.session == s.session && |t.calls| == |s.calls|
    requires t.actors == s.actors[s.calls[c].Modem() := Actor.Effect(s.actors[s.calls[c].Modem()], a)]
    requires forall d :: 0 <= d < |s.calls| && d != c ==> t.calls[d] == s.calls[d]
    requires t.calls[c].job == s.calls[c].job && t.calls[c].session == s.calls[c].session
    requires t.calls[c].ticket == s.calls[c].ticket
    requires if a.Start? then !t.calls[c].pc.Queued? else t.calls[c] == s.calls[c] && s.calls[c].pc.Done?
    ensures Serial(t)
  {
    var m := s.calls[c].Modem();
    Actor.StepKeepsInv(s.actors[m], a);
    assert TicketOk(s, c);
    forall d | 0 <= d < |t.calls| ensures TicketOk(t, d) {
      assert TicketOk(s, d);
      assert d < c ==> SameQueue(s, d, c) == SameQueue(t, d, c);
      assert c < d ==> SameQueue(s, c, d) == SameQueue(t, c, d);
      assert t.calls[d].ticket == s.calls[d].ticket;
    }
    forall d, e | 0 <= d < e < |t.calls| && SameQueue(t, d, e) ensures t.calls[d].ticket != t.calls[e].ticket {
      assert SameQueue(s, d, e);
    }
  }

  lemma ReadKeepsSerial(s: State, job: Job)
    requires Serial(s) && job.Invoke? && job.x.IsRead()
    ensures Serial(SubmitEffect(s, job))
  {
    var t := SubmitEffect(s, job);
    forall d | 0 <= d < |t.calls| ensures TicketOk(t, d) {
      if d < |s.calls| {
        assert TicketOk(s, d);
      }
    }
    forall d, e | 0 <= d < e < |t.calls| && SameQueue(t, d, e) ensures t.calls[d].ticket != t.calls[e].ticket {
      assert SameQueue(s, d, e);
    }
  }

  lemma SubmitKeepsActors(s: State, m: ModemId)
    requires ActorsOk(s)
    ensures ActorsOk(WithActor(s, m, Actor.Submit(m)))
  {
    Actor.RunKeepsInv([]);
    Actor.SubmitKeepsInv(ActorOf(s, m), m);
  }

  lemma QueueKeepsTickets(s: State, job: Job)
    requires Serial(s) && (job.Invoke? ==> !job.x.IsRead())
    ensures forall d :: 0 <= d < |SubmitEffect(s, job).calls| ==> TicketOk(SubmitEffect(s, job), d)
  {
    var t := SubmitEffect(s, job);
    forall d | 0 <= d < |t.calls| ensures TicketOk(t, d) {
      if d < |s.calls| {
        assert TicketOk(s, d);
      }
    }
  }

  lemma QueueKeepsSerial(s: State, job: Job)
    requires Serial(s) && (job.Invoke? ==> !job.x.IsRead())
    ensures Serial(SubmitEffect(s, job))
  {
    var t := SubmitEffect(s, job);
    SubmitKeepsActors(s, t.calls[|s.calls|].Modem());
    QueueKeepsTickets(s, job);
    forall d, e | 0 <= d < e < |t.calls| && SameQueue(t, d, e) ensures t.calls[d].ticket != t.calls[e].ticket {
      assert TicketOk(s, d);
      if e < |s.calls| {
        assert SameQueue(s, d, e);
      }
    }
  }

  lemma CrashKeepsSerial(s: State, k: nat)
    requires Serial(s) && Enabled(s, Die(k)) && Sessions(s)
    ensures Serial(CrashEffect(s, k))
  {
    var t := CrashEffect(s, k);
    forall c | 0 <= c < |t.calls| ensures !Live(t, c) {
      assert s.calls[c].session <= s.session;
    }
  }

  /** Calls belong to this session or an earlier one. */
  ghost predicate Sessions(s: State) {
    forall c :: 0 <= c < |s.calls| ==> s.calls[c].session <= s.session
  }

  /** Nothing but generations changed. */
  lemma QuietKeepsSerial(s: State, t: State)
    requires Serial(s)
    requires t.session == s.session && t.actors == s.actors && t.calls == s.calls
    ensures Serial(t)
  {
    forall d | 0 <= d < |t.calls| ensures TicketOk(t, d) {
      assert TicketOk(s, d);
    }
    forall d, e | 0 <= d < e < |t.calls| && SameQueue(t, d, e) ensures t.calls[d].ticket != t.calls[e].ticket {
      assert SameQueue(s, d, e);
    }
  }

  /** The actor action a task step takes. */
  function TaskAction(s: State, a: Action): Actor.Action
    requires a.StartTask? || a.SettleTask? || a.DrainTask? || a.CleanupTask?
    requires a.call < |s.calls|
  {
    var ticket := s.calls[a.call].ticket;
    if a.StartTask? then Actor.Start(ticket)
    else if a.SettleTask? then Actor.Settle(ticket, false)
    else if a.DrainTask? then Actor.Drain(ticket)
    else Actor.Cleanup(ticket)
  }

  lemma TaskStepKeepsSerial(s: State, a: Action)
    requires Serial(s) && Enabled(s, a)
    requires a.StartTask? || a.SettleTask? || a.DrainTask? || a.CleanupTask?
    ensures Serial(Effect(s, a))
  {
    assert TicketOk(s, a.call);
    TaskKeepsSerial(s, Effect(s, a), a.call, TaskAction(s, a));
  }

  lemma CallKeepsSerial(s: State, a: Action)
    requires Serial(s) && Enabled(s, a) && (a.Answer? || a.EndRun?)
    ensures Serial(Effect(s, a))
  {
    LocalKeepsSerial(s, Effect(s, a), a.call);
  }

  lemma HeadKeepsSerial(s: State, a: Action)
    requires Serial(s) && Enabled(s, a) && (a.WriteHead? || a.FailHead?)
    ensures Serial(Effect(s, a))
  {
    LocalKeepsSerial(s, Effect(s, a), s.appends[0]);
  }

  lemma StepKeepsSerial(s: State, a: Action)
    requires Serial(s) && Sessions(s)
    ensures Serial(Step(s, a))
  {
    if Enabled(s, a) {
      match a {
        case Submit(job) =>
          if job.Invoke? && job.x.IsRead() {
            ReadKeepsSerial(s, job);
          } else {
            QueueKeepsSerial(s, job);
          }
        case SetGeneration(_, _) => QuietKeepsSerial(s, Effect(s, a));
        case Die(k) => CrashKeepsSerial(s, k);
        case Answer(_, _, _) => CallKeepsSerial(s, a);
        case EndRun(_, _) => CallKeepsSerial(s, a);
        case WriteHead => HeadKeepsSerial(s, a);
        case FailHead(_) => HeadKeepsSerial(s, a);
        case _ => TaskStepKeepsSerial(s, a);
      }
    }
  }

  lemma StepKeepsSessions(s: State, a: Action)
    requires Sessions(s)
    ensures Sessions(Step(s, a))
  {
  }

  lemma {:induction false} RunKeepsSerial(file: Option<string>, actions: seq<Action>)
    ensures Serial(Run(Boot(file), actions)) && Sessions(Run(Boot(file), actions))
  {
    if actions != [] {
      var front := actions[..|actions| - 1];
      RunKeepsSerial(file, front);
      StepKeepsSerial(Run(Boot(file), front), actions[|actions| - 1]);
      StepKeepsSessions(Run(Boot(file), front), actions[|actions| - 1]);
    }
  }

  // ---------------------------------------------------------------- the chain of appends

  ghost predicate Distinct(xs: seq<nat>) {
    forall i, j :: 0 <= i < j < |xs| ==> xs[i] != xs[j]
  }

  /** The store's chain holds exactly the live calls that await an append, once each. */
  ghost predicate Chained(s: State) {
    && Distinct(s.appends)
    && (forall i :: 0 <= i < |s.appends| ==> s.appends[i] < |s.calls|)
    && (forall c: nat :: c < |s.calls| ==> (c in s.appends <==> Live(s, c) && s.calls[c].AwaitsJournal()))
    && (forall c: nat :: c < |s.calls| && s.calls[c].AwaitsJournal() ==> s.calls[c].Journaled())
  }

  /** Call `c`, awaiting no append, ran a stretch of the engine's code. */
  lemma StretchKeepsChained(s: State, t: State, c: nat)
    requires Chained(s) && c < |s.calls| && Live(s, c) && !s.calls[c].AwaitsJournal()
    requires |t.calls| == |s.calls| && t.session == s.session
    requires forall d :: 0 <= d < |s.calls| && d != c ==> t.calls[d] == s.calls[d]
    requires t.calls[c].session == s.calls[c].session
    requires t.calls[c].AwaitsJournal() ==> t.calls[c].Journaled()
    requires t.appends == if t.calls[c].AwaitsJournal() then s.appends + [c] else s.appends
    ensures Chained(t)
  {
  }

  lemma HeadKeepsChained(s: State, t: State)
    requires Chained(s) && HeadReady(s)
    requires |t.calls| == |s.calls| && t.session == s.session && t.appends == s.appends[1..]
    requires forall d :: 0 <= d < |s.calls| && d != s.appends[0] ==> t.calls[d] == s.calls[d]
    requires !t.calls[s.appends[0]].AwaitsJournal()
    ensures Chained(t)
  {
    assert s.appends == [s.appends[0]] + s.appends[1..];
  }

  lemma SubmitKeepsChained(s: State, job: Job)
    requires Chained(s)
    ensures Chained(SubmitEffect(s, job))
  {
    var t := SubmitEffect(s, job);
    assert forall d :: 0 <= d < |s.calls| ==> t.calls[d] == s.calls[d];
    assert t.appends == s.appends && !t.calls[|s.calls|].AwaitsJournal();
  }

  lemma CallKeepsChained(s: State, a: Action)
    requires Chained(s) && Enabled(s, a) && (a.StartTask? || a.Answer? || a.EndRun?)
    ensures Chained(Effect(s, a))
  {
    StretchKeepsChained(s, Effect(s, a), a.call);
  }

  lemma CrashKeepsChained(s: State, a: Action)
    requires Chained(s) && Sessions(s) && a.Die? && Enabled(s, a)
    ensures Chained(Effect(s, a))
  {
  }

  lemma StepKeepsChained(s: State, a: Action)
    requires Chained(s) && Sessions(s)
    ensures Chained(Step(s, a))
  {
    if Enabled(s, a) {
      match a {
        case Submit(job) => SubmitKeepsChained(s, job);
        case StartTask(_) => CallKeepsChained(s, a);
        case Answer(_, _, _) => CallKeepsChained(s, a);
        case EndRun(_, _) => CallKeepsChained(s, a);
        case WriteHead => HeadKeepsChained(s, Effect(s, a));
        case FailHead(_) => HeadKeepsChained(s, Effect(s, a));
        case Die(_) => CrashKeepsChained(s, a);
        case _ =>
      }
    }
  }

  lemma {:induction false} RunKeepsChained(file: Option<string>, actions: seq<Action>)
    ensures Chained(Run(Boot(file), actions))
  {
    if actions != [] {
      var front := actions[..|actions| - 1];
      RunKeepsSerial(file, front);
      RunKeepsChained(file, front);
      StepKeepsChained(Run(Boot(file), front), actions[|actions| - 1]);
    }
  }
}
