/** The recovery ladder and its budget (`backend/recovery-ladder.ts`, `backend/recovery-budget.ts`). */
module Ladder {
  import opened Wrappers

  // ---------------------------------------------------------------- budget

  datatype Budget = Budget(maxAttempts: int, cooldownMs: int)

  datatype BudgetState = BudgetState(attempts: nat, degraded: bool, lastAttemptAt: Option<int>)

  const INITIAL := BudgetState(0, false, None)

  datatype Decision = Proceed(state: BudgetState) | Cooldown(state: BudgetState, retryAfter: int) | LoopStop(state: BudgetState)

  /** May an attempt proceed at `now`? The cooldown is looked at before the count. */
  function BeginAttempt(s: BudgetState, b: Budget, now: int): Decision {
    if s.degraded then LoopStop(s)
    else if s.lastAttemptAt.Some? && now - s.lastAttemptAt.value < b.cooldownMs then
      Cooldown(s, s.lastAttemptAt.value + b.cooldownMs)
    else if s.attempts >= b.maxAttempts then LoopStop(s.(degraded := true))
    else Proceed(BudgetState(s.attempts + 1, false, Some(now)))
  }

  // ---------------------------------------------------------------- rungs

  datatype Rung = NmCycle | MmCycle | Reset | PowerCycle

  const LADDER_ORDER := [NmCycle, MmCycle, Reset, PowerCycle]

  datatype Verdict = Allow | Block | InterlockThrows
  datatype StepReply = Applied | Failed | Unsupported | StepThrows
  datatype ProbeReply = Healthy | Unhealthy | ProbeThrows

  /** How the outside answers when a rung gets to ask. */
  datatype Script = Script(interlock: Verdict, step: StepReply, probe: ProbeReply)

  /** A call to the outside, in the order made. */
  datatype Effect = AskInterlock(rung: Rung) | RunRung(rung: Rung) | ProbeHealth(rung: Rung)

  datatype Status = StatusApplied | StatusUnsupported | StatusFailed | StatusSkipped | StatusBlocked
  datatype StepReport = StepReport(rung: Rung, status: Status)

  datatype Kind =
    | Disabled | NotAttributed | CoolingDown | LoopStopped | InterlockBlocked | Recovered | LadderExhausted | RunThrew

  datatype Config = Config(allowed: Rung -> bool, budget: Budget)

  datatype Request = Request(enabled: bool, modemFault: bool, now: int, scripts: Rung -> Script)

  /** What one run did: how it ended, what it reported, what it called. */
  datatype Outcome = Outcome(kind: Kind, steps: seq<StepReport>, effects: seq<Effect>)

  function StatusOf(r: StepReply): Status
    requires !r.StepThrows?
  {
    match r
    case Applied => StatusApplied
    case Failed => StatusFailed
    case Unsupported => StatusUnsupported
  }

  /** What one rung does: `None` lets the ladder go on. */
  datatype RungResult = RungResult(ends: Option<Kind>, reports: seq<StepReport>, effects: seq<Effect>)

  function OneRung(c: Config, rung: Rung, script: Script): RungResult {
    if !c.allowed(rung) then RungResult(None, [StepReport(rung, StatusSkipped)], [])
    else
      match script.interlock
      case InterlockThrows => RungResult(Some(RunThrew), [], [AskInterlock(rung)])
      case Block => RungResult(Some(InterlockBlocked), [StepReport(rung, StatusBlocked)], [AskInterlock(rung)])
      case Allow =>
        var ran := [AskInterlock(rung), RunRung(rung)];
        if script.step.StepThrows? then RungResult(Some(RunThrew), [], ran)
        else
          var report := [StepReport(rung, StatusOf(script.step))];
          if !script.step.Applied? then RungResult(None, report, ran)
          else
            match script.probe
            case ProbeThrows => RungResult(Some(RunThrew), report, ran + [ProbeHealth(rung)])
            case Healthy => RungResult(Some(Recovered), report, ran + [ProbeHealth(rung)])
            case Unhealthy => RungResult(None, report, ran + [ProbeHealth(rung)])
  }

  /** The ladder over the first rungs of `rungs`; it stops at the first rung that ends it. */
  function Rungs(c: Config, rungs: seq<Rung>, scripts: Rung -> Script): RungResult {
    if rungs == [] then RungResult(None, [], [])
    else
      var before := Rungs(c, rungs[..|rungs| - 1], scripts);
      if before.ends.Some? then before
      else
        var last := OneRung(c, rungs[|rungs| - 1], scripts(rungs[|rungs| - 1]));
        RungResult(last.ends, before.reports + last.reports, before.effects + last.effects)
  }

  /** One run, and the budget state it leaves. */
  datatype RunResult = RunResult(state: BudgetState, outcome: Outcome)

  function RunOn(s: BudgetState, c: Config, request: Request): RunResult {
    if !request.enabled then RunResult(s, Outcome(Disabled, [], []))
    else if !request.modemFault then RunResult(s, Outcome(NotAttributed, [], []))
    else
      match BeginAttempt(s, c.budget, request.now)
      case LoopStop(s') => RunResult(s', Outcome(LoopStopped, [], []))
      case Cooldown(_, _) => RunResult(s, Outcome(CoolingDown, [], []))
      case Proceed(s') =>
        var r := Rungs(c, LADDER_ORDER, request.scripts);
        var kind := if r.ends.Some? then r.ends.value else LadderExhausted;
        RunResult(if kind.Recovered? then INITIAL else s', Outcome(kind, r.reports, r.effects))
  }

  /** The run got past every gate to the rungs. */
  predicate Reaches(s: BudgetState, c: Config, request: Request) {
    request.enabled && request.modemFault && BeginAttempt(s, c.budget, request.now).Proceed?
  }

  // ---------------------------------------------------------------- one run

  function RungCount(effects: seq<Effect>): nat {
    if effects == [] then 0
    else RungCount(effects[..|effects| - 1]) + (if effects[|effects| - 1].RunRung? then 1 else 0)
  }

  lemma {:induction false} RungCountConcat(a: seq<Effect>, b: seq<Effect>)
    ensures RungCount(a + b) == RungCount(a) + RungCount(b)
  {
    if b == [] {
      assert a + b == a;
    } else {
      assert (a + b)[..|a + b| - 1] == a + b[..|b| - 1];
      RungCountConcat(a, b[..|b| - 1]);
    }
  }

  /** Nothing disruptive happens before its own interlock has been asked and has allowed it. */
  ghost predicate Guarded(effects: seq<Effect>, scripts: Rung -> Script) {
    forall i :: 0 <= i < |effects| && effects[i].RunRung? ==>
      i > 0 && effects[i - 1] == AskInterlock(effects[i].rung) && scripts(effects[i].rung).interlock.Allow?
  }

  lemma OneRungGuarded(c: Config, rung: Rung, scripts: Rung -> Script)
    ensures var r := OneRung(c, rung, scripts(rung));
            Guarded(r.effects, scripts) && RungCount(r.effects) <= 1 && (r.effects != [] ==> c.allowed(rung))
  {
    var a, b, p := AskInterlock(rung), RunRung(rung), ProbeHealth(rung);
    RungCountConcat([a], []);
    RungCountConcat([a], [b]);
    RungCountConcat([a, b], [p]);
    assert [a] + [b] == [a, b] && RungCount([a]) == 0 && RungCount([b]) == 1 && RungCount([p]) == 0;
  }

  lemma GuardedConcat(a: seq<Effect>, b: seq<Effect>, scripts: Rung -> Script)
    requires Guarded(a, scripts) && Guarded(b, scripts)
    ensures Guarded(a + b, scripts)
  {
    forall i | 0 <= i < |a + b| && (a + b)[i].RunRung?
      ensures i > 0 && (a + b)[i - 1] == AskInterlock((a + b)[i].rung) && scripts((a + b)[i].rung).interlock.Allow?
    {
      if i >= |a| {
        assert b[i - |a|].RunRung?;
      }
    }
  }

  lemma {:induction false} RungsGuarded(c: Config, rungs: seq<Rung>, scripts: Rung -> Script)
    ensures Guarded(Rungs(c, rungs, scripts).effects, scripts)
    ensures RungCount(Rungs(c, rungs, scripts).effects) <= |rungs|
  {
    if rungs != [] {
      var front, last := rungs[..|rungs| - 1], rungs[|rungs| - 1];
      RungsGuarded(c, front, scripts);
      OneRungGuarded(c, last, scripts);
      GuardedConcat(Rungs(c, front, scripts).effects, OneRung(c, last, scripts(last)).effects, scripts);
      RungCountConcat(Rungs(c, front, scripts).effects, OneRung(c, last, scripts(last)).effects);
    }
  }

  /** A run that does not get past the gates calls nothing outside; one that does runs at most four rungs, each let through. */
  lemma RunEffects(s: BudgetState, c: Config, request: Request)
    ensures var r := RunOn(s, c, request).outcome;
            && (!Reaches(s, c, request) ==> r.effects == [])
            && RungCount(r.effects) <= 4
            && Guarded(r.effects, request.scripts)
  {
    RungsGuarded(c, LADDER_ORDER, request.scripts);
  }

  predicate EndsAt(c: Config, rungs: seq<Rung>, scripts: Rung -> Script, i: nat)
    requires i < |rungs|
  {
    OneRung(c, rungs[i], scripts(rungs[i])).ends.Some?
  }

  /** Rung `i` ends the ladder, and no earlier one does. */
  ghost predicate EndsFirst(c: Config, rungs: seq<Rung>, scripts: Rung -> Script, i: nat) {
    i < |rungs| && EndsAt(c, rungs, scripts, i) && forall j :: 0 <= j < i ==> !EndsAt(c, rungs, scripts, j)
  }

  /** The ladder ends with the first rung that ends it, and goes through when none does. */
  lemma {:induction false} FirstEnding(c: Config, rungs: seq<Rung>, scripts: Rung -> Script)
    ensures Rungs(c, rungs, scripts).ends.None? <==> forall i: nat :: !EndsFirst(c, rungs, scripts, i)
    ensures forall i: nat :: EndsFirst(c, rungs, scripts, i) ==>
              OneRung(c, rungs[i], scripts(rungs[i])).ends == Rungs(c, rungs, scripts).ends
  {
    if rungs != [] {
      var front, n := rungs[..|rungs| - 1], |rungs| - 1;
      FirstEnding(c, front, scripts);
      forall i: nat | i < n ensures EndsAt(c, front, scripts, i) == EndsAt(c, rungs, scripts, i) {
        assert front[i] == rungs[i];
      }
      forall i: nat | i < n ensures EndsFirst(c, front, scripts, i) == EndsFirst(c, rungs, scripts, i) {
      }
      if Rungs(c, front, scripts).ends.None? {
        NoneEnds(c, front, scripts, n);
        assert EndsFirst(c, rungs, scripts, n) <==> EndsAt(c, rungs, scripts, n);
      } else {
        var i: nat :| EndsFirst(c, front, scripts, i);
        assert EndsFirst(c, rungs, scripts, i);
      }
    }
  }

  lemma {:induction false} NoneEnds(c: Config, rungs: seq<Rung>, scripts: Rung -> Script, n: nat)
    requires n <= |rungs| && forall i: nat :: !EndsFirst(c, rungs, scripts, i)
    ensures forall j :: 0 <= j < n ==> !EndsAt(c, rungs, scripts, j)
  {
    if n > 0 {
      NoneEnds(c, rungs, scripts, n - 1);
      assert !EndsFirst(c, rungs, scripts, n - 1);
    }
  }

  /** Rung `r` was let through, applied, and the modem was healthy afterwards. */
  predicate Heals(c: Config, r: Rung, script: Script) {
    c.allowed(r) && script.interlock.Allow? && script.step.Applied? && script.probe.Healthy?
  }

  /**
   A run that reaches the rungs reports `recovered`, and clears the budget, exactly when the first rung that ends
   the ladder does so by healing the modem; it reports `exhausted` exactly when no rung ends it.
   */
  lemma RecoveredExact(s: BudgetState, c: Config, request: Request)
    requires Reaches(s, c, request)
    ensures var r, scripts := RunOn(s, c, request), request.scripts;
            && (r.outcome.kind.Recovered? <==>
                  exists i: nat :: EndsFirst(c, LADDER_ORDER, scripts, i) && Heals(c, LADDER_ORDER[i], scripts(LADDER_ORDER[i])))
            && (r.outcome.kind.LadderExhausted? <==> forall i: nat :: !EndsFirst(c, LADDER_ORDER, scripts, i))
            && (r.outcome.kind.Recovered? <==> r.state == INITIAL)
  {
    var scripts := request.scripts;
    FirstEnding(c, LADDER_ORDER, scripts);
    if i: nat :| EndsFirst(c, LADDER_ORDER, scripts, i) {
      HealsExact(c, LADDER_ORDER[i], scripts(LADDER_ORDER[i]));
      assert forall k: nat :: EndsFirst(c, LADDER_ORDER, scripts, k) ==> k == i;
    }
  }

  lemma HealsExact(c: Config, r: Rung, script: Script)
    ensures Heals(c, r, script) <==> OneRung(c, r, script).ends == Some(Recovered)
    ensures OneRung(c, r, script).ends != Some(LadderExhausted)
  {
  }

  // ---------------------------------------------------------------- what a run does, rung by rung

  /** How disruptive a rung is. */
  function Severity(r: Rung): nat {
    match r
    case NmCycle => 0
    case MmCycle => 1
    case Reset => 2
    case PowerCycle => 3
  }

  /** The rung, if it is reached, keeps the ladder from going on. */
  predicate Halts(c: Config, r: Rung, script: Script) {
    && c.allowed(r)
    && (!script.interlock.Allow? || script.step.StepThrows? || (script.step.Applied? && !script.probe.Unhealthy?))
  }

  /** No milder rung keeps the ladder from coming to `r`. */
  ghost predicate ComesTo(c: Config, r: Rung, scripts: Rung -> Script) {
    forall q :: Severity(q) < Severity(r) ==> !Halts(c, q, scripts(q))
  }

  /** One more rung behind a ladder: it has its turn unless the ladder ended before. */
  function Later(before: RungResult, last: RungResult): RungResult {
    if before.ends.Some? then before
    else RungResult(last.ends, before.reports + last.reports, before.effects + last.effects)
  }

  lemma RungsNext(c: Config, front: seq<Rung>, r: Rung, scripts: Rung -> Script)
    ensures Rungs(c, front + [r], scripts) == Later(Rungs(c, front, scripts), OneRung(c, r, scripts(r)))
  {
    assert (front + [r])[..|front|] == front;
  }

  lemma LadderIs(c: Config, scripts: Rung -> Script)
    ensures Rungs(c, LADDER_ORDER, scripts)
         == Later(Later(Later(OneRung(c, NmCycle, scripts(NmCycle)), OneRung(c, MmCycle, scripts(MmCycle))),
                        OneRung(c, Reset, scripts(Reset))), OneRung(c, PowerCycle, scripts(PowerCycle)))
  {
    RungsNext(c, [], NmCycle, scripts);
    RungsNext(c, [NmCycle], MmCycle, scripts);
    RungsNext(c, [NmCycle, MmCycle], Reset, scripts);
    RungsNext(c, [NmCycle, MmCycle, Reset], PowerCycle, scripts);
    assert [] + [NmCycle] == [NmCycle] && [NmCycle] + [MmCycle] == [NmCycle, MmCycle];
    assert [NmCycle, MmCycle] + [Reset] == [NmCycle, MmCycle, Reset];
    assert [NmCycle, MmCycle, Reset] + [PowerCycle] == LADDER_ORDER;
    var first := OneRung(c, NmCycle, scripts(NmCycle));
    assert [] + first.reports == first.reports && [] + first.effects == first.effects;
  }

  /** What the outcome of a run that has come past rung `n`, or ended before, holds of rung `r`. */
  ghost predicate Covers(c: Config, scripts: Rung -> Script, o: RungResult, n: nat, r: Rung) {
    var came, script := ComesTo(c, r, scripts) && Severity(r) <= n, scripts(r);
    var let := came && c.allowed(r) && script.interlock.Allow?;
    && (AskInterlock(r) in o.effects <==> came && c.allowed(r))
    && (RunRung(r) in o.effects <==> let)
    && (ProbeHealth(r) in o.effects <==> let && script.step.Applied?)
    && (StepReport(r, StatusSkipped) in o.reports <==> came && !c.allowed(r))
    && (StepReport(r, StatusBlocked) in o.reports <==> came && c.allowed(r) && script.interlock.Block?)
    && (StepReport(r, StatusApplied) in o.reports <==> let && script.step.Applied?)
    && (StepReport(r, StatusUnsupported) in o.reports <==> let && script.step.Unsupported?)
    && (StepReport(r, StatusFailed) in o.reports <==> let && script.step.Failed?)
  }

  /** How a rung that is reached keeps the ladder from going on. */
  predicate Throws(c: Config, r: Rung, script: Script) {
    && c.allowed(r)
    && (script.interlock.InterlockThrows?
        || (script.interlock.Allow? && (script.step.StepThrows? || (script.step.Applied? && script.probe.ProbeThrows?))))
  }

  ghost predicate CoversAll(c: Config, scripts: Rung -> Script, o: RungResult, n: nat) {
    forall r :: Covers(c, scripts, o, n, r)
  }

  /** How a run ends that has come past rung `n`, or ended before. */
  ghost predicate EndsLike(c: Config, scripts: Rung -> Script, ends: Option<Kind>, n: nat) {
    && (ends.None? <==> forall r :: Severity(r) <= n ==> !Halts(c, r, scripts(r)))
    && (ends == Some(InterlockBlocked) <==>
          exists r :: Severity(r) <= n && ComesTo(c, r, scripts) && c.allowed(r) && scripts(r).interlock.Block?)
    && (ends == Some(RunThrew) <==> exists r :: Severity(r) <= n && ComesTo(c, r, scripts) && Throws(c, r, scripts(r)))
    && (ends == Some(Recovered) <==> exists r :: Severity(r) <= n && ComesTo(c, r, scripts) && Heals(c, r, scripts(r)))
  }

  ghost predicate Covered(c: Config, scripts: Rung -> Script, o: RungResult, n: nat) {
    CoversAll(c, scripts, o, n) && EndsLike(c, scripts, o.ends, n)
  }

  lemma FirstCovers(c: Config, scripts: Rung -> Script, r: Rung)
    ensures Covers(c, scripts, OneRung(c, NmCycle, scripts(NmCycle)), 0, r)
  {
    assert ComesTo(c, NmCycle, scripts);
    assert Severity(r) == 0 ==> r == NmCycle;
  }

  lemma OwnEnds(c: Config, r: Rung, script: Script)
    ensures var ends := OneRung(c, r, script).ends;
            && (ends.Some? <==> Halts(c, r, script))
            && (ends == Some(InterlockBlocked) <==> c.allowed(r) && script.interlock.Block?)
            && (ends == Some(RunThrew) <==> Throws(c, r, script))
            && (ends == Some(Recovered) <==> Heals(c, r, script))
  {
  }

  lemma FirstCovered(c: Config, scripts: Rung -> Script)
    ensures Covered(c, scripts, OneRung(c, NmCycle, scripts(NmCycle)), 0)
  {
    forall r ensures Covers(c, scripts, OneRung(c, NmCycle, scripts(NmCycle)), 0, r) {
      FirstCovers(c, scripts, r);
    }
    OwnEnds(c, NmCycle, scripts(NmCycle));
    assert ComesTo(c, NmCycle, scripts);
    assert forall r :: Severity(r) == 0 ==> r == NmCycle;
  }

  lemma NextCovered(c: Config, scripts: Rung -> Script, o: RungResult, r: Rung, n: nat, m: nat)
    requires Severity(r) == m == n + 1 && Covered(c, scripts, o, n)
    ensures Covered(c, scripts, Later(o, OneRung(c, r, scripts(r))), m)
  {
    var last := OneRung(c, r, scripts(r));
    assert ComesTo(c, r, scripts) <==> o.ends.None?;
    forall q ensures Covers(c, scripts, Later(o, last), m, q) {
      assert Covers(c, scripts, o, n, q);
      if q == r {
        OwnCovers(c, scripts, o, r, n);
      } else {
        OtherCovers(c, scripts, o, r, n, q);
      }
    }
    OwnEnds(c, r, scripts(r));
    NextEnds(c, scripts, o.ends, last.ends, r, n, m);
  }

  lemma OwnCovers(c: Config, scripts: Rung -> Script, o: RungResult, r: Rung, n: nat)
    requires Severity(r) == n + 1 && Covers(c, scripts, o, n, r) && (ComesTo(c, r, scripts) <==> o.ends.None?)
    ensures Covers(c, scripts, Later(o, OneRung(c, r, scripts(r))), n + 1, r)
  {
  }

  lemma OtherCovers(c: Config, scripts: Rung -> Script, o: RungResult, r: Rung, n: nat, q: Rung)
    requires Severity(r) == n + 1 && q != r && Covers(c, scripts, o, n, q)
    ensures Covers(c, scripts, Later(o, OneRung(c, r, scripts(r))), n + 1, q)
  {
    var last := OneRung(c, r, scripts(r));
    assert Severity(q) <= n <==> Severity(q) <= n + 1;
    assert forall e :: e in last.effects ==> e.rung == r;
    assert forall x :: x in last.reports ==> x.rung == r;
  }

  lemma NextEnds(c: Config, scripts: Rung -> Script, ends: Option<Kind>, last: Option<Kind>, r: Rung, n: nat, m: nat)
    requires Severity(r) == m == n + 1 && EndsLike(c, scripts, ends, n)
    requires ComesTo(c, r, scripts) <==> ends.None?
    requires last.Some? <==> Halts(c, r, scripts(r))
    requires last == Some(InterlockBlocked) <==> c.allowed(r) && scripts(r).interlock.Block?
    requires last == Some(RunThrew) <==> Throws(c, r, scripts(r))
    requires last == Some(Recovered) <==> Heals(c, r, scripts(r))
    ensures EndsLike(c, scripts, if ends.Some? then ends else last, m)
  {
    assert forall q :: Severity(q) <= m <==> Severity(q) <= n || q == r;
  }

  /**
   A run that reaches the rungs works through them from the mildest to the most disruptive. It asks a rung's interlock
   exactly when the rung is allowed and no milder one ended the run, runs it exactly when the interlock then allows
   it, looks at the modem's health exactly when it was applied, and reports of each rung just that. It ends blocked,
   throws or recovers exactly as the first rung that ends it does.
   */
  lemma RungsExact(s: BudgetState, c: Config, request: Request)
    requires Reaches(s, c, request)
    ensures var o := RunOn(s, c, request).outcome;
            Covered(c, request.scripts, RungResult(if o.kind.LadderExhausted? then None else Some(o.kind), o.steps, o.effects), 3)
  {
    var scripts := request.scripts;
    LadderIs(c, scripts);
    var a := OneRung(c, NmCycle, scripts(NmCycle));
    var b := Later(a, OneRung(c, MmCycle, scripts(MmCycle)));
    var d := Later(b, OneRung(c, Reset, scripts(Reset)));
    FirstCovered(c, scripts);
    NextCovered(c, scripts, a, MmCycle, 0, 1);
    NextCovered(c, scripts, b, Reset, 1, 2);
    NextCovered(c, scripts, d, PowerCycle, 2, 3);
    RungKinds(c, LADDER_ORDER, scripts);
  }

  lemma OwnRung(c: Config, r: Rung, script: Script)
    ensures forall e :: e in OneRung(c, r, script).effects ==> e.rung == r
  {
  }

  ghost predicate MildestFirst(effects: seq<Effect>) {
    forall i, j :: 0 <= i < j < |effects| ==> Severity(effects[i].rung) <= Severity(effects[j].rung)
  }

  lemma MildLater(o: RungResult, last: RungResult, r: Rung)
    requires MildestFirst(o.effects) && (forall e :: e in o.effects ==> Severity(e.rung) <= Severity(r))
    requires forall e :: e in last.effects ==> e.rung == r
    ensures MildestFirst(Later(o, last).effects)
    ensures forall e :: e in Later(o, last).effects ==> Severity(e.rung) <= Severity(r)
  {
  }

  /** No run calls a milder rung, its interlock or its probe after a more disruptive one. */
  lemma MildFirst(s: BudgetState, c: Config, request: Request)
    ensures MildestFirst(RunOn(s, c, request).outcome.effects)
  {
    var scripts := request.scripts;
    LadderIs(c, scripts);
    forall r {
      OwnRung(c, r, scripts(r));
    }
    var a := OneRung(c, NmCycle, scripts(NmCycle));
    var b := Later(a, OneRung(c, MmCycle, scripts(MmCycle)));
    var d := Later(b, OneRung(c, Reset, scripts(Reset)));
    MildLater(a, OneRung(c, MmCycle, scripts(MmCycle)), MmCycle);
    MildLater(b, OneRung(c, Reset, scripts(Reset)), Reset);
    MildLater(d, OneRung(c, PowerCycle, scripts(PowerCycle)), PowerCycle);
  }

  // ---------------------------------------------------------------- many runs of one modem

  datatype Event = DoRun(request: Request) | Clear

  function After(s: BudgetState, c: Config, e: Event): BudgetState {
    match e
    case DoRun(request) => RunOn(s, c, request).state
    case Clear => INITIAL
  }

  /** The budget state in which event number `i` happens. */
  function At(c: Config, events: seq<Event>, i: nat): BudgetState
    requires i <= |events|
  {
    if i == 0 then INITIAL else After(At(c, events, i - 1), c, events[i - 1])
  }

  predicate ReachesAt(c: Config, events: seq<Event>, i: nat)
    requires i < |events|
  {
    events[i].DoRun? && Reaches(At(c, events, i), c, events[i].request)
  }

  /** The event resets the budget: an operator's `clear`, or a run that recovered the modem. */
  predicate Resets(c: Config, events: seq<Event>, i: nat)
    requires i < |events|
  {
    events[i].Clear? || RunOn(At(c, events, i), c, events[i].request).outcome.kind.Recovered?
  }

  function EffectsAt(c: Config, events: seq<Event>, i: nat): seq<Effect>
    requires i < |events|
  {
    if events[i].DoRun? then RunOn(At(c, events, i), c, events[i].request).outcome.effects else []
  }

  /** How many runs from event `i` up to, and without, event `j` reached the rungs. */
  function Reached(c: Config, events: seq<Event>, i: nat, j: nat): nat
    requires i <= j <= |events|
  {
    if j == i then 0 else Reached(c, events, i, j - 1) + (if ReachesAt(c, events, j - 1) then 1 else 0)
  }

  function RungsRun(c: Config, events: seq<Event>, i: nat, j: nat): nat
    requires i <= j <= |events|
  {
    if j == i then 0 else RungsRun(c, events, i, j - 1) + RungCount(EffectsAt(c, events, j - 1))
  }

  ghost predicate NoReset(c: Config, events: seq<Event>, i: nat, j: nat)
    requires i <= j <= |events|
  {
    forall k :: i <= k < j ==> !Resets(c, events, k)
  }

  function Cap(c: Config): nat {
    if c.budget.maxAttempts > 0 then c.budget.maxAttempts else 0
  }

  lemma StepCounts(s: BudgetState, c: Config, e: Event)
    requires s.attempts <= Cap(c)
    ensures After(s, c, e).attempts <= Cap(c)
    ensures !e.Clear? && !RunOn(s, c, e.request).outcome.kind.Recovered? ==>
              After(s, c, e).attempts == s.attempts + if Reaches(s, c, e.request) then 1 else 0
    ensures e.DoRun? && Reaches(s, c, e.request) ==> s.attempts < Cap(c)
  {
  }

  lemma {:induction false} AttemptsCapped(c: Config, events: seq<Event>, i: nat)
    requires i <= |events|
    ensures At(c, events, i).attempts <= Cap(c)
  {
    if i > 0 {
      AttemptsCapped(c, events, i - 1);
      StepCounts(At(c, events, i - 1), c, events[i - 1]);
    }
  }

  lemma {:induction false} AttemptsCount(c: Config, events: seq<Event>, i: nat, j: nat)
    requires i <= j <= |events| && NoReset(c, events, i, j)
    ensures At(c, events, j).attempts == At(c, events, i).attempts + Reached(c, events, i, j)
    decreases j
  {
    if i < j {
      AttemptsCount(c, events, i, j - 1);
      AttemptsCapped(c, events, j - 1);
      assert !Resets(c, events, j - 1);
      StepCounts(At(c, events, j - 1), c, events[j - 1]);
    }
  }

  lemma {:induction false} RungsPerRun(c: Config, events: seq<Event>, i: nat, j: nat)
    requires i <= j <= |events|
    ensures RungsRun(c, events, i, j) <= 4 * Reached(c, events, i, j)
    decreases j
  {
    if i < j {
      RungsPerRun(c, events, i, j - 1);
      if events[j - 1].DoRun? {
        RunEffects(At(c, events, j - 1), c, events[j - 1].request);
      }
    }
  }

  /**
   Bounded recovery. Over any events, whatever their `now`: between two resets, the resetting run itself
   included, at most `maxAttempts` runs reach a rung and at most four times as many rungs run.
   */
  lemma BoundedRecovery(c: Config, events: seq<Event>, i: nat, j: nat)
    requires i < j <= |events| && NoReset(c, events, i, j - 1)
    ensures Reached(c, events, i, j) <= Cap(c)
    ensures RungsRun(c, events, i, j) <= 4 * Cap(c)
  {
    AttemptsCount(c, events, i, j - 1);
    AttemptsCapped(c, events, j - 1);
    if events[j - 1].DoRun? {
      StepCounts(At(c, events, j - 1), c, events[j - 1]);
    }
    RungsPerRun(c, events, i, j);
  }

  /** The last attempt is remembered until a reset. */
  lemma {:induction false} LastAttempt(c: Config, events: seq<Event>, i: nat, j: nat)
    requires i < j <= |events| && ReachesAt(c, events, i)
    requires NoReset(c, events, i, j) && forall k :: i < k < j ==> !ReachesAt(c, events, k)
    ensures At(c, events, j).lastAttemptAt == Some(events[i].request.now)
    decreases j
  {
    assert !Resets(c, events, j - 1);
    if j > i + 1 {
      LastAttempt(c, events, i, j - 1);
      assert !ReachesAt(c, events, j - 1);
    }
  }

  /** Two consecutive runs that reach the rungs, with no reset from the first on, are at least `cooldownMs` apart. */
  lemma SpacedRecovery(c: Config, events: seq<Event>, i: nat, j: nat)
    requires i < j < |events| && ReachesAt(c, events, i) && ReachesAt(c, events, j)
    requires NoReset(c, events, i, j) && forall k :: i < k < j ==> !ReachesAt(c, events, k)
    ensures events[j].request.now - events[i].request.now >= c.budget.cooldownMs
  {
    LastAttempt(c, events, i, j);
  }

  /** Once latched `degraded`, no run calls anything outside until an explicit `clear`. */
  lemma {:induction false} DegradedIsFinal(c: Config, events: seq<Event>, i: nat, j: nat)
    requires i <= j < |events| && At(c, events, i).degraded
    requires forall k :: i <= k < j ==> !events[k].Clear?
    ensures At(c, events, j).degraded && EffectsAt(c, events, j) == []
    decreases j
  {
    if i < j {
      DegradedIsFinal(c, events, i, j - 1);
      assert !events[j - 1].Clear?;
    }
  }

  /** The most recent run that reached the rungs in `[i, j)` started less than a cooldown before `now`. */
  ghost predicate TooSoon(c: Config, events: seq<Event>, i: nat, j: nat, now: int)
    requires i <= j <= |events|
  {
    exists k :: i <= k < j && ReachesAt(c, events, k) && (forall l :: k < l < j ==> !ReachesAt(c, events, l))
                && now - events[k].request.now < c.budget.cooldownMs
  }

  lemma {:induction false} NoAttemptYet(c: Config, events: seq<Event>, i: nat, j: nat)
    requires i <= j <= |events| && At(c, events, i) == INITIAL && NoReset(c, events, i, j)
    requires forall k :: i <= k < j ==> !ReachesAt(c, events, k)
    ensures At(c, events, j).lastAttemptAt.None?
    decreases j
  {
    if i < j {
      NoAttemptYet(c, events, i, j - 1);
      assert !Resets(c, events, j - 1) && !ReachesAt(c, events, j - 1);
    }
  }

  lemma {:induction false} LatestReach(c: Config, events: seq<Event>, i: nat, j: nat) returns (k: int)
    requires i <= j <= |events|
    ensures i - 1 <= k < j && (k >= i ==> ReachesAt(c, events, k))
    ensures forall l :: i <= l < j && k < l ==> !ReachesAt(c, events, l)
    decreases j
  {
    if i == j {
      return i - 1;
    }
    if ReachesAt(c, events, j - 1) {
      return j - 1;
    }
    k := LatestReach(c, events, i, j - 1);
  }

  /** The budget state is the count of runs since the reset, and the time of the latest. */
  lemma SinceReset(c: Config, events: seq<Event>, i: nat, j: nat, now: int)
    requires i <= j <= |events| && At(c, events, i) == INITIAL && NoReset(c, events, i, j)
    ensures At(c, events, j).attempts == Reached(c, events, i, j)
    ensures TooSoon(c, events, i, j, now) <==>
            At(c, events, j).lastAttemptAt.Some? && now - At(c, events, j).lastAttemptAt.value < c.budget.cooldownMs
  {
    AttemptsCount(c, events, i, j);
    var k := LatestReach(c, events, i, j);
    if k < i {
      NoAttemptYet(c, events, i, j);
    } else {
      LastAttempt(c, events, k, j);
    }
  }

  /**
   Counting from a reset, a run reaches the rungs exactly when policy and attribution allow it, the latch is
   open, fewer than `maxAttempts` runs have reached them and the latest of these is a cooldown ago.
   */
  lemma ReachesExact(c: Config, events: seq<Event>, i: nat, j: nat)
    requires i <= j < |events| && events[j].DoRun? && At(c, events, i) == INITIAL && NoReset(c, events, i, j)
    ensures ReachesAt(c, events, j) <==>
            && events[j].request.enabled && events[j].request.modemFault && !At(c, events, j).degraded
            && Reached(c, events, i, j) < c.budget.maxAttempts
            && !TooSoon(c, events, i, j, events[j].request.now)
  {
    SinceReset(c, events, i, j, events[j].request.now);
  }

  /** The latch closes exactly in a run that is due but finds all `maxAttempts` spent since the last reset. */
  lemma LatchesExact(c: Config, events: seq<Event>, i: nat, j: nat)
    requires i <= j < |events| && events[j].DoRun? && At(c, events, i) == INITIAL && NoReset(c, events, i, j)
    requires !At(c, events, j).degraded
    ensures At(c, events, j + 1).degraded <==>
            && events[j].request.enabled && events[j].request.modemFault
            && Reached(c, events, i, j) >= c.budget.maxAttempts && !TooSoon(c, events, i, j, events[j].request.now)
  {
    SinceReset(c, events, i, j, events[j].request.now);
  }

  /** A run that calls nothing says why: policy, attribution, the latch or the spent budget, or the cooldown. */
  lemma RefusalExact(c: Config, events: seq<Event>, i: nat, j: nat)
    requires i <= j < |events| && events[j].DoRun? && At(c, events, i) == INITIAL && NoReset(c, events, i, j)
    ensures var request, kind := events[j].request, RunOn(At(c, events, j), c, events[j].request).outcome.kind;
            var due := request.enabled && request.modemFault;
            && (kind.Disabled? <==> !request.enabled)
            && (kind.NotAttributed? <==> request.enabled && !request.modemFault)
            && (kind.CoolingDown? <==> due && !At(c, events, j).degraded && TooSoon(c, events, i, j, request.now))
            && (kind.LoopStopped? <==>
                  due && (At(c, events, j).degraded
                          || (Reached(c, events, i, j) >= c.budget.maxAttempts && !TooSoon(c, events, i, j, request.now))))
  {
    SinceReset(c, events, i, j, events[j].request.now);
    RungKinds(c, LADDER_ORDER, events[j].request.scripts);
    GateKinds(At(c, events, j), c, events[j].request);
  }

  lemma GateKinds(s: BudgetState, c: Config, request: Request)
    requires var ends := Rungs(c, LADDER_ORDER, request.scripts).ends;
             ends.Some? ==> ends.value.InterlockBlocked? || ends.value.Recovered? || ends.value.RunThrew?
    ensures var kind, due := RunOn(s, c, request).outcome.kind, request.enabled && request.modemFault;
            var early := s.lastAttemptAt.Some? && request.now - s.lastAttemptAt.value < c.budget.cooldownMs;
            && (kind.Disabled? <==> !request.enabled)
            && (kind.NotAttributed? <==> request.enabled && !request.modemFault)
            && (kind.CoolingDown? <==> due && !s.degraded && early)
            && (kind.LoopStopped? <==> due && (s.degraded || (s.attempts >= c.budget.maxAttempts && !early)))
  {
  }

  lemma {:induction false} RungKinds(c: Config, rungs: seq<Rung>, scripts: Rung -> Script)
    ensures var ends := Rungs(c, rungs, scripts).ends;
            ends.Some? ==> ends.value.InterlockBlocked? || ends.value.Recovered? || ends.value.RunThrew?
  {
    if rungs != [] {
      RungKinds(c, rungs[..|rungs| - 1], scripts);
    }
  }

  // ---------------------------------------------------------------- the ladder object

  class RecoveryLadder {
    const config: Config
    var states: map<string, BudgetState>
    /** Every call made to the outside, oldest first. */
    var effects: seq<Effect>

    constructor (config: Config)
      ensures this.config == config && states == map[] && effects == []
    {
      this.config := config;
      states := map[];
      effects := [];
    }

    function BudgetStateFor(stableKey: string): BudgetState
      reads this
    {
      if stableKey in states then states[stableKey] else INITIAL
    }

    method ClearState(stableKey: string)
      modifies this`states
      ensures BudgetStateFor(stableKey) == INITIAL
      ensures forall k :: k != stableKey ==> BudgetStateFor(k) == old(BudgetStateFor(k))
    {
      states := states - {stableKey};
    }

    method Run(stableKey: string, request: Request) returns (r: Outcome, degraded: bool)
      modifies this
      ensures RunResult(BudgetStateFor(stableKey), r) == RunOn(old(BudgetStateFor(stableKey)), config, request)
      ensures effects == old(effects) + r.effects
      ensures degraded == BudgetStateFor(stableKey).degraded
      ensures forall k :: k != stableKey ==> BudgetStateFor(k) == old(BudgetStateFor(k))
    {
      if !request.enabled {
        return Outcome(Disabled, [], []), BudgetStateFor(stableKey).degraded;
      }
      if !request.modemFault {
        return Outcome(NotAttributed, [], []), BudgetStateFor(stableKey).degraded;
      }
      var decision := BeginAttempt(BudgetStateFor(stableKey), config.budget, request.now);
      if decision.LoopStop? {
        states := states[stableKey := decision.state];
        return Outcome(LoopStopped, [], []), BudgetStateFor(stableKey).degraded;
      }
      if decision.Cooldown? {
        return Outcome(CoolingDown, [], []), BudgetStateFor(stableKey).degraded;
      }
      states := states[stableKey := decision.state];
      r := RunRungs(request);
      if r.kind.Recovered? {
        states := states[stableKey := INITIAL];
      }
      degraded := BudgetStateFor(stableKey).degraded;
    }

    method RunRungs(request: Request) returns (r: Outcome)
      modifies this`effects
      ensures var rungs := Rungs(config, LADDER_ORDER, request.scripts);
              r == Outcome(if rungs.ends.Some? then rungs.ends.value else LadderExhausted, rungs.reports, rungs.effects)
      ensures effects == old(effects) + r.effects
    {
      var steps: seq<StepReport> := [];
      var calls: seq<Effect> := [];
      for i := 0 to |LADDER_ORDER|
        invariant Rungs(config, LADDER_ORDER[..i], request.scripts) == RungResult(None, steps, calls)
        invariant effects == old(effects)
      {
        var rung := LADDER_ORDER[i];
        assert LADDER_ORDER[..i + 1][..i] == LADDER_ORDER[..i];
        var result := OneRung(config, rung, request.scripts(rung));
        steps := steps + result.reports;
        calls := calls + result.effects;
        if result.ends.Some? {
          StopsHere(config, LADDER_ORDER, i + 1, request.scripts);
          effects := effects + calls;
          return Outcome(result.ends.value, steps, calls);
        }
      }
      assert LADDER_ORDER[..|LADDER_ORDER|] == LADDER_ORDER;
      effects := effects + calls;
      r := Outcome(LadderExhausted, steps, calls);
    }
  }

  /** A rung that ends the ladder is the last thing it does. */
  lemma {:induction false} StopsHere(c: Config, rungs: seq<Rung>, i: nat, scripts: Rung -> Script)
    requires i <= |rungs| && Rungs(c, rungs[..i], scripts).ends.Some?
    ensures Rungs(c, rungs, scripts) == Rungs(c, rungs[..i], scripts)
    decreases |rungs|
  {
    if i == |rungs| {
      assert rungs[..i] == rungs;
    } else {
      assert rungs[..|rungs| - 1][..i] == rungs[..i];
      StopsHere(c, rungs[..|rungs| - 1], i, scripts);
    }
  }
}
