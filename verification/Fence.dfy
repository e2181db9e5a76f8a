/** The mutation fence: what an unknown outcome of a write keeps from happening. */
module Fence {
  import opened Wrappers
  import opened Operation
  import opened Engine
  import opened System

  // ---------------------------------------------------------------- events of a run

  /** In this step a call with a write impact on `m` calls its provider. */
  predicate Executes(s: State, a: Action, m: ModemId) {
    exists c :: 0 <= c < |Step(s, a).calls| && Step(s, a).calls[c].IsWrite() && Step(s, a).calls[c].Modem() == m
                && Step(s, a).calls[c].pc.Executing?
                && (c >= |s.calls| || s.calls[c].pc != Step(s, a).calls[c].pc)
  }

  /** In this step a write on `m` of the running session ends in an unknown outcome. */
  predicate EndsUnknown(s: State, a: Action, m: ModemId) {
    exists c :: 0 <= c < |s.calls| && Live(s, c) && s.calls[c].IsWrite() && s.calls[c].Modem() == m
                && s.calls[c].verdict.None? && Step(s, a).calls[c].verdict.Some?
                && Step(s, a).calls[c].verdict.value.RequiresReconciliation()
                && !a.Die?
  }

  /** In this step a reconciliation of `m` succeeds, in the generation it was asked for. */
  predicate Reconciles(s: State, a: Action, m: ModemId) {
    && a.EndRun? && Enabled(s, a) && s.calls[a.call].Modem() == m
    && a.end.RunReconciled? && s.calls[a.call].job.requested == GenerationOf(s, m)
  }

  // ---------------------------------------------------------------- the fence

  /** Past its gate check, and not yet at its provider. */
  predicate PastGate(call: Call) {
    call.pc.Checking? || call.pc.Admitting? || call.pc.JournalingStart?
  }

  /** The gate is closed and no write is on its way through it. */
  ghost predicate Fenced(s: State, m: ModemId) {
    && m in s.gate
    && forall c :: 0 <= c < |s.calls| && Live(s, c) && s.calls[c].IsWrite() && s.calls[c].Modem() == m ==>
         !PastGate(s.calls[c])
  }

  /** The call a step moves; `|calls|` when it moves none that was there before. */
  function Mover(s: State, a: Action): nat {
    match a
    case StartTask(c) => c
    case Answer(c, _, _) => c
    case EndRun(c, _) => c
    case WriteHead => if s.appends == [] then |s.calls| else s.appends[0]
    case FailHead(_) => if s.appends == [] then |s.calls| else s.appends[0]
    case _ => |s.calls|
  }

  lemma OnlyMoverMoves(s: State, a: Action, d: nat)
    requires d < |s.calls|
    ensures var t := Step(s, a);
            && d < |t.calls| && t.calls[d].job == s.calls[d].job && t.calls[d].session == s.calls[d].session
            && (d != Mover(s, a) ==> t.calls[d] == s.calls[d])
  {
  }

  lemma NewCall(s: State, a: Action, d: nat)
    requires |s.calls| <= d < |Step(s, a).calls|
    ensures d == |s.calls| && a.Submit? && (Step(s, a).calls[d].IsWrite() ==> Step(s, a).calls[d].pc.Queued?)
  {
  }

  /** Only a successful reconciliation, or the end of the process, reopens a gate. */
  lemma GateReopens(s: State, a: Action, m: ModemId)
    requires m in s.gate && m !in Step(s, a).gate
    ensures a.Die? || Reconciles(s, a, m)
  {
  }

  /** A write gets past the gate check only while the gate is open. */
  lemma PassesGate(s: State, a: Action, c: nat)
    requires c < |s.calls| && s.calls[c].IsWrite()
    requires !PastGate(s.calls[c]) && PastGate(Step(s, a).calls[c])
    ensures a == StartTask(c) && s.calls[c].Modem() !in s.gate
  {
    OnlyMoverMoves(s, a, c);
  }

  /** A write that calls its provider was past the gate check before. */
  lemma ExecutesFrom(s: State, a: Action, c: nat)
    requires c < |s.calls| && s.calls[c].IsWrite()
    requires Step(s, a).calls[c].pc.Executing? && s.calls[c].pc != Step(s, a).calls[c].pc
    ensures PastGate(s.calls[c]) && Live(s, c) && !a.Die?
  {
    OnlyMoverMoves(s, a, c);
  }

  /** A verdict is reached by a call of the running session that is being answered. */
  lemma VerdictFrom(s: State, a: Action, c: nat)
    requires c < |s.calls| && s.calls[c].verdict.None? && Step(s, a).calls[c].verdict.Some?
    ensures Enabled(s, a) && a.Answer? && a.call == c && s.calls[c].Active()
    ensures !PastGate(Step(s, a).calls[c])
    ensures Step(s, a).calls[c].verdict.value.RequiresReconciliation() ==> s.calls[c].Modem() in Step(s, a).gate
  {
    OnlyMoverMoves(s, a, c);
  }

  /** A write is alone in its modem's actor when it ends, so nothing slips through as the gate closes. */
  lemma UnknownFences(s: State, a: Action, m: ModemId)
    requires Serial(s) && EndsUnknown(s, a, m)
    ensures Fenced(Step(s, a), m)
  {
    var t := Step(s, a);
    var c :| 0 <= c < |s.calls| && Live(s, c) && s.calls[c].IsWrite() && s.calls[c].Modem() == m
             && s.calls[c].verdict.None? && t.calls[c].verdict.Some? && t.calls[c].verdict.value.RequiresReconciliation();
    VerdictFrom(s, a, c);
    forall d | 0 <= d < |t.calls| && Live(t, d) && t.calls[d].IsWrite() && t.calls[d].Modem() == m
      ensures !PastGate(t.calls[d])
    {
      assert |t.calls| == |s.calls|;
      if d != c && PastGate(t.calls[d]) {
        OnlyMoverMoves(s, a, d);
        assert SameQueue(s, c, d);
        OneActive(s, c, d);
      }
    }
  }

  /** Once fenced, a modem stays fenced until a reconciliation of it succeeds. */
  lemma FenceHolds(s: State, a: Action, m: ModemId)
    requires Fenced(s, m) && !Reconciles(s, a, m) && !a.Die?
    ensures Fenced(Step(s, a), m)
  {
    var t := Step(s, a);
    if m !in t.gate {
      GateReopens(s, a, m);
    }
    forall c | 0 <= c < |t.calls| && Live(t, c) && t.calls[c].IsWrite() && t.calls[c].Modem() == m
      ensures !PastGate(t.calls[c])
    {
      if c >= |s.calls| {
        NewCall(s, a, c);
      } else if PastGate(t.calls[c]) {
        OnlyMoverMoves(s, a, c);
        assert t.session == s.session;
        PassesGate(s, a, c);
      }
    }
  }

  /** While a modem is fenced, no write on it calls its provider. */
  lemma FenceStops(s: State, a: Action, m: ModemId)
    requires Fenced(s, m)
    ensures !Executes(s, a, m)
  {
    var t := Step(s, a);
    if Executes(s, a, m) {
      var c :| 0 <= c < |t.calls| && t.calls[c].IsWrite() && t.calls[c].Modem() == m && t.calls[c].pc.Executing?
               && (c >= |s.calls| || s.calls[c].pc != t.calls[c].pc);
      if c >= |s.calls| {
        NewCall(s, a, c);
      } else {
        OnlyMoverMoves(s, a, c);
        ExecutesFrom(s, a, c);
      }
    }
  }

  // ---------------------------------------------------------------- over whole runs

  /**
   In every run: between a step in which a write ends in an unknown outcome and a later step in which
   a write on the same modem calls its provider, a reconciliation of that modem succeeded, or the
   process ended.
   */
  lemma {:induction false} MutationFence(file: Option<string>, actions: seq<Action>, m: ModemId, i: nat, j: nat)
    requires i < j < |actions|
    requires EndsUnknown(At(file, actions, i), actions[i], m)
    requires Executes(At(file, actions, j), actions[j], m)
    ensures exists k :: i < k < j && (Reconciles(At(file, actions, k), actions[k], m) || actions[k].Die?)
  {
    if forall k :: i < k < j ==> !Reconciles(At(file, actions, k), actions[k], m) && !actions[k].Die? {
      FencedAfter(file, actions, m, i);
      StaysFenced(file, actions, m, i + 1, j);
      FenceStops(At(file, actions, j), actions[j], m);
    }
  }

  lemma FencedAfter(file: Option<string>, actions: seq<Action>, m: ModemId, i: nat)
    requires i < |actions| && EndsUnknown(At(file, actions, i), actions[i], m)
    ensures Fenced(At(file, actions, i + 1), m)
  {
    AtNext(file, actions, i);
    RunKeepsSerial(file, actions[..i]);
    UnknownFences(At(file, actions, i), actions[i], m);
  }

  ghost predicate FencedAt(file: Option<string>, actions: seq<Action>, m: ModemId, k: nat) {
    k <= |actions| && Fenced(At(file, actions, k), m)
  }

  /** Action number `k` neither reconciles the modem nor ends the process. */
  predicate LeavesFence(file: Option<string>, actions: seq<Action>, m: ModemId, k: nat) {
    k < |actions| && !Reconciles(At(file, actions, k), actions[k], m) && !actions[k].Die?
  }

  lemma FencedOn(file: Option<string>, actions: seq<Action>, m: ModemId, k: nat)
    requires FencedAt(file, actions, m, k) && LeavesFence(file, actions, m, k)
    ensures FencedAt(file, actions, m, k + 1)
  {
    AtNext(file, actions, k);
    FenceHolds(At(file, actions, k), actions[k], m);
  }

  lemma {:induction false} StaysFenced(file: Option<string>, actions: seq<Action>, m: ModemId, i: nat, j: nat)
    requires i <= j <= |actions| && FencedAt(file, actions, m, i)
    requires forall k: nat :: i <= k < j ==> LeavesFence(file, actions, m, k)
    ensures FencedAt(file, actions, m, j)
    decreases j
  {
    if i < j {
      StaysFenced(file, actions, m, i, j - 1);
      FencedOn(file, actions, m, j - 1);
    }
  }
}
