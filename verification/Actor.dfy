/**
 The shared per-modem actor (`backend/modem-actor.ts`): one chain of promises per key.

 A task is named by its position in the order of `run` calls, and so is the `settled` promise the
 actor keeps for it. The run time may interleave the steps of different promises in any order.
 */
module Actor {
  import opened Wrappers

  type Key = string

  /**
   `Settled`: the task's own promise has resolved or rejected. `Drained`: so has the promise that
   swallows its error, which is what the next task waits for. `Cleaned`: the clean-up has run.
   */
  datatype Phase = Queued | Running | Settled | Drained | Cleaned

  datatype Task = Task(key: Key, prior: Option<nat>, phase: Phase)

  datatype State = State(tails: map<Key, nat>, tasks: seq<Task>)

  datatype Action =
    | Submit(key: Key)
    | Start(task: nat)
    | Settle(task: nat, rejected: bool)
    | Drain(task: nat)
    | Cleanup(task: nat)

  const INITIAL := State(map[], [])

  predicate Finished(t: Task) {
    t.phase.Drained? || t.phase.Cleaned?
  }

  predicate Enabled(s: State, a: Action) {
    match a
    case Submit(_) => true
    case Start(i) =>
      && i < |s.tasks| && s.tasks[i].phase.Queued?
      && (s.tasks[i].prior.Some? ==>
            s.tasks[i].prior.value < |s.tasks| && Finished(s.tasks[s.tasks[i].prior.value]))
    case Settle(i, _) => i < |s.tasks| && s.tasks[i].phase.Running?
    case Drain(i) => i < |s.tasks| && s.tasks[i].phase.Settled?
    case Cleanup(i) => i < |s.tasks| && s.tasks[i].phase.Drained?
  }

  function WithPhase(s: State, i: nat, p: Phase): State
    requires i < |s.tasks|
  {
    s.(tasks := s.tasks[i := s.tasks[i].(phase := p)])
  }

  function Effect(s: State, a: Action): State
    requires Enabled(s, a)
  {
    match a
    case Submit(key) =>
      var prior := if key in s.tails then Some(s.tails[key]) else None;
      State(s.tails[key := |s.tasks|], s.tasks + [Task(key, prior, Queued)])
    case Start(i) => WithPhase(s, i, Running)
    case Settle(i, _) => WithPhase(s, i, Settled)
    case Drain(i) => WithPhase(s, i, Drained)
    case Cleanup(i) =>
      var key := s.tasks[i].key;
      var t := WithPhase(s, i, Cleaned);
      if key in s.tails && s.tails[key] == i then t.(tails := s.tails - {key}) else t
  }

  /** A disabled action does nothing, so every sequence of actions is a run. */
  function Step(s: State, a: Action): State {
    if Enabled(s, a) then Effect(s, a) else s
  }

  function Run(s: State, actions: seq<Action>): State {
    if actions == [] then s else Step(Run(s, actions[..|actions| - 1]), actions[|actions| - 1])
  }

  // ---------------------------------------------------------------- the invariant

  /** `tails` names the last task of each key that is not cleaned up. */
  ghost predicate TailsAreLast(s: State) {
    forall k :: k in s.tails ==>
      && s.tails[k] < |s.tasks| && s.tasks[s.tails[k]].key == k && !s.tasks[s.tails[k]].phase.Cleaned?
      && forall i :: s.tails[k] < i < |s.tasks| ==> s.tasks[i].key != k
  }

  /** A key that is missing from `tails` has no unsettled task. */
  ghost predicate MissingIsIdle(s: State) {
    forall i :: 0 <= i < |s.tasks| && s.tasks[i].key !in s.tails ==> Finished(s.tasks[i])
  }

  /** A task waits for its predecessor of the same key, unless everything before it had drained. */
  ghost predicate PriorsArePrevious(s: State) {
    forall i :: 0 <= i < |s.tasks| ==>
      match s.tasks[i].prior
      case Some(p) =>
        && p < i && s.tasks[p].key == s.tasks[i].key
        && (forall j :: p < j < i ==> s.tasks[j].key != s.tasks[i].key)
      case None => forall j :: 0 <= j < i && s.tasks[j].key == s.tasks[i].key ==> Finished(s.tasks[j])
  }

  /** Nothing of a key starts before everything earlier of that key has drained. */
  ghost predicate InOrder(s: State) {
    forall i, j :: 0 <= i < j < |s.tasks| && s.tasks[i].key == s.tasks[j].key && !s.tasks[j].phase.Queued? ==>
      Finished(s.tasks[i])
  }

  ghost predicate Inv(s: State) {
    TailsAreLast(s) && MissingIsIdle(s) && PriorsArePrevious(s) && InOrder(s)
  }

  lemma SubmitKeepsTails(s: State, key: Key)
    requires TailsAreLast(s)
    ensures TailsAreLast(Effect(s, Submit(key)))
  {
    var t := Effect(s, Submit(key));
    forall k | k in t.tails ensures forall i :: t.tails[k] < i < |t.tasks| ==> t.tasks[i].key != k {
      if k != key {
        assert k in s.tails;
      }
    }
  }

  lemma SubmitKeepsInv(s: State, key: Key)
    requires Inv(s)
    ensures Inv(Effect(s, Submit(key)))
  {
    SubmitKeepsTails(s, key);
    var t := Effect(s, Submit(key));
    assert forall i :: 0 <= i < |s.tasks| ==> t.tasks[i] == s.tasks[i];
  }

  lemma StartKeepsInv(s: State, i: nat)
    requires Inv(s) && Enabled(s, Start(i))
    ensures Inv(Effect(s, Start(i)))
  {
    var t := Effect(s, Start(i));
    StartExact(s, i);
    assert forall j :: 0 <= j < |s.tasks| && j != i ==> t.tasks[j] == s.tasks[j];
    assert forall j :: 0 <= j < |s.tasks| ==> t.tasks[j].key == s.tasks[j].key && t.tasks[j].prior == s.tasks[j].prior;
    assert forall j :: 0 <= j < |s.tasks| ==> (Finished(t.tasks[j]) <==> Finished(s.tasks[j]));
  }

  /** Same tasks, none newly started, none less finished. */
  ghost predicate Advanced(s: State, t: State) {
    && |t.tasks| == |s.tasks|
    && forall j :: 0 <= j < |s.tasks| ==>
         && t.tasks[j].key == s.tasks[j].key && t.tasks[j].prior == s.tasks[j].prior
         && (t.tasks[j].phase.Queued? <==> s.tasks[j].phase.Queued?)
         && (Finished(s.tasks[j]) ==> Finished(t.tasks[j]))
  }

  lemma AdvancedKeepsOrder(s: State, t: State)
    requires PriorsArePrevious(s) && InOrder(s) && Advanced(s, t)
    ensures PriorsArePrevious(t) && InOrder(t)
  {
    forall i | 0 <= i < |t.tasks|
      ensures match t.tasks[i].prior
              case Some(p) =>
                && p < i && t.tasks[p].key == t.tasks[i].key
                && (forall j :: p < j < i ==> t.tasks[j].key != t.tasks[i].key)
              case None => forall j :: 0 <= j < i && t.tasks[j].key == t.tasks[i].key ==> Finished(t.tasks[j])
    {
      assert t.tasks[i].prior == s.tasks[i].prior;
    }
  }

  lemma AdvanceKeepsInv(s: State, a: Action)
    requires Inv(s) && Enabled(s, a) && (a.Settle? || a.Drain?)
    ensures Inv(Effect(s, a))
  {
    var t := Effect(s, a);
    assert Advanced(s, t);
    AdvancedKeepsOrder(s, t);
  }

  lemma CleanupKeepsInv(s: State, i: nat)
    requires Inv(s) && Enabled(s, Cleanup(i))
    ensures Inv(Effect(s, Cleanup(i)))
  {
    var t := Effect(s, Cleanup(i));
    var key := s.tasks[i].key;
    assert Advanced(s, t);
    AdvancedKeepsOrder(s, t);
    forall j | 0 <= j < |t.tasks| && t.tasks[j].key !in t.tails ensures Finished(t.tasks[j]) {
      if key in s.tails && s.tails[key] == i && s.tasks[j].key == key && j != i {
        assert j < i;
      }
    }
    assert forall k :: k in t.tails ==> k in s.tails && t.tails[k] == s.tails[k] && s.tails[k] != i;
  }

  lemma StepKeepsInv(s: State, a: Action)
    requires Inv(s)
    ensures Inv(Step(s, a))
  {
    if Enabled(s, a) {
      match a {
        case Submit(key) => SubmitKeepsInv(s, key);
        case Start(i) => StartKeepsInv(s, i);
        case Settle(_, _) => AdvanceKeepsInv(s, a);
        case Drain(_) => AdvanceKeepsInv(s, a);
        case Cleanup(i) => CleanupKeepsInv(s, i);
      }
    }
  }

  lemma {:induction false} RunKeepsInv(actions: seq<Action>)
    ensures Inv(Run(INITIAL, actions))
  {
    if actions != [] {
      RunKeepsInv(actions[..|actions| - 1]);
      StepKeepsInv(Run(INITIAL, actions[..|actions| - 1]), actions[|actions| - 1]);
    }
  }

  // ---------------------------------------------------------------- what callers rely on

  /** A queued task may start exactly when every earlier task of its own key has drained; other keys have no say. */
  lemma StartExact(s: State, i: nat)
    requires Inv(s) && i < |s.tasks| && s.tasks[i].phase.Queued?
    ensures Enabled(s, Start(i)) <==>
            forall j :: 0 <= j < i && s.tasks[j].key == s.tasks[i].key ==> Finished(s.tasks[j])
  {
    var p := s.tasks[i].prior;
    if p.Some? && Finished(s.tasks[p.value]) {
      forall j | 0 <= j < i && s.tasks[j].key == s.tasks[i].key ensures Finished(s.tasks[j]) {
        assert j <= p.value;
      }
    }
  }

  predicate IsRunning(s: State, i: int) {
    0 <= i < |s.tasks| && s.tasks[i].phase.Running?
  }

  /**
   In every interleaving: tasks of one key never overlap and start in submission order; a key
   missing from `tails` has no unsettled task; and `tails` is empty once everything is cleaned up.
   */
  lemma Serialised(actions: seq<Action>)
    ensures var s := Run(INITIAL, actions);
            && (forall i, j :: 0 <= i < j < |s.tasks| && s.tasks[i].key == s.tasks[j].key && !s.tasks[j].phase.Queued? ==>
                  Finished(s.tasks[i]))
            && (forall i, j :: IsRunning(s, i) && IsRunning(s, j) && s.tasks[i].key == s.tasks[j].key ==> i == j)
            && (forall i :: 0 <= i < |s.tasks| && s.tasks[i].key !in s.tails ==> Finished(s.tasks[i]))
            && ((forall i :: 0 <= i < |s.tasks| ==> s.tasks[i].phase.Cleaned?) ==> s.tails == map[])
  {
    RunKeepsInv(actions);
    var s := Run(INITIAL, actions);
    if forall i :: 0 <= i < |s.tasks| ==> s.tasks[i].phase.Cleaned? {
      assert s.tails.Keys == {};
    }
  }

  /** No queue stalls: while a task is not cleaned up, some step is possible. */
  lemma {:induction false} Progress(s: State, n: nat)
    requires Inv(s)
    requires n < |s.tasks| && !s.tasks[n].phase.Cleaned?
    ensures exists a: Action :: !a.Submit? && Enabled(s, a)
  {
    if s.tasks[n].phase.Queued? && !Enabled(s, Start(n)) {
      StartExact(s, n);
      var j :| 0 <= j < n && s.tasks[j].key == s.tasks[n].key && !Finished(s.tasks[j]);
      Progress(s, j);
    } else {
      var a := match s.tasks[n].phase
               case Queued => Start(n)
               case Running => Settle(n, false)
               case Settled => Drain(n)
               case _ => Cleanup(n);
      assert !a.Submit? && Enabled(s, a);
    }
  }

  // ---------------------------------------------------------------- the actor object

  class ModemActor {
    var tails: map<Key, nat>
    /** The promises of every task ever submitted to this actor. */
    var tasks: seq<Task>

    constructor ()
      ensures View() == INITIAL
    {
      tails := map[];
      tasks := [];
    }

    ghost function View(): State
      reads this
    {
      State(tails, tasks)
    }

    /** `run`: queue behind the key's current tail and become the tail. */
    method Run(stableKey: Key) returns (task: nat)
      modifies this
      ensures View() == Step(old(View()), Submit(stableKey)) && task == |old(tasks)|
    {
      var prior := if stableKey in tails then Some(tails[stableKey]) else None;
      task := |tasks|;
      tasks := tasks + [Task(stableKey, prior, Queued)];
      tails := tails[stableKey := task];
    }

    /** The predecessor has settled, one way or the other: the task is called. */
    method StartTask(task: nat) returns (started: bool)
      modifies this
      ensures View() == Step(old(View()), Start(task)) && started == Enabled(old(View()), Start(task))
    {
      started := false;
      if task < |tasks| && tasks[task].phase.Queued? {
        var prior := tasks[task].prior;
        if prior.None? || (prior.value < |tasks| && Finished(tasks[prior.value])) {
          tasks := tasks[task := tasks[task].(phase := Running)];
          started := true;
        }
      }
    }

    /** The task's promise settles; a rejection is treated like a result. */
    method SettleTask(task: nat, rejected: bool)
      modifies this
      ensures View() == Step(old(View()), Settle(task, rejected))
    {
      if task < |tasks| && tasks[task].phase.Running? {
        tasks := tasks[task := tasks[task].(phase := Settled)];
      }
    }

    method DrainTask(task: nat)
      modifies this
      ensures View() == Step(old(View()), Drain(task))
    {
      if task < |tasks| && tasks[task].phase.Settled? {
        tasks := tasks[task := tasks[task].(phase := Drained)];
      }
    }

    /** Drop the key's entry once this task was the last one, to bound the map. */
    method CleanupTask(task: nat)
      modifies this
      ensures View() == Step(old(View()), Cleanup(task))
    {
      if task < |tasks| && tasks[task].phase.Drained? {
        var key := tasks[task].key;
        tasks := tasks[task := tasks[task].(phase := Cleaned)];
        if key in tails && tails[key] == task {
          tails := tails - {key};
        }
      }
    }

    method ActiveKeyCount() returns (n: nat)
      ensures n == |tails|
    {
      n := |tails|;
    }
  }
}
