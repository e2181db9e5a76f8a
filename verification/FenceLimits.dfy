/** Where the mutation fence begins: exactly when a closed gate stops every later write. */
module FenceLimits {
  import opened Wrappers
  import opened Operation
  import opened Codec
  import opened Store
  import opened Engine
  import opened System
  import opened Fence

  // ---------------------------------------------------------------- exactness

  /** Somewhere along `actions` the process ends or a reconciliation of `m` succeeds. */
  ghost predicate Reopened(s: State, actions: seq<Action>, m: ModemId) {
    exists k :: 0 <= k < |actions| && (actions[k].Die? || Reconciles(Run(s, actions[..k]), actions[k], m))
  }

  /** `actions` then `last` make a write on `m` call its provider, and nothing reopened the gate before. */
  ghost predicate Slips(s: State, actions: seq<Action>, last: Action, m: ModemId) {
    !Reopened(s, actions, m) && Executes(Run(s, actions), last, m)
  }

  lemma ReopenedLater(s: State, actions: seq<Action>, m: ModemId)
    requires actions != [] && !Reopened(s, actions, m)
    ensures !Reopened(s, actions[..|actions| - 1], m)
    ensures var front, last := actions[..|actions| - 1], actions[|actions| - 1];
            !last.Die? && !Reconciles(Run(s, front), last, m)
  {
    var front, n := actions[..|actions| - 1], |actions| - 1;
    assert forall k :: 0 <= k < n ==> front[k] == actions[k] && front[..k] == actions[..k];
    assert actions[n] == actions[|actions| - 1] && actions[..n] == front;
  }

  lemma {:induction false} FenceStands(s: State, actions: seq<Action>, m: ModemId)
    requires Fenced(s, m) && !Reopened(s, actions, m)
    ensures Fenced(Run(s, actions), m)
  {
    if actions != [] {
      var front, last := actions[..|actions| - 1], actions[|actions| - 1];
      ReopenedLater(s, actions, m);
      FenceStands(s, front, m);
      FenceHolds(Run(s, front), last, m);
    }
  }

  predicate Plain(actions: seq<Action>) {
    forall k :: 0 <= k < |actions| ==> actions[k].Answer? || actions[k].WriteHead?
  }

  lemma PlainReopensNothing(s: State, actions: seq<Action>, m: ModemId)
    requires Plain(actions)
    ensures !Reopened(s, actions, m)
  {
  }

  /** A live write past the gate check. */
  predicate Loose(s: State, c: nat, m: ModemId) {
    Live(s, c) && s.calls[c].IsWrite() && s.calls[c].Modem() == m && PastGate(s.calls[c])
  }

  function IndexOf(xs: seq<nat>, x: nat): (i: nat)
    requires x in xs
    ensures i < |xs| && xs[i] == x
  {
    if xs[0] == x then 0 else 1 + IndexOf(xs[1..], x)
  }

  /** How many awaits a loose write still has before its provider. */
  function Distance(s: State, c: nat): nat
    requires Chained(s) && Live(s, c)
  {
    match s.calls[c].pc
    case Checking(_) => |s.appends| + 2
    case Admitting(_) => |s.appends| + 1
    case JournalingStart(_, _) => IndexOf(s.appends, c)
    case _ => 0
  }

  /** The answer that brings a loose write on. */
  function Onwards(s: State, c: nat): Action
    requires Live(s, c)
  {
    match s.calls[c].pc
    case Checking(_) => Answer(c, Satisfied, 0)
    case Admitting(_) => Answer(c, Admitted, 0)
    case _ => WriteHead
  }

  /** The next step brings a loose write to its provider, or one step nearer to it. */
  lemma StepsNearer(s: State, c: nat, m: ModemId)
    requires Chained(s) && Sessions(s) && Loose(s, c, m)
    ensures var a := Onwards(s, c);
            && Chained(Step(s, a)) && Sessions(Step(s, a))
            && (Executes(s, a, m) || (Loose(Step(s, a), c, m) && Distance(Step(s, a), c) < Distance(s, c)))
  {
    var a := Onwards(s, c);
    var t := Step(s, a);
    StepKeepsChained(s, a);
    StepKeepsSessions(s, a);
    if a.WriteHead? {
      HeadGoes(s, c, m);
    } else if t.calls[c].pc.Executing? {
      assert 0 <= c < |t.calls| && t.calls[c].IsWrite() && t.calls[c].Modem() == m;
      assert Executes(s, a, m);
    } else if t.calls[c].pc.JournalingStart? {
      assert t.appends == s.appends + [c];
    }
  }

  lemma HeadGoes(s: State, c: nat, m: ModemId)
    requires Chained(s) && Loose(s, c, m) && s.calls[c].pc.JournalingStart?
    ensures var t := Step(s, WriteHead);
            Executes(s, WriteHead, m)
            || (Loose(t, c, m) && Chained(t) && Distance(t, c) < Distance(s, c))
  {
    var t := Step(s, WriteHead);
    assert c in s.appends && HeadReady(s);
    var h := s.appends[0];
    if h == c {
      assert t.calls[c].pc.Executing?;
      assert Executes(s, WriteHead, m);
    } else {
      assert t.calls[c] == s.calls[c] && t.appends == s.appends[1..];
      HeadKeepsChained(s, t);
      assert c in t.appends;
      SameIndex(t.appends, IndexOf(t.appends, c), IndexOf(s.appends, c) - 1);
    }
  }

  lemma SameIndex(xs: seq<nat>, i: nat, j: nat)
    requires Distinct(xs) && i < |xs| && j < |xs| && xs[i] == xs[j]
    ensures i == j
  {
  }

  lemma {:induction false} LooseSlips(s: State, c: nat, m: ModemId) returns (actions: seq<Action>, last: Action)
    requires Chained(s) && Sessions(s) && Loose(s, c, m)
    ensures Plain(actions) && Executes(Run(s, actions), last, m)
    decreases Distance(s, c)
  {
    StepsNearer(s, c, m);
    var a := Onwards(s, c);
    if Executes(s, a, m) {
      return [], a;
    }
    var rest, final := LooseSlips(Step(s, a), c, m);
    RunOne(s, [], a);
    RunConcat(s, [a], rest);
    assert [] + [a] == [a];
    return [a] + rest, final;
  }

  /** Nothing gets through from here until the gate is reopened. */
  ghost predicate Sealed(s: State, m: ModemId) {
    forall more, last :: !Slips(s, more, last, m)
  }

  lemma FencedIsSealed(s: State, m: ModemId)
    requires m in s.gate && forall c: nat :: !Loose(s, c, m)
    ensures Sealed(s, m)
  {
    forall c | 0 <= c < |s.calls| && Live(s, c) && s.calls[c].IsWrite() && s.calls[c].Modem() == m
      ensures !PastGate(s.calls[c])
    {
      assert !Loose(s, c, m);
    }
    forall more, last ensures !Slips(s, more, last, m) {
      if Slips(s, more, last, m) {
        FenceStands(s, more, m);
        FenceStops(Run(s, more), last, m);
      }
    }
  }

  lemma LooseIsNotSealed(s: State, c: nat, m: ModemId)
    requires Chained(s) && Sessions(s) && Loose(s, c, m)
    ensures !Sealed(s, m)
  {
    var more, last := LooseSlips(s, c, m);
    PlainReopensNothing(s, more, m);
    assert Slips(s, more, last, m);
  }

  /**
   In every run: a closed gate stops every further write on its modem, until a reconciliation
   succeeds or the process ends, exactly when no write on that modem is already past its own check.
   */
  lemma FenceExact(file: Option<string>, actions: seq<Action>, i: nat, m: ModemId)
    requires i <= |actions| && m in At(file, actions, i).gate
    ensures Sealed(At(file, actions, i), m) <==> forall c: nat :: !Loose(At(file, actions, i), c, m)
  {
    RunKeepsSerial(file, actions[..i]);
    RunKeepsChained(file, actions[..i]);
    if c: nat :| Loose(At(file, actions, i), c, m) {
      LooseIsNotSealed(At(file, actions, i), c, m);
    } else {
      FencedIsSealed(At(file, actions, i), m);
    }
  }

  // ---------------------------------------------------------------- a stale read closes the gate too late

  /** A read that nothing refuses, without journal or admission. */
  predicate PlainRead(x: Execution) {
    x.IsRead() && DescriptorRefusal(x).None? && !x.hasJournal && !x.descriptor.admissionRequired
  }

  /** A read is executing when a write passes its check; the device is replaced; the read's reply is stale. */
  function StaleRead(r: Execution, w: Execution): seq<Action> {
    [ Submit(Invoke(r)), Answer(0, Satisfied, 0), Answer(0, Admitted, 0),
      Submit(Invoke(w)), StartTask(1),
      SetGeneration(w.modem, 1), Answer(0, Replied(Dropped, true), 0) ]
  }

  lemma ReadExecutes(r: Execution)
    requires PlainRead(r)
    ensures var s := Step(Step(Step(Boot(None), Submit(Invoke(r))), Answer(0, Satisfied, 0)), Answer(0, Admitted, 0));
            s == Boot(None).(calls := [Call(Invoke(r), 0, 0, Executing(0, 1), Some(0), None)])
  {
    var s1 := Step(Boot(None), Submit(Invoke(r)));
    assert s1 == Boot(None).(calls := [Call(Invoke(r), 0, 0, Checking(0), None, None)]);
    var s2 := Step(s1, Answer(0, Satisfied, 0));
    assert s2 == Boot(None).(calls := [Call(Invoke(r), 0, 0, Admitting(0), None, None)]);
  }

  lemma WritePasses(s: State, w: Execution)
    requires !w.IsRead() && DescriptorRefusal(w).None?
    requires |s.calls| == 1 && s.gate == {} && w.modem !in s.actors && w.modem !in s.generations
    ensures var t := Step(Step(s, Submit(Invoke(w))), StartTask(1));
            && t.calls == s.calls + [Call(Invoke(w), s.session, 0, Checking(0), None, None)]
            && t.gate == {} && t.generations == s.generations && t.session == s.session
  {
    var s1 := Step(s, Submit(Invoke(w)));
    assert s1.calls == s.calls + [Call(Invoke(w), s.session, 0, Queued, None, None)];
    assert Enabled(s1, StartTask(1));
  }

  lemma StaleReplyCloses(s: State, r: Execution, w: Execution)
    requires PlainRead(r) && !w.IsRead() && r.modem == w.modem && s.session == 0 && s.gate == {}
    requires s.calls == [ Call(Invoke(r), 0, 0, Executing(0, 1), Some(0), None),
                          Call(Invoke(w), 0, 0, Checking(0), None, None) ]
    ensures var t := Step(Step(s, SetGeneration(w.modem, 1)), Answer(0, Replied(Dropped, true), 0));
            t.gate == {w.modem} && Loose(t, 1, w.modem)
  {
    var s1 := Step(s, SetGeneration(w.modem, 1));
    assert Enabled(s1, Answer(0, Replied(Dropped, true), 0));
    assert Classify(true, 0, 1, Dropped) == ResUnknown(StaleGeneration, 0);
  }

  /**
   Such states are reached: for any plain read and any write on one modem there is a run after
   which the gate of the modem is closed, by the read, and the write still goes on to execute.
   */
  lemma StaleReadDoesNotSeal(r: Execution, w: Execution)
    requires PlainRead(r) && !w.IsRead() && DescriptorRefusal(w).None? && r.modem == w.modem
    ensures var s := Run(Boot(None), StaleRead(r, w));
            w.modem in s.gate && !Sealed(s, w.modem)
  {
    var a := StaleRead(r, w);
    var s3 := Step(Step(Step(Boot(None), a[0]), a[1]), a[2]);
    ReadExecutes(r);
    WritePasses(s3, w);
    var s5 := Step(Step(s3, a[3]), a[4]);
    assert s5.calls == [ Call(Invoke(r), 0, 0, Executing(0, 1), Some(0), None),
                         Call(Invoke(w), 0, 0, Checking(0), None, None) ];
    StaleReplyCloses(s5, r, w);
    SevenSteps(Boot(None), a);
    RunKeepsSerial(None, a);
    RunKeepsChained(None, a);
    LooseIsNotSealed(Run(Boot(None), a), 1, w.modem);
  }

  lemma SevenSteps(s: State, a: seq<Action>)
    requires |a| == 7
    ensures Run(s, a) == Step(Step(Step(Step(Step(Step(Step(s, a[0]), a[1]), a[2]), a[3]), a[4]), a[5]), a[6])
  {
    RunFour(s, a[0], a[1], a[2], a[3]);
    assert a == [a[0], a[1], a[2], a[3]] + [a[4]] + [a[5]] + [a[6]];
    RunOne(s, [a[0], a[1], a[2], a[3]], a[4]);
    RunOne(s, [a[0], a[1], a[2], a[3]] + [a[4]], a[5]);
    RunOne(s, [a[0], a[1], a[2], a[3]] + [a[4]] + [a[5]], a[6]);
  }
}
