/** What a later session can recover: no write in flight is ever forgotten. */
module CrashSafety {
  import opened Wrappers
  import opened Operation
  import opened Codec
  import opened Store
  import opened Recovery
  import opened Separator
  import opened Engine
  import opened System

  // ---------------------------------------------------------------- the runs considered

  /** Ids the codec accepts and the recovery keys can tell apart. */
  predicate WellFormedOp(x: Execution) {
    && x.operationId != "" && x.modem != "" && x.descriptor.id != "" && x.descriptor.provider != ""
    && NulFree(x.modem) && NulFree(x.operationId)
  }

  /** No journaled call and no entry on file has used this operation id. */
  predicate FreshId(s: State, es: seq<Entry>, id: string) {
    && (forall c :: 0 <= c < |s.calls| && s.calls[c].Journaled() ==> s.calls[c].job.x.operationId != id)
    && (forall i :: 0 <= i < |es| ==> es[i].operationId != id)
  }

  /**
   Journaled operations take fresh ids, and an append that fails within a session leaves all of its
   characters or none, or hits a file that the store knows to be open.
   */
  ghost predicate Admissible(s: State, a: Action) {
    && (a.Submit? && a.job.Invoke? && a.job.x.hasJournal ==> FreshId(s, EntriesOnFile(s.store), a.job.x.operationId))
    && (a.FailHead? && Enabled(s, a) ==>
          !Terminated(s.store) || a.written == 0 || a.written == |Chunk(Terminated(s.store), HeadEntry(s))|)
  }

  ghost predicate Legal(file: Option<string>, actions: seq<Action>) {
    forall i :: 0 <= i < |actions| ==> Admissible(At(file, actions, i), actions[i])
  }

  // ---------------------------------------------------------------- the invariant

  /** Not executed, and no record of it written. */
  predicate Early(pc: Pc) {
    pc.Queued? || pc.Checking? || pc.Admitting? || pc.JournalingStart?
  }

  /** The journal's last word on an executed call is its start, or the verdict it reached. */
  predicate OnRecord(es: seq<Entry>, call: Call)
    requires call.Journaled() && call.executed.Some?
  {
    var x := call.job.x;
    var last := LastOf(es, KeyText(x.modem, x.operationId, call.executed.value));
    && last.Some? && last.value.modem == x.modem
    && (last.value.phase.Started?
        || (call.verdict.Some? && last.value.phase == Completed(OutcomeOf(call.verdict.value))))
  }

  /** What a call's program counter says about its history. */
  predicate Coherent(call: Call) {
    && (call.verdict.Some? ==> call.executed.Some?)
    && match call.pc
       case Executing(g, _) => call.job.Invoke? && call.executed == Some(g) && call.verdict.None?
       case ReadingBack(g, _) => call.job.Invoke? && call.executed == Some(g) && call.verdict.None?
       case RollingBack(g, _) => call.job.Invoke? && call.executed == Some(g) && call.verdict.None?
       case JournalingStart(_, _) => call.Journaled() && call.executed.None? && call.verdict.None?
       case JournalingEnd(g, result, _) =>
         call.Journaled() && call.executed == Some(g) && call.verdict == Some(result)
       case Releasing(_) => call.job.Invoke?
       case Done(_) => true
       case Reconciling => call.job.Reconcile? && call.executed.None?
       case _ => call.executed.None? && call.verdict.None?
  }

  ghost predicate CallOk(s: State, es: seq<Entry>, c: nat)
    requires c < |s.calls|
  {
    var call := s.calls[c];
    && Coherent(call)
    && (c in s.appends <==> Live(s, c) && call.AwaitsJournal())
    && (call.Journaled() && Live(s, c) && Early(call.pc) ==> NoEntry(es, call.job.x.operationId))
    && (call.Journaled() && WellFormedOp(call.job.x) && call.executed.Some? ==> OnRecord(es, call))
  }

  predicate NoEntry(es: seq<Entry>, id: string) {
    forall i :: 0 <= i < |es| ==> es[i].operationId != id
  }

  ghost predicate DistinctIds(s: State) {
    forall c, d :: 0 <= c < d < |s.calls| && s.calls[c].Journaled() && s.calls[d].Journaled() ==>
      s.calls[c].job.x.operationId != s.calls[d].job.x.operationId
  }

  ghost predicate Consistent(s: State, es: seq<Entry>) {
    && (forall c :: 0 <= c < |s.calls| ==> CallOk(s, es, c))
    && DistinctIds(s)
    && Distinct(s.appends)
    && (forall i :: 0 <= i < |s.appends| ==> s.appends[i] < |s.calls|)
  }

  // ---------------------------------------------------------------- entries

  /** An entry of another operation changes nothing on record. */
  lemma OtherEntry(es: seq<Entry>, e: Entry, call: Call)
    requires call.Journaled() && call.executed.Some? && WellFormedOp(call.job.x)
    requires OnRecord(es, call) && e.operationId != call.job.x.operationId
    ensures OnRecord(es + [e], call)
  {
    var x := call.job.x;
    LastOfGrows(es, e, KeyText(x.modem, x.operationId, call.executed.value));
    if KeyOf(e) == KeyText(x.modem, x.operationId, call.executed.value) {
      SameKey(x.modem, x.operationId, call.executed.value, e.modem, e.operationId, e.generation);
    }
  }

  lemma OtherEntries(es: seq<Entry>, own: seq<Entry>, e: Entry, call: Call)
    requires own == [] || own == [e]
    requires call.Journaled() && e.operationId != call.job.x.operationId
    ensures NoEntry(es, call.job.x.operationId) ==> NoEntry(es + own, call.job.x.operationId)
    ensures call.executed.Some? && WellFormedOp(call.job.x) && OnRecord(es, call) ==> OnRecord(es + own, call)
  {
    if own == [] {
      assert es + own == es;
    } else if call.executed.Some? && WellFormedOp(call.job.x) && OnRecord(es, call) {
      OtherEntry(es, e, call);
    }
  }

  /** Once its start is on file, a call that goes on to execute is on record. */
  lemma StartOnRecord(es: seq<Entry>, call: Call, call': Call)
    requires call.Journaled() && call.pc.JournalingStart? && WellFormedOp(call.job.x)
    requires call'.job == call.job && call'.executed == Some(call.pc.generation)
    ensures OnRecord(es + Own(PendingEntry(call)), call')
  {
    var x, e := call.job.x, PendingEntry(call);
    assert Own(e) == [e];
    LastOfGrows(es, e, KeyText(x.modem, x.operationId, call.pc.generation));
  }

  /** The completion that is written is the verdict. */
  lemma EndOnRecord(es: seq<Entry>, own: seq<Entry>, call: Call)
    requires call.Journaled() && call.pc.JournalingEnd? && Coherent(call) && OnRecord(es, call)
    requires own == [] || own == [PendingEntry(call)]
    ensures OnRecord(es + own, call)
  {
    var x, e := call.job.x, PendingEntry(call);
    if own == [] {
      assert es + own == es;
    } else {
      LastOfGrows(es, e, KeyText(x.modem, x.operationId, call.pc.generation));
    }
  }

  // ---------------------------------------------------------------- steps

  /** Call `c` moved, and at most an entry of its own was added to the file. */
  ghost predicate Moved(s: State, t: State, c: nat, own: seq<Entry>) {
    && c < |s.calls| && |t.calls| == |s.calls| && t.session == s.session
    && (forall d :: 0 <= d < |s.calls| && d != c ==> t.calls[d] == s.calls[d] && (d in t.appends <==> d in s.appends))
    && t.calls[c].job == s.calls[c].job
    && Distinct(t.appends)
    && (forall i :: 0 <= i < |t.appends| ==> t.appends[i] < |s.calls|)
    && |own| <= 1 && (own != [] ==> s.calls[c].Journaled() && own[0].operationId == s.calls[c].job.x.operationId)
  }

  lemma MoveKeeps(s: State, t: State, c: nat, es: seq<Entry>, own: seq<Entry>)
    requires Consistent(s, es) && Moved(s, t, c, own) && CallOk(t, es + own, c)
    ensures Consistent(t, es + own)
  {
    forall d | 0 <= d < |t.calls| ensures CallOk(t, es + own, d) {
      if d != c {
        assert CallOk(s, es, d);
        if t.calls[d].Journaled() {
          if own == [] {
            assert es + own == es;
          } else {
            assert own == [own[0]];
            assert d < c ==> s.calls[d].job.x.operationId != s.calls[c].job.x.operationId;
            assert c < d ==> s.calls[c].job.x.operationId != s.calls[d].job.x.operationId;
            OtherEntries(es, own, own[0], t.calls[d]);
          }
        }
      }
    }
  }

  /** A stretch that ends in an await or an ending other than a fresh execution. */
  lemma AnswerKeeps(s: State, c: nat, answer: Engine.Answer, now: nat, es: seq<Entry>)
    requires Consistent(s, es) && Enabled(s, Answer(c, answer, now))
    ensures Consistent(Step(s, Answer(c, answer, now)), es)
  {
    var t := Step(s, Answer(c, answer, now));
    assert CallOk(s, es, c);
    assert c !in s.appends;
    AnswerOk(s, c, answer, now, es);
    assert es + [] == es;
    MoveKeeps(s, t, c, es, []);
  }

  /** A stretch keeps a call coherent, and what it does to the call's history is on record already. */
  lemma ResumeCoherent(call: Call, current: Generation, answer: Engine.Answer, now: nat)
    requires call.job.Invoke? && Coherent(call) && Answers(call.pc, answer)
    ensures var call' := Onward(call, Resume(call.job.x, call.pc, current, answer, now));
            && Coherent(call')
            && (Early(call'.pc) ==> Early(call.pc) && call'.executed.None?)
            && (call.executed.Some? ==> call'.executed == call.executed)
            && (call'.executed.Some? && call.executed.None? ==> !call.Journaled())
            && (call.verdict.Some? ==> call'.verdict == call.verdict)
            && !call.AwaitsJournal()
  {
  }

  lemma AnswerOk(s: State, c: nat, answer: Engine.Answer, now: nat, es: seq<Entry>)
    requires c < |s.calls| && CallOk(s, es, c) && Enabled(s, Answer(c, answer, now))
    ensures CallOk(Step(s, Answer(c, answer, now)), es, c)
  {
    ResumeCoherent(s.calls[c], GenerationOf(s, s.calls[c].Modem()), answer, now);
  }

  lemma StartKeeps(s: State, c: nat, es: seq<Entry>)
    requires Consistent(s, es) && Enabled(s, StartTask(c))
    ensures Consistent(Step(s, StartTask(c)), es)
  {
    var t := Step(s, StartTask(c));
    assert CallOk(s, es, c);
    assert es + [] == es;
    MoveKeeps(s, t, c, es, []);
  }

  lemma EndRunKeeps(s: State, c: nat, end: RunEnd, es: seq<Entry>)
    requires Consistent(s, es) && Enabled(s, EndRun(c, end))
    ensures Consistent(Step(s, EndRun(c, end)), es)
  {
    var t := Step(s, EndRun(c, end));
    assert CallOk(s, es, c);
    assert es + [] == es;
    MoveKeeps(s, t, c, es, []);
  }

  lemma SubmitKeeps(s: State, job: Job, es: seq<Entry>)
    requires Consistent(s, es)
    requires job.Invoke? && job.x.hasJournal ==> FreshId(s, es, job.x.operationId)
    ensures Consistent(Step(s, Submit(job)), es)
  {
    var t := Step(s, Submit(job));
    var n := |s.calls|;
    assert forall d :: 0 <= d < n ==> t.calls[d] == s.calls[d];
    assert t.appends == s.appends && !t.calls[n].AwaitsJournal();
    forall d | 0 <= d < |t.calls| ensures CallOk(t, es, d) {
      if d < n {
        assert CallOk(s, es, d);
      }
    }
  }

  /** The head of the store's chain leaves it; its entry may have reached the file. */
  lemma HeadLeaves(s: State, t: State, es: seq<Entry>, own: seq<Entry>)
    requires Consistent(s, es) && HeadReady(s)
    requires |own| <= 1 && (own != [] ==> own[0] == HeadEntry(s))
    requires t.session == s.session && |t.calls| == |s.calls| && t.appends == s.appends[1..]
    requires forall d :: 0 <= d < |s.calls| && d != s.appends[0] ==> t.calls[d] == s.calls[d]
    requires t.calls[s.appends[0]].job == s.calls[s.appends[0]].job
    requires CallOk(t, es + own, s.appends[0])
    ensures Consistent(t, es + own)
  {
    var c := s.appends[0];
    forall d | 0 <= d < |s.calls| && d != c ensures d in t.appends <==> d in s.appends {
      assert s.appends == [c] + s.appends[1..];
    }
    MoveKeeps(s, t, c, es, own);
  }

  lemma WriteKeeps(s: State, es: seq<Entry>)
    requires Consistent(s, es) && HeadReady(s)
    ensures Consistent(Step(s, WriteHead), es + Own(HeadEntry(s)))
  {
    var c, t := s.appends[0], Step(s, WriteHead);
    var call := s.calls[c];
    assert CallOk(s, es, c);
    assert c !in s.appends[1..];
    if WellFormedOp(call.job.x) {
      if call.pc.JournalingStart? {
        StartOnRecord(es, call, t.calls[c]);
      } else {
        EndOnRecord(es, Own(HeadEntry(s)), call);
      }
    }
    HeadLeaves(s, t, es, Own(HeadEntry(s)));
  }

  /** A rejected append leaves its call done with whatever it had reached. */
  lemma FailedCall(s: State, k: nat)
    requires Enabled(s, FailHead(k)) && Coherent(s.calls[s.appends[0]])
    ensures var c, t := s.appends[0], Step(s, FailHead(k));
            && t.session == s.session && |t.calls| == |s.calls| && t.appends == s.appends[1..]
            && (forall d :: 0 <= d < |s.calls| && d != c ==> t.calls[d] == s.calls[d])
            && t.calls[c] == s.calls[c].(pc := t.calls[c].pc)
            && Coherent(t.calls[c]) && !t.calls[c].AwaitsJournal() && !Early(t.calls[c].pc)
  {
  }

  lemma FailKeeps(s: State, k: nat, es: seq<Entry>, own: seq<Entry>)
    requires Consistent(s, es) && Enabled(s, FailHead(k))
    requires own == [] || own == Own(HeadEntry(s))
    ensures Consistent(Step(s, FailHead(k)), es + own)
  {
    var c, t := s.appends[0], Step(s, FailHead(k));
    var call := s.calls[c];
    assert CallOk(s, es, c);
    assert c !in s.appends[1..];
    if WellFormedOp(call.job.x) && call.pc.JournalingEnd? {
      EndOnRecord(es, own, call);
    }
    FailedCall(s, k);
    HeadLeaves(s, t, es, own);
  }

  lemma DieKeeps(s: State, k: nat, es: seq<Entry>, own: seq<Entry>)
    requires Consistent(s, es) && Sessions(s) && Enabled(s, Die(k))
    requires own == [] || (HeadReady(s) && own == Own(HeadEntry(s)))
    ensures Consistent(Step(s, Die(k)), es + own)
  {
    var t := Step(s, Die(k));
    forall d | 0 <= d < |t.calls| ensures CallOk(t, es + own, d) {
      assert CallOk(s, es, d) && !Live(t, d);
      var call := s.calls[d];
      if own == [] {
        assert es + own == es;
      } else if call.Journaled() && WellFormedOp(call.job.x) && call.executed.Some? {
        var c := s.appends[0];
        assert CallOk(s, es, c);
        if d == c {
          EndOnRecord(es, own, call);
        } else {
          assert d < c ==> call.job.x.operationId != s.calls[c].job.x.operationId;
          assert c < d ==> s.calls[c].job.x.operationId != call.job.x.operationId;
          OtherEntries(es, own, own[0], call);
        }
      }
    }
  }

  /** Steps that leave calls and chain alone. */
  lemma QuietKeeps(s: State, t: State, es: seq<Entry>)
    requires Consistent(s, es)
    requires t.session == s.session && t.calls == s.calls && t.appends == s.appends
    ensures Consistent(t, es)
  {
    forall d | 0 <= d < |t.calls| ensures CallOk(t, es, d) {
      assert CallOk(s, es, d);
    }
  }

  /** What the steps of a run keep true of the calls and the journal file together. */
  ghost predicate Safe(s: State) {
    Consistent(s, EntriesOnFile(s.store)) && Honest(s.store) && Sessions(s)
  }

  /** What the append at the head of the chain leaves to be read when `k` of its characters reach the file. */
  function Left(s: State, k: nat): seq<Entry>
    requires HeadReady(s)
  {
    if Whole(Terminated(s.store), HeadEntry(s), k) then Own(HeadEntry(s)) else []
  }

  lemma FileSteps(s: State, a: Action)
    requires Safe(s) && Admissible(s, a) && Enabled(s, a) && (a.WriteHead? || a.FailHead? || a.Die?)
    ensures Safe(Step(s, a))
  {
    StepKeepsSessions(s, a);
    var es := EntriesOnFile(s.store);
    match a {
      case WriteHead =>
        AppendedWhole(s.store, HeadEntry(s));
        WriteKeeps(s, es);
      case FailHead(k) =>
        AppendedPrefix(s.store, HeadEntry(s), k);
        FailedAppendHonest(s.store, HeadEntry(s), k);
        FailKeeps(s, k, es, Left(s, k));
      case Die(k) =>
        if HeadReady(s) {
          AppendedPrefix(s.store, HeadEntry(s), k);
          DieKeeps(s, k, es, Left(s, k));
        } else {
          DieKeeps(s, k, es, []);
          assert es + [] == es;
        }
    }
  }

  lemma StepSafe(s: State, a: Action)
    requires Safe(s) && Admissible(s, a)
    ensures Safe(Step(s, a))
  {
    var es := EntriesOnFile(s.store);
    StepKeepsSessions(s, a);
    if Enabled(s, a) {
      match a {
        case Submit(job) => SubmitKeeps(s, job, es);
        case StartTask(c) => StartKeeps(s, c, es);
        case Answer(c, answer, now) => AnswerKeeps(s, c, answer, now, es);
        case EndRun(c, end) => EndRunKeeps(s, c, end, es);
        case WriteHead => FileSteps(s, a);
        case FailHead(_) => FileSteps(s, a);
        case Die(_) => FileSteps(s, a);
        case _ => QuietKeeps(s, Step(s, a), es);
      }
    }
  }

  lemma {:induction false} RunSafe(file: Option<string>, actions: seq<Action>, i: nat)
    requires Legal(file, actions) && i <= |actions|
    ensures Safe(At(file, actions, i))
  {
    if i > 0 {
      RunSafe(file, actions, i - 1);
      AtNext(file, actions, i - 1);
      StepSafe(At(file, actions, i - 1), actions[i - 1]);
    }
  }

  // ---------------------------------------------------------------- crash safety

  /** The journal holds no `completed` entry of this call. */
  predicate NoCompletion(es: seq<Entry>, call: Call)
    requires call.Journaled() && call.executed.Some?
  {
    forall i :: 0 <= i < |es| && es[i].phase.Completed? ==>
      KeyOf(es[i]) != KeyText(call.job.x.modem, call.job.x.operationId, call.executed.value)
  }

  lemma {:induction false} LastIsAnEntry(es: seq<Entry>, key: string)
    ensures LastOf(es, key).Some? ==> LastOf(es, key).value in es && KeyOf(LastOf(es, key).value) == key
  {
    if es != [] {
      LastIsAnEntry(es[..|es| - 1], key);
      assert es == es[..|es| - 1] + [es[|es| - 1]];
      LastOfGrows(es[..|es| - 1], es[|es| - 1], key);
    }
  }

  lemma RequiredOf(es: seq<Entry>, call: Call)
    requires call.Journaled() && call.executed.Some? && OnRecord(es, call)
    requires NoCompletion(es, call) || (call.verdict.Some? && call.verdict.value.RequiresReconciliation())
    ensures call.Modem() in Required(es)
  {
    var key := KeyText(call.job.x.modem, call.job.x.operationId, call.executed.value);
    LastIsAnEntry(es, key);
    assert Open(LastOf(es, key).value);
    RequiredExact(es);
  }

  /**
   Crash safety. In every run of any number of sessions, at every point of it, and so whenever the
   process may die and with whatever part of its last append on file: a journaled operation whose
   provider was called has its modem in the recovered `reconciliationRequired`, unless its
   completion is on file and its verdict is known.
   */
  lemma CrashSafety(file: Option<string>, actions: seq<Action>, i: nat, c: nat)
    requires Legal(file, actions) && i <= |actions|
    requires c < |At(file, actions, i).calls|
    requires var call := At(file, actions, i).calls[c];
             && call.Journaled() && WellFormedOp(call.job.x) && call.executed.Some?
             && (NoCompletion(EntriesOnFile(At(file, actions, i).store), call)
                 || (call.verdict.Some? && call.verdict.value.RequiresReconciliation()))
    ensures At(file, actions, i).calls[c].Modem() in Required(EntriesOnFile(At(file, actions, i).store))
  {
    var s := At(file, actions, i);
    RunSafe(file, actions, i);
    assert CallOk(s, EntriesOnFile(s.store), c);
    RequiredOf(EntriesOnFile(s.store), s.calls[c]);
  }

  // ---------------------------------------------------------------- the gate and its record

  /** Call `c` closed the gate of `m`. */
  predicate Closes(s: State, c: nat, m: ModemId) {
    && Live(s, c) && s.calls[c].job.Invoke? && s.calls[c].Modem() == m
    && s.calls[c].verdict.Some? && s.calls[c].verdict.value.RequiresReconciliation()
  }

  /** A closed gate was closed by a call of this session that ended in an unknown outcome. */
  ghost predicate GateExplained(s: State) {
    forall m :: m in s.gate ==> exists c :: Closes(s, c, m)
  }

  lemma StillCloses(s: State, a: Action, c: nat, m: ModemId)
    requires Closes(s, c, m) && !a.Die? && (forall d :: 0 <= d < |s.calls| ==> Coherent(s.calls[d]))
    ensures Closes(Step(s, a), c, m)
  {
    if Enabled(s, a) && a.Answer? && a.call == c {
      ResumeCoherent(s.calls[c], GenerationOf(s, s.calls[c].Modem()), a.answer, a.now);
    }
  }

  lemma StepExplained(s: State, a: Action)
    requires GateExplained(s) && (forall d :: 0 <= d < |s.calls| ==> Coherent(s.calls[d]))
    ensures GateExplained(Step(s, a))
  {
    var t := Step(s, a);
    forall m | m in t.gate ensures exists c :: Closes(t, c, m) {
      if m in s.gate && a.Die? {
        assert t == s;
      } else if m in s.gate {
        var c :| Closes(s, c, m);
        StillCloses(s, a, c, m);
      } else {
        assert Closes(t, a.call, m);
      }
    }
  }

  lemma {:induction false} RunExplained(file: Option<string>, actions: seq<Action>, i: nat)
    requires Legal(file, actions) && i <= |actions|
    ensures GateExplained(At(file, actions, i))
  {
    if i > 0 {
      RunExplained(file, actions, i - 1);
      RunSafe(file, actions, i - 1);
      AtNext(file, actions, i - 1);
      var s := At(file, actions, i - 1);
      forall d | 0 <= d < |s.calls| ensures Coherent(s.calls[d]) {
        assert CallOk(s, EntriesOnFile(s.store), d);
      }
      StepExplained(s, actions[i - 1]);
    }
  }

  /**
   The recovered set covers the gate that only memory held: every modem whose gate is closed is in
   `reconciliationRequired` of the file as it stands, when journaled operations closed it.
   */
  lemma GateIsRecovered(file: Option<string>, actions: seq<Action>, i: nat, m: ModemId)
    requires Legal(file, actions) && i <= |actions|
    requires m in At(file, actions, i).gate
    requires forall c: nat :: Closes(At(file, actions, i), c, m) ==>
               At(file, actions, i).calls[c].Journaled() && WellFormedOp(At(file, actions, i).calls[c].job.x)
    ensures m in Required(EntriesOnFile(At(file, actions, i).store))
  {
    var s := At(file, actions, i);
    RunExplained(file, actions, i);
    RunSafe(file, actions, i);
    var c :| Closes(s, c, m);
    assert CallOk(s, EntriesOnFile(s.store), c);
    CrashSafety(file, actions, i, c);
  }

  // ---------------------------------------------------------------- where crash safety stops

  /** A write that nothing refuses, with a journal. */
  predicate Runs(x: Execution) {
    !x.IsRead() && x.hasJournal && WellFormedOp(x) && DescriptorRefusal(x).None?
  }

  /** From submission to the append of the `started` entry. */
  function UpToJournal(x: Execution, c: nat): seq<Action> {
    [Submit(Invoke(x)), StartTask(c), Answer(c, Satisfied, 0), Answer(c, Admitted, 0)]
  }

  /** The first write's append is rejected with `k` of its characters on file; a second write follows. */
  function GluedRun(x: Execution, y: Execution, k: nat): seq<Action> {
    UpToJournal(x, 0) + [FailHead(k)] + UpToJournal(y, 1) + [WriteHead]
  }

  /** State `t` is `s` with one more call, of a write on `x`'s modem, at `pc`. */
  ghost predicate OneMore(s: State, t: State, x: Execution, pc: Pc) {
    && t.calls == s.calls + [Call(Invoke(x), s.session, 0, pc, None, None)]
    && t.store == s.store && t.session == s.session
    && t.gate == s.gate && t.generations == s.generations && t.actors.Keys == s.actors.Keys + {x.modem}
  }

  lemma FirstTwo(s: State, x: Execution)
    requires Runs(x) && x.modem !in s.actors && x.modem !in s.gate && s.generations == map[] && s.appends == []
    ensures var t := Step(Step(s, Submit(Invoke(x))), StartTask(|s.calls|));
            OneMore(s, t, x, Checking(0)) && t.appends == []
  {
    var c := |s.calls|;
    var s1 := Step(s, Submit(Invoke(x)));
    assert OneMore(s, s1, x, Queued) && s1.appends == [];
    assert Enabled(s1, StartTask(c));
  }

  lemma LastTwo(s: State, t: State, x: Execution)
    requires Runs(x) && OneMore(s, t, x, Checking(0)) && t.appends == []
    ensures var u := Step(Step(t, Answer(|s.calls|, Satisfied, 0)), Answer(|s.calls|, Admitted, 0));
            OneMore(s, u, x, JournalingStart(0, 0)) && u.appends == [|s.calls|]
  {
    var t1 := Step(t, Answer(|s.calls|, Satisfied, 0));
    assert OneMore(s, t1, x, Admitting(0)) && t1.appends == [];
  }

  /** What a write that nothing refuses looks like when it comes to its first append. */
  lemma JournalReached(s: State, x: Execution)
    requires Runs(x) && x.modem !in s.actors && x.modem !in s.gate && s.generations == map[] && s.appends == []
    ensures var t := Run(s, UpToJournal(x, |s.calls|));
            OneMore(s, t, x, JournalingStart(0, 0)) && t.appends == [|s.calls|]
  {
    var c := |s.calls|;
    var t := Step(Step(s, Submit(Invoke(x))), StartTask(c));
    FirstTwo(s, x);
    LastTwo(s, t, x);
    RunFour(s, Submit(Invoke(x)), StartTask(c), Answer(c, Satisfied, 0), Answer(c, Admitted, 0));
  }

  function StartedEntry(x: Execution): Entry {
    EntryFor(x, 0, None, 0)
  }

  lemma FirstLost(file: Option<string>, x: Execution, k: nat)
    requires Runs(x) && k <= |Chunk(ProbeTerminated(file), StartedEntry(x))|
    ensures var s := Run(Boot(file), UpToJournal(x, 0));
            var t := Step(s, FailHead(k));
            && |t.calls| == 1 && t.session == 0 && t.appends == [] && t.gate == {} && t.generations == map[]
            && t.actors.Keys == {x.modem}
            && t.store == AppendFailed(StoreState(file, None), StartedEntry(x), k)
  {
    JournalReached(Boot(file), x);
    var s := Run(Boot(file), UpToJournal(x, 0));
    assert s.calls[0] == Call(Invoke(x), 0, 0, JournalingStart(0, 0), None, None);
    assert HeadEntry(s) == StartedEntry(x);
    assert Enabled(s, FailHead(k));
  }

  lemma SecondWritten(t: State, y: Execution)
    requires Runs(y) && |t.calls| == 1 && t.session == 0 && t.appends == [] && t.gate == {} && t.generations == map[]
    requires y.modem !in t.actors
    ensures var u := Step(Run(t, UpToJournal(y, 1)), WriteHead);
            && |u.calls| == 2 && u.calls[1] == Call(Invoke(y), 0, 0, Executing(0, 1), Some(0), None)
            && u.store == Appended(t.store, StartedEntry(y))
  {
    JournalReached(t, y);
    var s := Run(t, UpToJournal(y, 1));
    assert s.calls[1] == Call(Invoke(y), 0, 0, JournalingStart(0, 0), None, None);
    assert HeadEntry(s) == StartedEntry(y);
    assert Enabled(s, WriteHead);
  }

  /**
   `Legal` cannot be dropped. For any closed file, any two such writes on different modems and any cut: when the
   first one's append is rejected within the session with a part of its characters on file, the second write
   comes to be executing while the journal, read at that moment, holds no entry of either.
   */
  lemma GluedAppendForgets(file: Option<string>, x: Execution, y: Execution, k: nat)
    requires Runs(x) && Runs(y) && x.modem != y.modem
    requires ProbeTerminated(file) && 0 < k < |Chunk(true, StartedEntry(x))|
    ensures var s := Run(Boot(file), GluedRun(x, y, k));
            && |s.calls| == 2 && s.calls[1].job == Invoke(y) && s.calls[1].pc.Executing?
            && EntriesOnFile(s.store) == EntriesOnFile(Boot(file).store)
  {
    var first := UpToJournal(x, 0);
    var t := Step(Run(Boot(file), first), FailHead(k));
    FirstLost(file, x, k);
    SecondWritten(t, y);
    RunOne(Boot(file), first, FailHead(k));
    RunConcat(Boot(file), first + [FailHead(k)], UpToJournal(y, 1));
    RunOne(Boot(file), first + [FailHead(k)] + UpToJournal(y, 1), WriteHead);
    GluedAppendLosesBoth(StoreState(file, None), StartedEntry(x), k, StartedEntry(y));
  }
}
