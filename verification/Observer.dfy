/**
 The epoch-scoped observer (`backend/observer.ts`): who owns the bus name, which reads are in flight,
 and what may be concluded from a late reply.

 Every event the run time can deliver is an action. Replies to the observer's own calls arrive in any order.
 `Control` is everything that decides what is read and whose reply counts; the rows never decide that.
 */
module Observer {
  import opened Wrappers
  import opened Snapshot
  import opened Mapping
  import opened RowStore

  type Owner = string

  /** How far `start` has come. */
  datatype Stage = Idle | Connecting | Subscribing | Querying | Reading | Finishing | Primed | Broken

  /** One `GetManagedObjects` call in flight; `first` marks the one that `start` awaits. */
  datatype Request = Request(id: nat, epoch: Owner, first: bool)

  /** One `GetNameOwner` call in flight. */
  datatype Query = Query(first: bool)

  datatype Control = Control(
    stage: Stage,
    owner: Option<Owner>,
    listening: bool,
    stopped: bool,
    refreshDuringPrime: bool,
    refreshing: bool,
    refreshQueued: bool,
    queries: seq<Query>,
    inFlight: seq<Request>,
    issued: nat)
  {
    /** The `#priming` flag: from `start` until its first refresh has settled, or for good if it fails before. */
    predicate Priming() {
      !stage.Idle? && !stage.Primed?
    }
  }

  datatype Reply = Tree(tree: Mapping.Tree) | BusFailure

  datatype Action =
    | Start
    | Connected
    | Subscribed
    | StartFails
    | Disconnected
    | Reconnected
    | OwnerReply(query: nat, owner: Option<Owner>)
    | NameOwnerChanged(newOwner: Option<Owner>)
    | ObjectSignal(sender: Owner)
    | RefreshReply(request: nat, reply: Reply)
    | FinishPrime
    | Stop

  const ASLEEP := Control(Stage.Idle, None, false, false, false, false, false, [], [], 0)

  // ---------------------------------------------------------------- control

  predicate Enabled(c: Control, a: Action) {
    match a
    case Start => c.stage.Idle?
    case Connected => c.stage.Connecting?
    case Subscribed => c.stage.Subscribing?
    case StartFails => c.stage.Connecting? || c.stage.Subscribing?
    case Disconnected => c.listening && !c.stopped
    case Reconnected => c.listening && !c.stopped
    case OwnerReply(q, owner) => q < |c.queries| && (owner.Some? ==> owner.value != "")
    case NameOwnerChanged(owner) => c.listening && (owner.Some? ==> owner.value != "")
    case ObjectSignal(_) => c.listening
    case RefreshReply(r, _) => r < |c.inFlight|
    case FinishPrime => c.stage.Finishing?
    case Stop => !c.stopped
  }

  /** The first half of `#runRefresh`: the call is issued at once. */
  function BeginRefresh(c: Control, epoch: Owner, first: bool): Control {
    c.(refreshing := true, inFlight := c.inFlight + [Request(c.issued, epoch, first)], issued := c.issued + 1)
  }

  function ScheduleRefresh(c: Control): Control {
    if c.owner.None? || c.stopped then c
    else if c.refreshing then c.(refreshQueued := true)
    else BeginRefresh(c, c.owner.value, false)
  }

  /** The `finally` block of `#runRefresh`. */
  function Settle(c: Control): Control {
    var d := c.(refreshing := false);
    if d.refreshQueued && !d.stopped then ScheduleRefresh(d.(refreshQueued := false)) else d
  }

  /** The rest of `#adoptCurrentOwner`. */
  function Adopt(c: Control, owner: Option<Owner>, first: bool): Control {
    if owner.None? then c.(owner := None, stage := if first then Finishing else c.stage)
    else BeginRefresh(c.(owner := owner, stage := if first then Reading else c.stage), owner.value, first)
  }

  function Drop<T>(xs: seq<T>, i: nat): seq<T>
    requires i < |xs|
  {
    xs[..i] + xs[i + 1..]
  }

  function Effect(c: Control, a: Action): Control
    requires Enabled(c, a)
  {
    match a
    case Start => c.(stage := Stage.Connecting)
    case Connected => c.(stage := Subscribing, listening := true)
    case Subscribed => c.(stage := Querying, queries := c.queries + [Query(true)])
    case StartFails => c.(stage := Broken)
    case Disconnected => c.(owner := None)
    case Reconnected => c.(queries := c.queries + [Query(false)])
    case OwnerReply(q, owner) => Adopt(c.(queries := Drop(c.queries, q)), owner, c.queries[q].first)
    case NameOwnerChanged(owner) =>
      if owner.None? then c.(owner := None)
      else if owner == c.owner then c
      else ScheduleRefresh(c.(owner := owner))
    case ObjectSignal(sender) =>
      if c.owner != Some(sender) then c
      else if c.Priming() then c.(refreshDuringPrime := true)
      else ScheduleRefresh(c)
    case RefreshReply(r, _) =>
      var d := Settle(c.(inFlight := Drop(c.inFlight, r)));
      if c.inFlight[r].first then d.(stage := Finishing) else d
    case FinishPrime =>
      var d := c.(stage := Primed);
      if d.refreshDuringPrime then ScheduleRefresh(d.(refreshDuringPrime := false)) else d
    case Stop => c.(stopped := true)
  }

  function Step(c: Control, a: Action): Control {
    if Enabled(c, a) then Effect(c, a) else c
  }

  // ---------------------------------------------------------------- rows

  /** Rows, and the list the listeners were last given. */
  datatype Store = Store(rows: Rows, shown: Listing)

  const NOTHING := Store(EMPTY, List(EMPTY))

  function Emit(s: Store, due: bool): Store {
    if due then s.(shown := List(s.rows)) else s
  }

  function Mark(s: Store, reason: FailureReason): Store {
    Emit(s.(rows := MarkUnavailable(s.rows, reason)), MarkingShows(s.rows))
  }

  /** A reply that counts is applied; a reconcile that throws leaves its partial work and counts as a bus error. */
  function Apply(s: Store, reply: Reply): Store {
    match reply
    case BusFailure => Mark(s, BusError)
    case Tree(tree) =>
      var a := Reconcile(s.rows, tree);
      if a.threw then Mark(s.(rows := a.rows), BusError)
      else Emit(s.(rows := MarkHealthy(a.rows)), a.changed || !a.rows.sourceHealthy)
  }

  /** The reply of request `r` counts: it was asked under the owner that is current now. */
  predicate Counts(c: Control, r: nat) {
    r < |c.inFlight| && c.owner == Some(c.inFlight[r].epoch) && !c.stopped
  }

  function StoreEffect(c: Control, s: Store, a: Action): Store
    requires Enabled(c, a)
  {
    match a
    case Disconnected => Mark(s, SourceGone)
    case OwnerReply(_, owner) => if owner.None? then Mark(s, SourceGone) else s
    case NameOwnerChanged(owner) => if owner.Some? && owner == c.owner then s else Mark(s, SourceGone)
    case RefreshReply(r, reply) => if Counts(c, r) then Apply(s, reply) else s
    case _ => s
  }

  // ---------------------------------------------------------------- runs

  datatype State = State(control: Control, store: Store)

  const BOOT := State(ASLEEP, NOTHING)

  function Next(s: State, a: Action): State {
    State(Step(s.control, a), if Enabled(s.control, a) then StoreEffect(s.control, s.store, a) else s.store)
  }

  /** The state in which action number `i` of a run is taken. */
  function At(actions: seq<Action>, i: nat): State
    requires i <= |actions|
  {
    if i == 0 then BOOT else Next(At(actions, i - 1), actions[i - 1])
  }

  function ControlAt(actions: seq<Action>, i: nat): Control
    requires i <= |actions|
  {
    if i == 0 then ASLEEP else Step(ControlAt(actions, i - 1), actions[i - 1])
  }

  lemma {:induction false} ControlOfRun(actions: seq<Action>, i: nat)
    requires i <= |actions|
    ensures At(actions, i).control == ControlAt(actions, i)
  {
    if i > 0 {
      ControlOfRun(actions, i - 1);
    }
  }

  // ---------------------------------------------------------------- the invariant

  /** A queued refresh has a read in flight to wait for; reads are numbered in the order they were issued. */
  ghost predicate Flags(c: Control) {
    && (c.refreshing ==> c.inFlight != [])
    && (c.refreshQueued && !c.stopped ==> c.refreshing)
    && Numbered(c.inFlight, c.issued)
    && (c.refreshDuringPrime ==> c.Priming())
  }

  ghost predicate OneFirst(rs: seq<Request>) {
    forall r, t :: 0 <= r < t < |rs| ==> !(rs[r].first && rs[t].first)
  }

  ghost predicate OneQuery(qs: seq<Query>) {
    forall q, t :: 0 <= q < t < |qs| ==> !(qs[q].first && qs[t].first)
  }

  predicate HasFirst(rs: seq<Request>) {
    exists r :: 0 <= r < |rs| && rs[r].first
  }

  predicate HasQuery(qs: seq<Query>) {
    exists q :: 0 <= q < |qs| && qs[q].first
  }

  /** `start` awaits one call at a time. */
  ghost predicate Awaits(c: Control) {
    && (c.stage.Querying? <==> HasQuery(c.queries))
    && (c.stage.Reading? <==> HasFirst(c.inFlight))
    && OneQuery(c.queries) && OneFirst(c.inFlight)
    && (c.stage.Idle? || c.stage.Connecting? ==> !c.listening && c.inFlight == [] && c.queries == [])
  }

  ghost predicate Inv(c: Control) {
    Flags(c) && Awaits(c)
  }

  lemma AppendFirst(rs: seq<Request>, r: Request)
    ensures HasFirst(rs + [r]) <==> HasFirst(rs) || r.first
    ensures OneFirst(rs) && !(HasFirst(rs) && r.first) ==> OneFirst(rs + [r])
  {
    assert (rs + [r])[|rs|] == r;
    if HasFirst(rs) {
      var k :| 0 <= k < |rs| && rs[k].first;
      assert (rs + [r])[k] == rs[k];
    }
  }

  lemma AppendQuery(qs: seq<Query>, q: Query)
    ensures HasQuery(qs + [q]) <==> HasQuery(qs) || q.first
    ensures OneQuery(qs) && !(HasQuery(qs) && q.first) ==> OneQuery(qs + [q])
  {
    assert (qs + [q])[|qs|] == q;
    if HasQuery(qs) {
      var k :| 0 <= k < |qs| && qs[k].first;
      assert (qs + [q])[k] == qs[k];
    }
  }

  lemma DropFirst(rs: seq<Request>, i: nat)
    requires i < |rs| && OneFirst(rs)
    ensures OneFirst(Drop(rs, i)) && (HasFirst(Drop(rs, i)) <==> HasFirst(rs) && !rs[i].first)
  {
    if HasFirst(rs) {
      var k :| 0 <= k < |rs| && rs[k].first;
      assert k < i ==> Drop(rs, i)[k] == rs[k];
      assert k > i ==> Drop(rs, i)[k - 1] == rs[k];
    }
  }

  lemma DropQuery(qs: seq<Query>, i: nat)
    requires i < |qs| && OneQuery(qs)
    ensures OneQuery(Drop(qs, i)) && (HasQuery(Drop(qs, i)) <==> HasQuery(qs) && !qs[i].first)
  {
    if HasQuery(qs) {
      var k :| 0 <= k < |qs| && qs[k].first;
      assert k < i ==> Drop(qs, i)[k] == qs[k];
      assert k > i ==> Drop(qs, i)[k - 1] == qs[k];
    }
  }

  lemma ScheduleKeeps(c: Control)
    requires Awaits(c) && !c.stage.Idle? && !c.stage.Connecting?
    ensures Awaits(ScheduleRefresh(c))
  {
    if c.owner.Some? {
      AppendFirst(c.inFlight, Request(c.issued, c.owner.value, false));
    }
  }

  lemma QueryKeepsAwaits(c: Control, a: Action)
    requires Awaits(c) && Enabled(c, a) && a.OwnerReply?
    ensures Awaits(Effect(c, a))
  {
    var q := c.queries[a.query];
    DropQuery(c.queries, a.query);
    if q.first {
      assert HasQuery(c.queries);
    }
    if a.owner.Some? {
      AppendFirst(c.inFlight, Request(c.issued, a.owner.value, q.first));
    }
  }

  lemma ReplyKeepsAwaits(c: Control, a: Action)
    requires Awaits(c) && Enabled(c, a) && a.RefreshReply?
    ensures Awaits(Effect(c, a))
  {
    var r := c.inFlight[a.request];
    DropFirst(c.inFlight, a.request);
    if c.owner.Some? {
      AppendFirst(Drop(c.inFlight, a.request), Request(c.issued, c.owner.value, false));
    }
  }

  lemma StepKeepsAwaits(c: Control, a: Action)
    requires Awaits(c)
    ensures Awaits(Step(c, a))
  {
    if Enabled(c, a) {
      match a {
        case OwnerReply(_, _) => QueryKeepsAwaits(c, a);
        case RefreshReply(_, _) => ReplyKeepsAwaits(c, a);
        case Subscribed => AppendQuery(c.queries, Query(true));
        case Reconnected => AppendQuery(c.queries, Query(false));
        case NameOwnerChanged(owner) => ScheduleKeeps(c.(owner := owner));
        case ObjectSignal(_) => ScheduleKeeps(c);
        case FinishPrime => ScheduleKeeps(c.(stage := Primed, refreshDuringPrime := false));
        case _ =>
      }
    }
  }

  // ---------------------------------------------------------------- flags

  ghost predicate Numbered(rs: seq<Request>, issued: nat) {
    && (forall r :: 0 <= r < |rs| ==> rs[r].id < issued)
    && (forall r, t :: 0 <= r < t < |rs| ==> rs[r].id < rs[t].id)
  }

  lemma ScheduleFlags(c: Control)
    requires Flags(c)
    ensures Flags(ScheduleRefresh(c))
  {
  }

  lemma SettleFlags(c: Control, r: nat)
    requires Flags(c) && r < |c.inFlight|
    ensures Flags(Settle(c.(inFlight := Drop(c.inFlight, r))))
  {
    var d := c.(inFlight := Drop(c.inFlight, r), refreshing := false, refreshQueued := false);
    assert Numbered(d.inFlight, d.issued);
    if c.refreshQueued && !c.stopped {
      ScheduleFlags(d);
    }
  }

  lemma ReplyKeepsFlags(c: Control, a: Action)
    requires Flags(c) && Awaits(c) && Enabled(c, a) && a.RefreshReply?
    ensures Flags(Effect(c, a))
  {
    SettleFlags(c, a.request);
    if c.inFlight[a.request].first {
      assert HasFirst(c.inFlight);
    }
  }

  lemma QueryKeepsFlags(c: Control, a: Action)
    requires Flags(c) && Awaits(c) && Enabled(c, a) && a.OwnerReply?
    ensures Flags(Effect(c, a))
  {
    if c.queries[a.query].first {
      assert HasQuery(c.queries);
    }
  }

  lemma StepKeepsFlags(c: Control, a: Action)
    requires Flags(c) && Awaits(c)
    ensures Flags(Step(c, a))
  {
    if Enabled(c, a) {
      match a {
        case RefreshReply(_, _) => ReplyKeepsFlags(c, a);
        case OwnerReply(_, _) => QueryKeepsFlags(c, a);
        case FinishPrime => ScheduleFlags(c.(stage := Primed, refreshDuringPrime := false));
        case NameOwnerChanged(owner) => ScheduleFlags(c.(owner := owner));
        case ObjectSignal(_) => ScheduleFlags(c);
        case _ =>
      }
    }
  }

  lemma {:induction false} RunKeepsInv(actions: seq<Action>, i: nat)
    requires i <= |actions|
    ensures Inv(ControlAt(actions, i))
  {
    if i > 0 {
      RunKeepsInv(actions, i - 1);
      StepKeepsFlags(ControlAt(actions, i - 1), actions[i - 1]);
      StepKeepsAwaits(ControlAt(actions, i - 1), actions[i - 1]);
    }
  }

  // ---------------------------------------------------------------- no lost refresh

  /** Some call in flight under `epoch` was issued no earlier than number `mark`. */
  predicate Asked(c: Control, epoch: Owner, mark: nat) {
    exists r :: 0 <= r < |c.inFlight| && c.inFlight[r].id >= mark && c.inFlight[r].epoch == epoch
  }

  /** A snapshot younger than `mark` is in flight, or queued, or remembered until `start` has primed. */
  predicate Owed(c: Control, epoch: Owner, mark: nat) {
    Asked(c, epoch, mark) || c.refreshQueued || c.refreshDuringPrime
  }

  /** In this step the reply to a call issued no earlier than `mark`, under the owner current now, is dealt with. */
  predicate Answered(c: Control, a: Action, mark: nat) {
    a.RefreshReply? && Counts(c, a.request) && c.inFlight[a.request].id >= mark
  }

  /** The epoch is over: another owner, none, or the observer stopped. */
  predicate Over(c: Control, epoch: Owner) {
    c.owner != Some(epoch) || c.stopped
  }

  lemma ScheduleOwes(c: Control, epoch: Owner, mark: nat)
    requires c.owner == Some(epoch) && !c.stopped && mark <= c.issued
    ensures Owed(ScheduleRefresh(c), epoch, mark)
    ensures mark <= ScheduleRefresh(c).issued
  {
    if !c.refreshing {
      assert ScheduleRefresh(c).inFlight[|c.inFlight|] == Request(c.issued, epoch, false);
    }
  }

  /** An object signal of the current owner leaves a younger snapshot owed. */
  lemma SignalOwes(c: Control, epoch: Owner)
    requires c.listening && !Over(c, epoch)
    ensures Owed(Step(c, ObjectSignal(epoch)), epoch, c.issued)
    ensures c.issued <= Step(c, ObjectSignal(epoch)).issued
  {
    if !c.Priming() {
      ScheduleOwes(c, epoch, c.issued);
    }
  }

  lemma AskedGrows(c: Control, d: Control, epoch: Owner, mark: nat)
    requires Asked(c, epoch, mark) && |c.inFlight| <= |d.inFlight| && d.inFlight[..|c.inFlight|] == c.inFlight
    ensures Asked(d, epoch, mark)
  {
    var r :| 0 <= r < |c.inFlight| && c.inFlight[r].id >= mark && c.inFlight[r].epoch == epoch;
    assert d.inFlight[r] == d.inFlight[..|c.inFlight|][r];
  }

  lemma ReplyOwes(c: Control, a: Action, epoch: Owner, mark: nat)
    requires Inv(c) && Enabled(c, a) && a.RefreshReply? && !Over(c, epoch) && mark <= c.issued
    requires Owed(c, epoch, mark) && !Answered(c, a, mark)
    ensures Owed(Step(c, a), epoch, mark)
  {
    var dropped := c.(inFlight := Drop(c.inFlight, a.request), refreshing := false);
    if c.refreshQueued {
      ScheduleOwes(dropped.(refreshQueued := false), epoch, mark);
    } else if Asked(c, epoch, mark) {
      var r :| 0 <= r < |c.inFlight| && c.inFlight[r].id >= mark && c.inFlight[r].epoch == epoch;
      assert r != a.request;
      assert dropped.inFlight[if r < a.request then r else r - 1] == c.inFlight[r];
    }
  }

  /** What is owed stays owed, until a reply settles it or the epoch is over. */
  lemma StepOwes(c: Control, a: Action, epoch: Owner, mark: nat)
    requires Inv(c) && !Over(c, epoch) && mark <= c.issued && Owed(c, epoch, mark)
    ensures mark <= Step(c, a).issued
    ensures Over(Step(c, a), epoch) || Answered(c, a, mark) || Owed(Step(c, a), epoch, mark)
  {
    if Enabled(c, a) {
      if a.RefreshReply? {
        if !Answered(c, a, mark) {
          ReplyOwes(c, a, epoch, mark);
        }
      } else if a.FinishPrime? && c.refreshDuringPrime {
        ScheduleOwes(c.(stage := Primed, refreshDuringPrime := false), epoch, mark);
      } else if Asked(c, epoch, mark) && !Over(Step(c, a), epoch) {
        AskedGrows(c, Step(c, a), epoch, mark);
      }
    }
  }

  /** A younger snapshot is owed at point `j`, or one was dealt with, or the epoch ended, since point `i`. */
  ghost predicate NotLost(actions: seq<Action>, i: nat, j: nat, epoch: Owner, mark: nat)
    requires j <= |actions|
  {
    || (mark <= ControlAt(actions, j).issued && Owed(ControlAt(actions, j), epoch, mark))
    || (exists k :: i < k < j && Answered(ControlAt(actions, k), actions[k], mark))
    || (exists k :: i < k <= j && Over(ControlAt(actions, k), epoch))
  }

  lemma NotLostNext(actions: seq<Action>, i: nat, j: nat, epoch: Owner, mark: nat)
    requires i < j < |actions| && NotLost(actions, i, j, epoch, mark)
    ensures NotLost(actions, i, j + 1, epoch, mark)
  {
    var c := ControlAt(actions, j);
    if mark <= c.issued && Owed(c, epoch, mark) && !Over(c, epoch) {
      RunKeepsInv(actions, j);
      StepOwes(c, actions[j], epoch, mark);
    }
  }

  /**
   In every run: after an object signal from the current owner there is at every later point a
   younger snapshot in flight or still owed, or one has been dealt with, or the epoch ended meanwhile.
   */
  lemma {:induction false} NoLostRefresh(actions: seq<Action>, i: nat, j: nat, epoch: Owner)
    requires i < j <= |actions| && actions[i] == ObjectSignal(epoch)
    requires ControlAt(actions, i).listening && !Over(ControlAt(actions, i), epoch)
    ensures NotLost(actions, i, j, epoch, ControlAt(actions, i).issued)
    decreases j
  {
    if j == i + 1 {
      SignalOwes(ControlAt(actions, i), epoch);
    } else {
      NoLostRefresh(actions, i, j - 1, epoch);
      NotLostNext(actions, i, j - 1, epoch, ControlAt(actions, i).issued);
    }
  }

  /** What is owed is on its way: a queued refresh waits for a read in flight, and priming for its own calls. */
  lemma OwedIsOnItsWay(actions: seq<Action>, i: nat, epoch: Owner, mark: nat)
    requires i <= |actions|
    requires var c := ControlAt(actions, i); Owed(c, epoch, mark) && !c.stopped && !c.stage.Broken?
    ensures var c := ControlAt(actions, i);
            c.inFlight != [] || c.queries != [] || c.stage.Connecting? || c.stage.Subscribing? || c.stage.Finishing?
  {
    RunKeepsInv(actions, i);
  }
}
