/** What the observer's rows and listeners can rely on: removal needs current authority, and nothing is shown late. */
module ObserverRows {
  import opened Wrappers
  import opened Snapshot
  import opened Mapping
  import opened RowStore
  import opened Observer

  // ---------------------------------------------------------------- rows stay valid

  lemma MarkValid(s: Store, reason: FailureReason)
    requires Valid(s.rows)
    ensures Valid(Mark(s, reason).rows)
  {
    MarkKeepsValid(s.rows, reason);
  }

  lemma ApplyValid(s: Store, reply: Reply)
    requires Valid(s.rows)
    ensures Valid(Apply(s, reply).rows)
  {
    match reply {
      case BusFailure => MarkValid(s, BusError);
      case Tree(tree) =>
        ReconcileKeepsValid(s.rows, tree);
        var a := Reconcile(s.rows, tree);
        if a.threw {
          MarkValid(s.(rows := a.rows), BusError);
        }
    }
  }

  lemma StoreEffectValid(c: Control, s: Store, a: Action)
    requires Valid(s.rows) && Observer.Enabled(c, a)
    ensures Valid(StoreEffect(c, s, a).rows)
  {
    match a {
      case RefreshReply(_, reply) => ApplyValid(s, reply);
      case _ => MarkValid(s, SourceGone);
    }
  }

  lemma {:induction false} RunValid(actions: seq<Action>, i: nat)
    requires i <= |actions|
    ensures Valid(At(actions, i).store.rows)
  {
    if i > 0 {
      RunValid(actions, i - 1);
      var s := At(actions, i - 1);
      if Observer.Enabled(s.control, actions[i - 1]) {
        StoreEffectValid(s.control, s.store, actions[i - 1]);
      }
    }
  }

  // ---------------------------------------------------------------- removal

  /** A reply that counts, whose tree the store takes in whole and which does not list `path`. */
  predicate OmittedByAuthority(c: Control, s: Store, a: Action, path: string) {
    && a.RefreshReply? && Counts(c, a.request) && a.reply.Tree?
    && !Reconcile(s.rows, a.reply.tree).threw && path !in ModemPaths(a.reply.tree)
  }

  lemma MarkRetains(s: Store, reason: FailureReason)
    ensures Mark(s, reason).rows.row.Keys == s.rows.row.Keys
  {
    MarkExact(s.rows, reason);
  }

  lemma ApplyRemoves(s: Store, tree: Mapping.Tree, path: string)
    requires Valid(s.rows) && path in s.rows.row
    ensures path !in Apply(s, Reply.Tree(tree)).rows.row <==> !Reconcile(s.rows, tree).threw && path !in ModemPaths(tree)
  {
    ReconcileRefines(s.rows, tree);
    var a := Reconcile(s.rows, tree);
    if a.threw {
      MarkRetains(s.(rows := a.rows), BusError);
    }
  }

  lemma EffectRemoves(c: Control, s: Store, a: Action, path: string)
    requires Valid(s.rows) && Observer.Enabled(c, a) && path in s.rows.row
    ensures path !in StoreEffect(c, s, a).rows.row <==> OmittedByAuthority(c, s, a, path)
  {
    MarkRetains(s, SourceGone);
    MarkRetains(s, BusError);
    if a.RefreshReply? && a.reply.Tree? && Counts(c, a.request) {
      ApplyRemoves(s, a.reply.tree, path);
    }
  }

  lemma NextRemoves(s: State, a: Action, path: string)
    requires Valid(s.store.rows) && path in s.store.rows.row
    ensures path !in Next(s, a).store.rows.row <==> OmittedByAuthority(s.control, s.store, a, path)
  {
    if Observer.Enabled(s.control, a) {
      EffectRemoves(s.control, s.store, a, path);
    }
  }

  /**
   In every run a row disappears in exactly those steps that apply a complete tree which omits the
   modem and was asked for under the owner that is current when the reply is applied. Owner loss,
   disconnection, other senders' signals, failed reads and superseded replies remove nothing.
   */
  lemma EpochScopedRemoval(actions: seq<Action>, i: nat, path: string)
    requires i < |actions| && path in At(actions, i).store.rows.row
    ensures path !in At(actions, i + 1).store.rows.row <==>
            OmittedByAuthority(At(actions, i).control, At(actions, i).store, actions[i], path)
  {
    RunValid(actions, i);
    NextRemoves(At(actions, i), actions[i], path);
  }

  // ---------------------------------------------------------------- what listeners have seen

  /** Same rows in the same order, and the same verdict on the source; a failure's reason may differ. */
  predicate SameView(a: Listing, b: Listing) {
    a.rows == b.rows && (a.Healthy? <==> b.Healthy?)
  }

  /** Same rows, order and health: nothing a listener could see differs. */
  predicate LooksSame(s: Rows, t: Rows) {
    s.order == t.order && s.row == t.row && s.sourceHealthy == t.sourceHealthy
  }

  lemma {:induction false} OrderKept(s: Rows, paths: seq<string>, read: string -> Reading)
    ensures var t := VisitAll(s, paths, read).rows;
            && s.row.Keys <= t.row.Keys && t.sourceHealthy == s.sourceHealthy
            && (t.row.Keys <= s.row.Keys ==> t.order == s.order)
  {
    if paths != [] {
      OrderKept(s, paths[..|paths| - 1], read);
    }
  }

  lemma MarkLooksSame(s: Rows, reason: FailureReason)
    requires !MarkingShows(s)
    ensures LooksSame(s, MarkUnavailable(s, reason))
  {
    MarkExact(s, reason);
  }

  /** A reconcile that leaves the row map alone leaves its order alone. */
  lemma UnchangedOrder(s: Rows, paths: seq<string>, read: string -> Reading)
    requires Ordered(s) && ReconcileWith(s, paths, read).rows.row == s.row
    requires ReconcileWith(s, paths, read).threw || !ReconcileWith(s, paths, read).changed
    ensures LooksSame(s, ReconcileWith(s, paths, read).rows)
  {
    OrderKept(s, paths, read);
    var v := VisitAll(s, paths, read);
    if !v.threw {
      var a := ReconcileWith(s, paths, read);
      if !a.changed {
        assert v.rows.row == a.rows.row;
        assert forall p :: p in s.order ==> p in s.row && p in v.rows.row;
        KeptAll(s.order, PathSet(paths));
      }
    }
  }

  /** What a reconcile rewrites is live, so where nothing is live nothing was rewritten. */
  lemma NothingRewritten(s: Rows, paths: seq<string>, read: string -> Reading, a: Attempt)
    requires Reconciled(s, paths, read, a) && LiveReadings(read) && a.threw && !MarkingShows(a.rows)
    ensures a.rows.row == s.row
  {
    assert forall p :: p in a.rows.row ==> p in s.row && a.rows.row[p] == s.row[p];
  }

  /** A reconcile that throws and leaves nothing live behind has changed nothing. */
  lemma ThrownLooksSame(s: Rows, tree: Mapping.Tree)
    requires Valid(s) && Reconcile(s, tree).threw && !MarkingShows(Reconcile(s, tree).rows)
    ensures LooksSame(s, Reconcile(s, tree).rows)
  {
    ReconcileKeepsValid(s, tree);
    FingerprintsFaithful(s, tree);
    NothingRewritten(s, ModemPaths(tree), ReadingsOf(tree), Reconcile(s, tree));
    UnchangedOrder(s, ModemPaths(tree), ReadingsOf(tree));
  }

  lemma QuietReconcileLooksSame(s: Rows, tree: Mapping.Tree)
    requires Valid(s) && !Reconcile(s, tree).threw && !Reconcile(s, tree).changed
    ensures LooksSame(s, Reconcile(s, tree).rows)
  {
    ReconcileKeepsValid(s, tree);
    UnchangedOrder(s, ModemPaths(tree), ReadingsOf(tree));
  }

  lemma LooksSameViews(s: Rows, t: Rows, shown: Listing)
    requires LooksSame(s, t) && SameView(shown, List(s))
    ensures SameView(shown, List(t))
  {
  }

  lemma MarkCurrent(s: Store, t: Rows, reason: FailureReason)
    requires SameView(s.shown, List(s.rows)) && (!MarkingShows(t) ==> LooksSame(s.rows, t))
    ensures var u := Mark(s.(rows := t), reason); SameView(u.shown, List(u.rows))
  {
    if !MarkingShows(t) {
      MarkLooksSame(t, reason);
      LooksSameViews(s.rows, MarkUnavailable(t, reason), s.shown);
    }
  }

  lemma ApplyCurrent(s: Store, reply: Reply)
    requires Valid(s.rows) && SameView(s.shown, List(s.rows))
    ensures SameView(Apply(s, reply).shown, List(Apply(s, reply).rows))
  {
    match reply {
      case BusFailure => MarkCurrent(s, s.rows, BusError);
      case Tree(tree) =>
        var a := Reconcile(s.rows, tree);
        if a.threw {
          if !MarkingShows(a.rows) {
            ThrownLooksSame(s.rows, tree);
          }
          MarkCurrent(s, a.rows, BusError);
        } else if !a.changed && a.rows.sourceHealthy {
          QuietReconcileLooksSame(s.rows, tree);
          LooksSameViews(s.rows, MarkHealthy(a.rows), s.shown);
        }
    }
  }

  /**
   In every run the list last given to the listeners is the current one, but for the reason of a failure:
   every change of rows or of source health is emitted in the very step that makes it.
   */
  lemma {:induction false} EmissionsCurrent(actions: seq<Action>, i: nat)
    requires i <= |actions|
    ensures SameView(At(actions, i).store.shown, List(At(actions, i).store.rows))
  {
    if i > 0 {
      EmissionsCurrent(actions, i - 1);
      RunValid(actions, i - 1);
      var s, a := At(actions, i - 1), actions[i - 1];
      if Observer.Enabled(s.control, a) {
        EffectCurrent(s.control, s.store, a);
      }
    }
  }

  lemma EffectCurrent(c: Control, s: Store, a: Action)
    requires Valid(s.rows) && Observer.Enabled(c, a) && SameView(s.shown, List(s.rows))
    ensures SameView(StoreEffect(c, s, a).shown, List(StoreEffect(c, s, a).rows))
  {
    match a {
      case RefreshReply(_, reply) => ApplyCurrent(s, reply);
      case _ => MarkCurrent(s, s.rows, SourceGone);
    }
  }

  // ---------------------------------------------------------------- when modems are shown live

  /** A reply to a read that was asked under the owner of this moment, to an observer that still runs. */
  predicate FromOwner(c: Control, a: Action) {
    && a.RefreshReply? && a.request < |c.inFlight|
    && c.owner == Some(c.inFlight[a.request].epoch) && !c.stopped
  }

  predicate Whole(reply: Reply) {
    reply.Tree? && forall p :: p in ModemPaths(reply.tree) ==> !Refusable(reply.tree, p)
  }

  /** The current owner's complete tree arrives, and every modem in it can be shown. */
  predicate Restores(c: Control, a: Action) {
    FromOwner(c, a) && Whole(a.reply)
  }

  /** The transport disconnects, the owner leaves, changes or turns out not to exist, or its own read goes wrong. */
  predicate GoesDown(c: Control, a: Action) {
    || (a.Disconnected? && c.listening && !c.stopped)
    || (a.OwnerReply? && a.query < |c.queries| && a.owner.None?)
    || (a.NameOwnerChanged? && c.listening && (a.newOwner.None? || (a.newOwner.value != "" && a.newOwner != c.owner)))
    || (FromOwner(c, a) && !Whole(a.reply))
  }

  /** Every row is live while the source is healthy, and none otherwise. */
  ghost predicate AllAlike(s: Rows) {
    forall p :: p in s.row ==> s.row[p].snapshot.facts.sourceHealth == if s.sourceHealthy then Live else SourceUnavailable
  }

  lemma MarkAlike(s: Store, reason: FailureReason)
    ensures AllAlike(Mark(s, reason).rows) && !Mark(s, reason).rows.sourceHealthy
  {
    MarkExact(s.rows, reason);
  }

  lemma ApplyAlike(s: Store, reply: Reply)
    requires Valid(s.rows)
    ensures AllAlike(Apply(s, reply).rows) && (Apply(s, reply).rows.sourceHealthy <==> Whole(reply))
  {
    match reply {
      case BusFailure => MarkAlike(s, BusError);
      case Tree(tree) =>
        ReconcileRefines(s.rows, tree);
        var a := Reconcile(s.rows, tree);
        if a.threw {
          MarkAlike(s.(rows := a.rows), BusError);
        } else {
          forall p | p in a.rows.row ensures a.rows.row[p].snapshot.facts.sourceHealth.Live? {
            assert RowFor(a.rows, tree, p);
          }
        }
    }
  }

  lemma NextAlike(s: State, a: Action)
    requires Valid(s.store.rows) && AllAlike(s.store.rows)
    ensures var t := Next(s, a);
            && AllAlike(t.store.rows)
            && (t.store.rows.sourceHealthy <==> Restores(s.control, a) || (s.store.rows.sourceHealthy && !GoesDown(s.control, a)))
  {
    if FromOwner(s.control, a) {
      ApplyAlike(s.store, a.reply);
    } else {
      MarkAlike(s.store, SourceGone);
    }
  }

  function RestoresIn(actions: seq<Action>): nat -> bool {
    (k: nat) => k < |actions| && Restores(At(actions, k).control, actions[k])
  }

  function GoesDownIn(actions: seq<Action>): nat -> bool {
    (k: nat) => k < |actions| && GoesDown(At(actions, k).control, actions[k])
  }

  /** Something came up at a step before `i`, and nothing went down at a later one. */
  ghost predicate UpAndNotDown(up: nat -> bool, down: nat -> bool, i: nat) {
    exists k: nat :: k < i && up(k) && forall l: nat :: k < l < i ==> !down(l)
  }

  /** Some earlier step brought the current owner's complete tree, and nothing went down since. */
  ghost predicate UpSince(actions: seq<Action>, i: nat) {
    UpAndNotDown(RestoresIn(actions), GoesDownIn(actions), i)
  }

  lemma UpNext(up: nat -> bool, down: nat -> bool, i: nat)
    ensures UpAndNotDown(up, down, i + 1) <==> up(i) || (UpAndNotDown(up, down, i) && !down(i))
  {
    if up(i) {
      assert forall l: nat :: i < l < i + 1 ==> !down(l);
    } else if UpAndNotDown(up, down, i + 1) {
      var k: nat :| k < i + 1 && up(k) && forall l: nat :: k < l < i + 1 ==> !down(l);
      assert k < i;
    }
  }

  /** At point `i` the rows are alike, and live exactly if the source is up. */
  ghost predicate AlikeAt(actions: seq<Action>, i: nat)
    requires i <= |actions|
  {
    AllAlike(At(actions, i).store.rows) && (At(actions, i).store.rows.sourceHealthy <==> UpSince(actions, i))
  }

  lemma AlikeNext(actions: seq<Action>, i: nat)
    requires i < |actions| && AlikeAt(actions, i)
    ensures AlikeAt(actions, i + 1)
  {
    RunValid(actions, i);
    NextAlike(At(actions, i), actions[i]);
    UpNext(RestoresIn(actions), GoesDownIn(actions), i);
    assert RestoresIn(actions)(i) == Restores(At(actions, i).control, actions[i]);
    assert GoesDownIn(actions)(i) == GoesDown(At(actions, i).control, actions[i]);
  }

  lemma BootAlike(actions: seq<Action>)
    ensures AlikeAt(actions, 0)
  {
    assert At(actions, 0) == BOOT;
    assert !UpSince(actions, 0);
  }

  lemma {:induction false} RunAlike(actions: seq<Action>, i: nat)
    requires i <= |actions|
    ensures AlikeAt(actions, i)
  {
    if i == 0 {
      BootAlike(actions);
    } else {
      RunAlike(actions, i - 1);
      AlikeNext(actions, i - 1);
    }
  }

  /**
   In every run listeners see a healthy list, and every row in the store is live, exactly when some earlier step
   brought the complete tree of the owner of that moment and since then the transport did not disconnect, the owner
   neither left nor changed nor was found missing, and no read of its own failed or was refused. At all other
   times no row is live.
   */
  lemma HealthExact(actions: seq<Action>, i: nat)
    requires i <= |actions|
    ensures At(actions, i).store.shown.Healthy? <==> UpSince(actions, i)
    ensures forall p :: p in At(actions, i).store.rows.row ==>
              At(actions, i).store.rows.row[p].snapshot.facts.sourceHealth
              == if UpSince(actions, i) then Live else SourceUnavailable
  {
    RunAlike(actions, i);
    EmissionsCurrent(actions, i);
  }

  /** Whatever takes the owner away takes the source down, and nothing restores it without one. */
  lemma DownWithoutOwner(c: Control, a: Action)
    requires Step(c, a).owner.None?
    ensures !Restores(c, a) && (c.owner.None? || GoesDown(c, a))
  {
  }

  /** In every run a bus without an owner has no live modem to show. */
  lemma {:induction false} NoOwnerNothingLive(actions: seq<Action>, i: nat)
    requires i <= |actions| && At(actions, i).control.owner.None?
    ensures !At(actions, i).store.rows.sourceHealthy && !At(actions, i).store.shown.Healthy?
    ensures forall p :: p in At(actions, i).store.rows.row ==>
              At(actions, i).store.rows.row[p].snapshot.facts.sourceHealth.SourceUnavailable?
  {
    HealthExact(actions, i);
    RunAlike(actions, i);
    OwnerlessIsDown(actions, i);
  }

  ghost predicate DownIfOwnerless(actions: seq<Action>, i: nat)
    requires i <= |actions|
  {
    At(actions, i).control.owner.None? ==> !UpSince(actions, i)
  }

  lemma OwnerlessNext(actions: seq<Action>, i: nat)
    requires i < |actions| && DownIfOwnerless(actions, i)
    ensures DownIfOwnerless(actions, i + 1)
  {
    var c, a := At(actions, i).control, actions[i];
    assert At(actions, i + 1).control == Step(c, a);
    if Step(c, a).owner.None? {
      DownWithoutOwner(c, a);
      UpNext(RestoresIn(actions), GoesDownIn(actions), i);
      assert RestoresIn(actions)(i) == Restores(c, a) && GoesDownIn(actions)(i) == GoesDown(c, a);
    }
  }

  lemma {:induction false} OwnerlessIsDown(actions: seq<Action>, i: nat)
    requires i <= |actions|
    ensures DownIfOwnerless(actions, i)
  {
    if i == 0 {
      assert !UpSince(actions, 0);
    } else {
      OwnerlessIsDown(actions, i - 1);
      OwnerlessNext(actions, i - 1);
    }
  }
}
