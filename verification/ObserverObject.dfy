/** The observer object: each method is one stretch of its code between two awaits. */
module ObserverObject {
  import opened Wrappers
  import opened RowStore
  import Mapping
  import opened RowStoreObject
  import opened Observer

  class MmDbusObserver {
    const store: ObservationRowStore
    var stage: Stage
    var currentOwner: Option<Owner>
    var listening: bool
    var stopped: bool
    var refreshDuringPrime: bool
    var refreshing: bool
    var refreshQueued: bool
    /** The bus calls this observer awaits. */
    var queries: seq<Query>
    var inFlight: seq<Request>
    var issued: nat
    /** The list the listeners were last given. */
    var shown: Listing

    constructor ()
      ensures View() == ASLEEP && StoreView() == NOTHING && fresh(store)
    {
      store := new ObservationRowStore();
      stage, currentOwner, listening, stopped := Stage.Idle, None, false, false;
      refreshDuringPrime, refreshing, refreshQueued := false, false, false;
      queries, inFlight, issued := [], [], 0;
      shown := List(EMPTY);
    }

    ghost function View(): Control
      reads this
    {
      Control(stage, currentOwner, listening, stopped, refreshDuringPrime, refreshing, refreshQueued, queries, inFlight, issued)
    }

    ghost function StoreView(): Store
      reads this, store
    {
      Store(store.View(), shown)
    }

    method EmitList()
      modifies this`shown
      ensures StoreView() == Emit(old(StoreView()), true)
    {
      shown := store.List();
    }

    method MarkUnavailable(reason: FailureReason)
      requires Ordered(store.View())
      modifies this`shown, store
      ensures StoreView() == Mark(old(StoreView()), reason)
    {
      var due := store.MarkUnavailable(reason);
      if due {
        EmitList();
      }
    }

    /** `#runRefresh` up to its await. */
    method StartRefresh(epochOwner: Owner, first: bool)
      modifies this`refreshing, this`inFlight, this`issued
      ensures View() == BeginRefresh(old(View()), epochOwner, first)
    {
      refreshing := true;
      inFlight := inFlight + [Request(issued, epochOwner, first)];
      issued := issued + 1;
    }

    method Schedule()
      modifies this`refreshing, this`inFlight, this`issued, this`refreshQueued
      ensures View() == ScheduleRefresh(old(View()))
    {
      if currentOwner.None? || stopped {
        return;
      }
      if refreshing {
        refreshQueued := true;
        return;
      }
      StartRefresh(currentOwner.value, false);
    }

    method OnNameOwnerChanged(newOwner: Option<Owner>)
      requires Observer.Enabled(View(), NameOwnerChanged(newOwner)) && Ordered(store.View())
      modifies this, store
      ensures View() == Step(old(View()), NameOwnerChanged(newOwner))
      ensures StoreView() == StoreEffect(old(View()), old(StoreView()), NameOwnerChanged(newOwner))
    {
      if newOwner.None? {
        currentOwner := None;
        MarkUnavailable(SourceGone);
        return;
      }
      if newOwner == currentOwner {
        return;
      }
      MarkUnavailable(SourceGone);
      currentOwner := newOwner;
      Schedule();
    }

    /** Signals from anyone but the current owner are stragglers of an old epoch. */
    method OnObjectSignal(sender: Owner)
      requires Observer.Enabled(View(), ObjectSignal(sender))
      modifies this`refreshDuringPrime, this`refreshing, this`inFlight, this`issued, this`refreshQueued
      ensures View() == Step(old(View()), ObjectSignal(sender))
    {
      if currentOwner.None? || sender != currentOwner.value {
        return;
      }
      if !stage.Idle? && !stage.Primed? {
        refreshDuringPrime := true;
        return;
      }
      Schedule();
    }

    /** The reply to a `GetNameOwner` call: no owner, or one to adopt. */
    method OnOwnerReply(query: nat, owner: Option<Owner>)
      requires Observer.Enabled(View(), OwnerReply(query, owner)) && Ordered(store.View())
      modifies this, store
      ensures View() == Step(old(View()), OwnerReply(query, owner))
      ensures StoreView() == StoreEffect(old(View()), old(StoreView()), OwnerReply(query, owner))
    {
      var first := queries[query].first;
      queries := Drop(queries, query);
      currentOwner := owner;
      if owner.None? {
        stage := if first then Finishing else stage;
        MarkUnavailable(SourceGone);
        return;
      }
      stage := if first then Reading else stage;
      StartRefresh(owner.value, first);
    }

    /** `#runRefresh` from its await on, up to its `finally` block. */
    method ApplyReply(epochOwner: Owner, reply: Reply)
      requires Ordered(store.View())
      modifies this`shown, store
      ensures StoreView() == if currentOwner == Some(epochOwner) && !stopped then Apply(old(StoreView()), reply)
                             else old(StoreView())
    {
      if currentOwner != Some(epochOwner) || stopped {
        return;
      }
      match reply {
        case BusFailure =>
          MarkUnavailable(BusError);
        case Tree(tree) =>
          KeepsOrdered(store.View(), tree);
          var rowsChanged, threw := store.Reconcile(tree);
          if threw {
            MarkUnavailable(BusError);
          } else {
            var healthChanged := store.MarkHealthy();
            if rowsChanged || healthChanged {
              EmitList();
            }
          }
      }
    }

    /** The `finally` block of `#runRefresh`. */
    method SettleRefresh()
      modifies this`refreshing, this`inFlight, this`issued, this`refreshQueued
      ensures View() == Settle(old(View()))
    {
      refreshing := false;
      if refreshQueued && !stopped {
        refreshQueued := false;
        Schedule();
      }
    }

    /** A read settled; `start` goes on when it was its own. */
    method OnRefreshReply(request: nat, reply: Reply)
      requires Observer.Enabled(View(), RefreshReply(request, reply)) && Ordered(store.View())
      modifies this, store
      ensures View() == Step(old(View()), RefreshReply(request, reply))
      ensures StoreView() == StoreEffect(old(View()), old(StoreView()), RefreshReply(request, reply))
    {
      var r := inFlight[request];
      ApplyReply(r.epoch, reply);
      inFlight := Drop(inFlight, request);
      SettleRefresh();
      if r.first {
        stage := Finishing;
      }
    }

    /** `start` up to its first await; a second call returns at once. */
    method Begin() returns (started: bool)
      modifies this`stage
      ensures started <==> old(stage).Idle?
      ensures View() == Step(old(View()), Start)
    {
      if !stage.Idle? {
        return false;
      }
      stage := Stage.Connecting;
      started := true;
    }

    /** `start` once the transport is connected: from now on its events are heard. */
    method OnConnected()
      requires Observer.Enabled(View(), Connected)
      modifies this`stage, this`listening
      ensures View() == Step(old(View()), Connected)
    {
      listening := true;
      stage := Subscribing;
    }

    /** `start` once the signals are subscribed: ask who owns the bus name. */
    method OnSubscribed()
      requires Observer.Enabled(View(), Subscribed)
      modifies this`stage, this`queries
      ensures View() == Step(old(View()), Subscribed)
    {
      stage := Querying;
      queries := queries + [Query(true)];
    }

    /** The transport is gone, and the owner with it: everything goes stale. */
    method OnDisconnected()
      requires Observer.Enabled(View(), Disconnected) && Ordered(store.View())
      modifies this`currentOwner, this`shown, store
      ensures View() == Step(old(View()), Disconnected)
      ensures StoreView() == StoreEffect(old(View()), old(StoreView()), Disconnected)
    {
      currentOwner := None;
      MarkUnavailable(SourceGone);
    }

    method OnReconnected()
      requires Observer.Enabled(View(), Reconnected)
      modifies this`queries
      ensures View() == Step(old(View()), Reconnected)
    {
      queries := queries + [Query(false)];
    }

    /** `stop`: replies to reads in flight no longer count. */
    method Halt()
      modifies this`stopped
      ensures View() == Step(old(View()), Stop)
      ensures stopped && forall r: nat :: !Counts(View(), r)
    {
      if stopped {
        return;
      }
      stopped := true;
    }

    /** The last stretch of `start`. */
    method FinishStart()
      requires Observer.Enabled(View(), FinishPrime)
      modifies this
      ensures View() == Step(old(View()), FinishPrime)
    {
      stage := Primed;
      if refreshDuringPrime {
        refreshDuringPrime := false;
        Schedule();
      }
    }
  }

  lemma KeepsOrdered(s: Rows, tree: Mapping.Tree)
    requires Ordered(s)
    ensures Ordered(Reconcile(s, tree).rows)
  {
    var paths, read := Mapping.ModemPaths(tree), ReadingsOf(tree);
    VisitAllOrdered(s, paths, read);
    KeptExact(VisitAll(s, paths, read).rows.order, PathSet(paths));
  }

  lemma {:induction false} VisitAllOrdered(s: Rows, paths: seq<string>, read: string -> Reading)
    requires Ordered(s)
    ensures Ordered(VisitAll(s, paths, read).rows)
  {
    if paths != [] {
      var front := paths[..|paths| - 1];
      VisitAllOrdered(s, front, read);
      VisitOrdered(VisitAll(s, front, read).rows, paths[|paths| - 1], read(paths[|paths| - 1]));
    }
  }
}
