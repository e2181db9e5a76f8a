/** The row store object, proved against the operations on values in `RowStore`. */
module RowStoreObject {
  import opened Wrappers
  import opened Snapshot
  import opened Mapping
  import opened RowStore

  class ObservationRowStore {
    /** The keys of the row map in insertion order, and the map itself. */
    var order: seq<string>
    var row: map<string, Row>
    var revCounter: nat
    var sourceHealthy: bool
    var failureReason: FailureReason

    constructor ()
      ensures View() == EMPTY
    {
      order, row, revCounter, sourceHealthy, failureReason := [], map[], 0, false, NotStarted;
    }

    ghost function View(): Rows
      reads this
    {
      Rows(order, row, revCounter, sourceHealthy, failureReason)
    }

    /** Stamp and write a row that is not up to date; the guards may refuse it after the counter is spent. */
    method Write(path: string, facts: Facts, fp: string) returns (threw: bool)
      requires !UpToDate(View(), path, Mapped(facts, fp, CheckSnapshot(facts).None?))
      modifies this
      ensures Attempt(View(), !threw, threw) == Visit(old(View()), path, Mapped(facts, fp, CheckSnapshot(facts).None?))
    {
      revCounter := revCounter + 1;
      var snapshot := CreateSnapshot(facts, revCounter);
      if snapshot.Err? {
        return true;
      }
      order := if path in row then order else order + [path];
      row := row[path := Row(snapshot.value, fp)];
      threw := false;
    }

    /** Map one path and write its row, unless the row is already up to date. */
    method Upsert(tree: Tree, path: string) returns (changed: bool, threw: bool)
      modifies this
      ensures Attempt(View(), changed, threw) == Visit(old(View()), path, ReadingAt(tree, path))
    {
      var reading := ReadingAt(tree, path);
      if reading.NoRuntimePath? {
        return false, true;
      }
      var fp := reading.fingerprint;
      if path in row && row[path].fingerprint == fp && row[path].snapshot.facts.sourceHealth.Live? {
        return false, false;
      }
      threw := Write(path, reading.facts, fp);
      changed := !threw;
    }

    method Delete(path: string)
      modifies this`order, this`row
      ensures View() == Deleted(old(View()), path)
    {
      order := Without(order, path);
      row := row - {path};
    }

    method VisitPaths(tree: Tree, paths: seq<string>) returns (changed: bool, threw: bool)
      requires Ordered(View())
      modifies this
      ensures Attempt(View(), changed, threw) == VisitAll(old(View()), paths, ReadingsOf(tree))
      ensures Ordered(View())
    {
      changed, threw := false, false;
      ghost var s, read := View(), ReadingsOf(tree);
      for i := 0 to |paths|
        invariant Attempt(View(), changed, false) == VisitAll(s, paths[..i], read) && Ordered(View())
      {
        var path := paths[i];
        assert paths[..i + 1][..i] == paths[..i];
        assert read(path) == ReadingAt(tree, path);
        VisitOrdered(View(), path, read(path));
        var upserted, failed := Upsert(tree, path);
        if failed {
          ThrowEnds(s, paths, read, i + 1);
          return changed, true;
        }
        changed := changed || upserted;
      }
      assert paths[..|paths|] == paths;
    }

    /** Delete every row whose path was not seen. */
    method RemoveUnseen(seen: set<string>) returns (removed: bool)
      requires Ordered(View())
      modifies this`order, this`row
      ensures View() == Sweep(old(View()), seen)
      ensures removed <==> exists p :: p in old(row) && p !in seen
    {
      removed := false;
      ghost var s := View();
      var keys := order;
      SweepStart(s, seen);
      for i := 0 to |keys|
        invariant View() == SweptTo(s, seen, i)
        invariant removed == RemovedBy(keys, seen, i)
      {
        var path := keys[i];
        OrderedLone(s, i);
        if path in seen {
          SweepSeen(s, seen, i);
        } else {
          SweepUnseen(s, seen, i);
          Delete(path);
          removed := true;
        }
      }
      SweepDone(s, seen);
    }

    /** The only removal path: an omission from an authoritative tree. */
    method Reconcile(tree: Tree) returns (changed: bool, threw: bool)
      requires Ordered(View())
      modifies this
      ensures Attempt(View(), changed, threw) == RowStore.Reconcile(old(View()), tree)
    {
      var paths := ModemPaths(tree);
      changed, threw := VisitPaths(tree, paths);
      if !threw {
        var removed := RemoveUnseen(PathSet(paths));
        changed := changed || removed;
      }
    }

    /** Every row goes stale and is retained; the flag says whether an emission is due. */
    method MarkUnavailable(reason: FailureReason) returns (due: bool)
      requires Ordered(View())
      modifies this
      ensures View() == RowStore.MarkUnavailable(old(View()), reason)
      ensures due == MarkingShows(old(View()))
    {
      var wasHealthy := sourceHealthy;
      var changed := false;
      ghost var s := View();
      for i := 0 to |order|
        invariant Marking(s, i, View(), changed)
      {
        var path := order[i];
        OrderedLone(s, i);
        MarkStep(s, i, View(), changed);
        if !row[path].snapshot.facts.sourceHealth.SourceUnavailable? {
          row := row[path := row[path].(snapshot := MarkSourceUnavailable(row[path].snapshot))];
          changed := true;
        }
      }
      MarkDone(s, View(), changed);
      sourceHealthy := false;
      failureReason := reason;
      due := changed || wasHealthy;
    }

    /** Returns whether health flipped. */
    method MarkHealthy() returns (flipped: bool)
      modifies this
      ensures View() == RowStore.MarkHealthy(old(View())) && flipped == !old(sourceHealthy)
    {
      flipped := !sourceHealthy;
      sourceHealthy := true;
    }

    method List() returns (r: Listing)
      ensures r == RowStore.List(View())
    {
      var rows := [];
      for i := 0 to |order|
        invariant rows == Snapshots(order[..i], row)
      {
        assert order[..i + 1][..i] == order[..i];
        if order[i] in row {
          rows := rows + [row[order[i]].snapshot];
        }
      }
      assert order[..|order|] == order;
      r := if sourceHealthy then Healthy(rows) else Failing(failureReason, rows);
    }
  }

  function Deleted(s: Rows, path: string): Rows {
    s.(order := Without(s.order, path), row := s.row - {path})
  }

  function Without(order: seq<string>, path: string): seq<string> {
    if order == [] then []
    else if order[0] == path then order[1..]
    else [order[0]] + Without(order[1..], path)
  }

  lemma VisitOrdered(s: Rows, path: string, r: Reading)
    requires Ordered(s)
    ensures Ordered(Visit(s, path, r).rows)
  {
  }

  lemma {:induction false} WithoutAt(front: seq<string>, path: string, back: seq<string>)
    requires path !in front
    ensures Without(front + [path] + back, path) == front + back
  {
    var all := front + [path] + back;
    if front == [] {
      assert all[1..] == back;
    } else {
      assert all[1..] == front[1..] + [path] + back;
      WithoutAt(front[1..], path, back);
    }
  }

  /** A throw at one path is what the whole loop comes to. */
  lemma {:induction false} ThrowEnds(s: Rows, paths: seq<string>, read: string -> Reading, i: nat)
    requires i <= |paths| && VisitAll(s, paths[..i], read).threw
    ensures VisitAll(s, paths, read) == VisitAll(s, paths[..i], read)
    decreases |paths|
  {
    if i == |paths| {
      assert paths[..i] == paths;
    } else {
      assert paths[..|paths| - 1][..i] == paths[..i];
      ThrowEnds(s, paths[..|paths| - 1], read, i);
    }
  }

  // ---------------------------------------------------------------- what the loops have done so far

  /** Nothing else in `order` is `order[i]`. */
  ghost predicate Lone(order: seq<string>, i: nat)
    requires i < |order|
  {
    order[i] !in order[..i] && order[i] !in order[i + 1..]
  }

  lemma OrderedLone(s: Rows, i: nat)
    requires Ordered(s) && i < |s.order|
    ensures Lone(s.order, i) && s.order[i] in s.row
  {
    assert s.order[i] in s.order;
  }

  /** The rows once the first `i` keys have been looked at. */
  function SweptTo(s: Rows, seen: set<string>, i: nat): Rows
    requires i <= |s.order|
  {
    s.(order := Kept(s.order[..i], seen) + s.order[i..], row := Sweep(s, seen + PathSet(s.order[i..])).row)
  }

  predicate RemovedBy(order: seq<string>, seen: set<string>, i: nat)
    requires i <= |order|
  {
    exists j :: 0 <= j < i && order[j] !in seen
  }

  lemma KeysAt(order: seq<string>, i: nat)
    requires i < |order|
    ensures order[..i + 1] == order[..i] + [order[i]] && order[i..] == [order[i]] + order[i + 1..]
  {
  }

  lemma KeptNext(front: seq<string>, seen: set<string>, path: string)
    ensures Kept(front + [path], seen) == Kept(front, seen) + (if path in seen then [path] else [])
  {
    assert (front + [path])[..|front|] == front;
  }

  lemma SweepSeen(s: Rows, seen: set<string>, i: nat)
    requires i < |s.order| && s.order[i] in seen
    ensures SweptTo(s, seen, i + 1) == SweptTo(s, seen, i)
    ensures RemovedBy(s.order, seen, i + 1) == RemovedBy(s.order, seen, i)
  {
    SeenOrder(s.order, seen, i);
    assert seen + PathSet(s.order[i..]) == seen + PathSet(s.order[i + 1..]) by {
      KeysAt(s.order, i);
    }
  }

  lemma SeenOrder(order: seq<string>, seen: set<string>, i: nat)
    requires i < |order| && order[i] in seen
    ensures Kept(order[..i + 1], seen) + order[i + 1..] == Kept(order[..i], seen) + order[i..]
  {
    KeysAt(order, i);
    KeptNext(order[..i], seen, order[i]);
  }

  lemma SweepUnseenOrder(order: seq<string>, seen: set<string>, i: nat)
    requires i < |order| && order[i] !in seen && Lone(order, i)
    ensures Without(Kept(order[..i], seen) + order[i..], order[i]) == Kept(order[..i + 1], seen) + order[i + 1..]
  {
    var path, front, rest := order[i], order[..i], order[i + 1..];
    KeysAt(order, i);
    KeptNext(front, seen, path);
    KeptExact(front, seen);
    WithoutAt(Kept(front, seen), path, rest);
    assert Kept(front, seen) + ([path] + rest) == Kept(front, seen) + [path] + rest;
  }

  lemma SweepUnseenRow(s: Rows, seen: set<string>, i: nat)
    requires i < |s.order| && s.order[i] !in seen && Lone(s.order, i)
    ensures Sweep(s, seen + PathSet(s.order[i..])).row - {s.order[i]} == Sweep(s, seen + PathSet(s.order[i + 1..])).row
  {
    KeysAt(s.order, i);
    assert seen + PathSet(s.order[i..]) == seen + PathSet(s.order[i + 1..]) + {s.order[i]};
  }

  lemma SweepUnseen(s: Rows, seen: set<string>, i: nat)
    requires i < |s.order| && s.order[i] !in seen && Lone(s.order, i)
    ensures var t := SweptTo(s, seen, i);
            SweptTo(s, seen, i + 1) == Deleted(t, s.order[i])
    ensures RemovedBy(s.order, seen, i + 1)
  {
    SweepUnseenOrder(s.order, seen, i);
    SweepUnseenRow(s, seen, i);
  }

  lemma SweepStart(s: Rows, seen: set<string>)
    requires Ordered(s)
    ensures SweptTo(s, seen, 0) == s
  {
    assert s.order[0..] == s.order;
    assert Sweep(s, seen + PathSet(s.order)).row == s.row;
  }

  lemma SweepDone(s: Rows, seen: set<string>)
    requires Ordered(s)
    ensures SweptTo(s, seen, |s.order|) == Sweep(s, seen)
    ensures RemovedBy(s.order, seen, |s.order|) <==> exists p :: p in s.row && p !in seen
  {
    assert s.order[..|s.order|] == s.order;
    assert s.order[|s.order|..] == [];
    assert seen + PathSet([]) == seen;
    if p :| p in s.row && p !in seen {
      assert p in s.order;
    }
  }

  /** The first `i` rows have been marked. */
  ghost predicate Marking(s: Rows, i: nat, t: Rows, changed: bool) {
    && i <= |s.order|
    && t == s.(row := t.row) && t.row.Keys == s.row.Keys
    && (forall p :: p in s.row ==> t.row[p] == if p in s.order[..i] then StaleRow(s.row[p]) else s.row[p])
    && (changed <==> exists p :: p in s.order[..i] && p in s.row && !s.row[p].snapshot.facts.sourceHealth.SourceUnavailable?)
  }

  lemma MarkStep(s: Rows, i: nat, t: Rows, changed: bool)
    requires Marking(s, i, t, changed) && i < |s.order| && Lone(s.order, i) && s.order[i] in s.row
    ensures var path := s.order[i];
            && path in t.row
            && (if t.row[path].snapshot.facts.sourceHealth.SourceUnavailable? then Marking(s, i + 1, t, changed)
                else Marking(s, i + 1, t.(row := t.row[path := t.row[path].(snapshot := MarkSourceUnavailable(t.row[path].snapshot))]), true))
  {
    KeysAt(s.order, i);
    assert forall p :: p in s.order[..i + 1] <==> p in s.order[..i] || p == s.order[i];
  }

  lemma MarkDone(s: Rows, t: Rows, changed: bool)
    requires Ordered(s) && Marking(s, |s.order|, t, changed)
    ensures t.row == (map p | p in s.row :: StaleRow(s.row[p]))
    ensures changed || s.sourceHealthy <==> MarkingShows(s)
  {
    assert s.order[..|s.order|] == s.order;
  }
}
