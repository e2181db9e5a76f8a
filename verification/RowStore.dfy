/** The observer's rows: revisions, source health and the only path that removes a modem (`backend/row-store.ts`). */
module RowStore {
  import opened Wrappers
  import opened Snapshot
  import opened Mapping

  datatype Row = Row(snapshot: CellularSnapshot, fingerprint: string)

  datatype FailureReason = NotStarted | SourceGone | BusError

  /** A JavaScript `Map` of rows: `order` is its insertion order. */
  datatype Rows = Rows(
    order: seq<string>,
    row: map<string, Row>,
    revCounter: nat,
    sourceHealthy: bool,
    failureReason: FailureReason)

  const EMPTY := Rows([], map[], 0, false, NotStarted)

  datatype Listing =
    | Healthy(rows: seq<CellularSnapshot>)
    | Failing(reason: FailureReason, rows: seq<CellularSnapshot>)

  /** What a method that may throw leaves behind. */
  datatype Attempt = Attempt(rows: Rows, changed: bool, threw: bool)

  // ---------------------------------------------------------------- the operations, on values

  function Put(s: Rows, path: string, row: Row): Rows {
    s.(order := if path in s.row then s.order else s.order + [path], row := s.row[path := row])
  }

  /** What the mapping and the guards make of one modem path. */
  datatype Reading = NoRuntimePath | Mapped(facts: Facts, fingerprint: string, passes: bool)

  function ReadingAt(tree: Tree, path: string): Reading {
    match MapModem(tree, path)
    case Err(_) => NoRuntimePath
    case Ok(f) => Mapped(f, Fingerprint(f), CheckSnapshot(f).None?)
  }

  function ReadingsOf(tree: Tree): string -> Reading {
    p => ReadingAt(tree, p)
  }

  /** The row already shows this reading, live. */
  predicate UpToDate(s: Rows, path: string, r: Reading) {
    path in s.row && r.Mapped? && s.row[path].fingerprint == r.fingerprint && s.row[path].snapshot.facts.sourceHealth.Live?
  }

  /** One modem path. The counter is spent before the guards look at the new snapshot. */
  function Visit(s: Rows, path: string, r: Reading): Attempt {
    if r.NoRuntimePath? then Attempt(s, false, true)
    else if UpToDate(s, path, r) then Attempt(s, false, false)
    else
      var t := s.(revCounter := s.revCounter + 1);
      if !r.passes then Attempt(t, false, true)
      else Attempt(Put(t, path, Row(CellularSnapshot(r.facts, t.revCounter), r.fingerprint)), true, false)
  }

  /** Every modem path in order; a throw ends the loop. */
  function VisitAll(s: Rows, paths: seq<string>, read: string -> Reading): Attempt {
    if paths == [] then Attempt(s, false, false)
    else
      var before := VisitAll(s, paths[..|paths| - 1], read);
      if before.threw then before
      else
        var last := Visit(before.rows, paths[|paths| - 1], read(paths[|paths| - 1]));
        last.(changed := before.changed || last.changed)
  }

  function Kept(order: seq<string>, seen: set<string>): seq<string> {
    if order == [] then []
    else Kept(order[..|order| - 1], seen) + (if order[|order| - 1] in seen then [order[|order| - 1]] else [])
  }

  /** Drop every row whose path the tree does not have. */
  function Sweep(s: Rows, seen: set<string>): Rows {
    s.(order := Kept(s.order, seen), row := map p | p in s.row && p in seen :: s.row[p])
  }

  function PathSet(paths: seq<string>): set<string> {
    set p | p in paths
  }

  function ReconcileWith(s: Rows, paths: seq<string>, read: string -> Reading): Attempt {
    var visited := VisitAll(s, paths, read);
    if visited.threw then visited
    else Attempt(Sweep(visited.rows, PathSet(paths)),
                 visited.changed || exists p :: p in visited.rows.row && p !in PathSet(paths), false)
  }

  function Reconcile(s: Rows, tree: Tree): Attempt {
    ReconcileWith(s, ModemPaths(tree), ReadingsOf(tree))
  }

  function StaleRow(r: Row): Row {
    if r.snapshot.facts.sourceHealth.SourceUnavailable? then r else r.(snapshot := MarkSourceUnavailable(r.snapshot))
  }

  function MarkUnavailable(s: Rows, reason: FailureReason): Rows {
    s.(row := map p | p in s.row :: StaleRow(s.row[p]), sourceHealthy := false, failureReason := reason)
  }

  /** Whether marking is worth an emission: a row went stale, or the source was healthy. */
  predicate MarkingShows(s: Rows) {
    s.sourceHealthy || exists p :: p in s.row && !s.row[p].snapshot.facts.sourceHealth.SourceUnavailable?
  }

  function MarkHealthy(s: Rows): Rows {
    s.(sourceHealthy := true)
  }

  /** The row map's values, in its order. */
  function Snapshots(order: seq<string>, row: map<string, Row>): seq<CellularSnapshot> {
    if order == [] then []
    else
      Snapshots(order[..|order| - 1], row)
      + (if order[|order| - 1] in row then [row[order[|order| - 1]].snapshot] else [])
  }

  function List(s: Rows): Listing {
    if s.sourceHealthy then Healthy(Snapshots(s.order, s.row)) else Failing(s.failureReason, Snapshots(s.order, s.row))
  }

  // ---------------------------------------------------------------- the invariant

  ghost predicate Ordered(s: Rows) {
    && (forall p :: p in s.order <==> p in s.row)
    && (forall i, j :: 0 <= i < j < |s.order| ==> s.order[i] != s.order[j])
  }

  /** Rows were stamped by the counter; marking one unavailable took it at most one beyond. */
  ghost predicate Stamped(s: Rows) {
    forall p :: p in s.row ==>
      s.row[p].snapshot.revision <= s.revCounter + (if s.row[p].snapshot.facts.sourceHealth.SourceUnavailable? then 1 else 0)
  }

  /** A live row with the fingerprint of a reading shows that reading, and it passed the guards. */
  ghost predicate Faithful(s: Rows, read: string -> Reading) {
    forall p :: p in s.row && UpToDate(s, p, read(p)) ==> read(p).passes && s.row[p].snapshot.facts == read(p).facts
  }

  ghost predicate Shows(s: Rows, path: string, r: Reading) {
    && path in s.row && r.Mapped? && r.passes
    && s.row[path].snapshot.facts == r.facts && s.row[path].fingerprint == r.fingerprint
  }

  predicate Acceptable(r: Reading) {
    r.Mapped? && r.passes
  }

  /** Only live facts are mapped. */
  ghost predicate LiveReadings(read: string -> Reading) {
    forall p :: read(p).Mapped? ==> read(p).facts.sourceHealth.Live?
  }

  // ---------------------------------------------------------------- visiting

  /** At most the row of `path` changed, its revision did not fall, and a new row got a new revision. */
  ghost predicate OnlyRow(s: Rows, t: Rows, path: string) {
    && s.revCounter <= t.revCounter
    && (forall p :: p != path ==> (p in t.row <==> p in s.row))
    && (forall p :: p != path && p in s.row ==> t.row[p] == s.row[p])
    && (path in s.row ==> path in t.row && t.row[path].snapshot.revision >= s.row[path].snapshot.revision)
    && (path in t.row && (path !in s.row || t.row[path] != s.row[path]) ==> t.row[path].snapshot.revision > s.revCounter)
  }

  lemma VisitKeeps(s: Rows, path: string, read: string -> Reading)
    requires Ordered(s) && Stamped(s) && Faithful(s, read) && LiveReadings(read)
    ensures var a := Visit(s, path, read(path));
            Ordered(a.rows) && Stamped(a.rows) && Faithful(a.rows, read)
  {
    var t := Visit(s, path, read(path)).rows;
    forall p | p in t.row && UpToDate(t, p, read(p)) ensures read(p).passes && t.row[p].snapshot.facts == read(p).facts {
      if p in s.row && t.row[p] == s.row[p] {
        assert UpToDate(s, p, read(p));
      }
    }
  }

  lemma VisitExact(s: Rows, path: string, read: string -> Reading)
    requires Stamped(s) && Faithful(s, read) && LiveReadings(read)
    ensures OneVisit(s, path, read(path), Visit(s, path, read(path)))
  {
    var a := Visit(s, path, read(path));
    if a.changed && path in s.row {
      assert a.rows.row[path] != s.row[path];
    }
  }

  ghost predicate OneVisit(s: Rows, path: string, r: Reading, a: Attempt) {
    && OnlyRow(s, a.rows, path)
    && (a.threw <==> !Acceptable(r))
    && (a.threw ==> a.rows.row == s.row)
    && (!a.threw ==> Shows(a.rows, path, r))
    && (a.changed <==> a.rows.row != s.row)
    && (path in s.row && a.changed ==> s.row[path].snapshot.facts.sourceHealth != Live || !Shows(s, path, r))
    && (a.changed ==> a.rows.row[path].snapshot.facts.sourceHealth.Live?)
  }

  /** What visiting some paths has done so far. */
  ghost predicate Visited(s: Rows, paths: seq<string>, read: string -> Reading, a: Attempt) {
    && s.revCounter <= a.rows.revCounter
    && (forall p :: p in s.row ==> p in a.rows.row && a.rows.row[p].snapshot.revision >= s.row[p].snapshot.revision)
    && (forall p :: p in a.rows.row && p !in s.row ==> p in paths)
    && (forall p :: p in s.row && p !in paths ==> a.rows.row[p] == s.row[p])
    && (forall p :: p in a.rows.row && (p !in s.row || a.rows.row[p] != s.row[p]) ==>
          Shows(a.rows, p, read(p)) && a.rows.row[p].snapshot.revision > s.revCounter)
    && (!a.threw ==> forall p :: p in paths ==> Shows(a.rows, p, read(p)))
    && (a.threw <==> exists p :: p in paths && !Acceptable(read(p)))
  }

  /** The returned flag tells whether any row differs. */
  ghost predicate Noticed(s: Rows, a: Attempt) {
    a.changed <==> a.rows.row != s.row
  }

  lemma VisitOne(s: Rows, paths: seq<string>, read: string -> Reading, before: Attempt, path: string, last: Attempt)
    requires Visited(s, paths, read, before) && !before.threw && LiveReadings(read)
    requires OneVisit(before.rows, path, read(path), last)
    ensures Visited(s, paths + [path], read, last.(changed := before.changed || last.changed))
  {
    forall p | p in paths ensures !last.threw ==> Shows(last.rows, p, read(p)) {
      assert Shows(before.rows, p, read(p));
    }
    if last.threw {
      assert path in paths + [path] && !Acceptable(read(path));
    }
  }

  /** Once changed, the rows do not change back: a row a visit wrote is left alone by a later visit. */
  lemma ChangesStay(s: Rows, read: string -> Reading, before: Attempt, path: string, last: Attempt)
    requires LiveReadings(read) && OneVisit(before.rows, path, read(path), last)
    requires Noticed(s, before)
    requires forall p :: p in s.row ==> p in before.rows.row
    requires forall p :: p in before.rows.row && (p !in s.row || before.rows.row[p] != s.row[p]) ==> Shows(before.rows, p, read(p))
    ensures Noticed(s, last.(changed := before.changed || last.changed))
  {
  }

  lemma {:induction false} VisitAllExact(s: Rows, paths: seq<string>, read: string -> Reading)
    requires Ordered(s) && Stamped(s) && Faithful(s, read) && LiveReadings(read)
    ensures var a := VisitAll(s, paths, read);
            Visited(s, paths, read, a) && Noticed(s, a) && Ordered(a.rows) && Stamped(a.rows) && Faithful(a.rows, read)
  {
    if paths != [] {
      var front, path := paths[..|paths| - 1], paths[|paths| - 1];
      assert paths == front + [path];
      var before := VisitAll(s, front, read);
      VisitAllExact(s, front, read);
      if !before.threw {
        VisitExact(before.rows, path, read);
        VisitOne(s, front, read, before, path, Visit(before.rows, path, read(path)));
        ChangesStay(s, read, before, path, Visit(before.rows, path, read(path)));
        VisitKeeps(before.rows, path, read);
      }
    }
  }

  // ---------------------------------------------------------------- reconciling

  lemma {:induction false} KeptExact(order: seq<string>, seen: set<string>)
    ensures forall p :: p in Kept(order, seen) <==> p in order && p in seen
    ensures (forall i, j :: 0 <= i < j < |order| ==> order[i] != order[j]) ==>
              forall i, j :: 0 <= i < j < |Kept(order, seen)| ==> Kept(order, seen)[i] != Kept(order, seen)[j]
  {
    if order != [] {
      var front, last := order[..|order| - 1], order[|order| - 1];
      assert order == front + [last];
      KeptExact(front, seen);
      if forall i, j :: 0 <= i < j < |order| ==> order[i] != order[j] {
        assert last !in front;
      }
    }
  }

  /** What one `reconcile` did, in terms of the rows before and after. */
  ghost predicate Reconciled(s: Rows, paths: seq<string>, read: string -> Reading, a: Attempt) {
    && s.revCounter <= a.rows.revCounter
    && (a.threw <==> exists p :: p in paths && !Acceptable(read(p)))
    && (a.threw ==> forall p :: p in s.row ==> p in a.rows.row)
    && (!a.threw ==> forall p :: p in a.rows.row <==> p in paths)
    && (!a.threw ==> forall p :: p in paths ==> Shows(a.rows, p, read(p)))
    && (a.changed ==> a.rows.row != s.row) && (!a.threw && !a.changed ==> a.rows.row == s.row)
    && (forall p :: p in s.row && p in a.rows.row ==> a.rows.row[p].snapshot.revision >= s.row[p].snapshot.revision)
    && (forall p :: p in a.rows.row && (p !in s.row || a.rows.row[p] != s.row[p]) ==>
          Shows(a.rows, p, read(p)) && a.rows.row[p].snapshot.revision > s.revCounter)
  }

  lemma SweepKeeps(s: Rows, seen: set<string>)
    requires Ordered(s) && Stamped(s)
    ensures Ordered(Sweep(s, seen)) && Stamped(Sweep(s, seen))
  {
    KeptExact(s.order, seen);
  }

  lemma SweptRows(s: Rows, paths: seq<string>, read: string -> Reading, v: Attempt, a: Attempt)
    requires Visited(s, paths, read, v) && Noticed(s, v) && !v.threw
    requires a.rows == Sweep(v.rows, PathSet(paths)) && !a.threw
    requires a.changed <==> v.changed || exists p :: p in v.rows.row && p !in paths
    ensures Reconciled(s, paths, read, a)
  {
    forall p | p in paths ensures Shows(a.rows, p, read(p)) {
      assert Shows(v.rows, p, read(p));
    }
    if a.rows.row == s.row {
      assert v.rows.row.Keys == s.row.Keys by {
        assert forall p :: p in v.rows.row ==> p in s.row || p in paths;
      }
      assert v.rows.row == s.row;
    } else if forall p :: p in v.rows.row ==> p in paths {
      assert a.rows.row == v.rows.row;
    }
  }

  lemma ReconcileExact(s: Rows, paths: seq<string>, read: string -> Reading)
    requires Ordered(s) && Stamped(s) && Faithful(s, read) && LiveReadings(read)
    ensures var a := ReconcileWith(s, paths, read);
            Reconciled(s, paths, read, a) && Ordered(a.rows) && Stamped(a.rows)
  {
    VisitAllExact(s, paths, read);
    var v := VisitAll(s, paths, read);
    if !v.threw {
      SweepKeeps(v.rows, PathSet(paths));
      SweptRows(s, paths, read, v, ReconcileWith(s, paths, read));
    }
  }

  /** When every row is already shown live, a further reconcile finds nothing to do. */
  lemma {:induction false} NothingToVisit(s: Rows, paths: seq<string>, read: string -> Reading)
    requires forall p :: p in paths ==> UpToDate(s, p, read(p))
    ensures VisitAll(s, paths, read) == Attempt(s, false, false)
  {
    if paths != [] {
      var front, path := paths[..|paths| - 1], paths[|paths| - 1];
      assert UpToDate(s, path, read(path));
      NothingToVisit(s, front, read);
    }
  }

  lemma {:induction false} KeptAll(order: seq<string>, seen: set<string>)
    requires forall p :: p in order ==> p in seen
    ensures Kept(order, seen) == order
  {
    if order != [] {
      assert order == order[..|order| - 1] + [order[|order| - 1]];
      KeptAll(order[..|order| - 1], seen);
    }
  }

  lemma SecondReconcile(s: Rows, paths: seq<string>, read: string -> Reading)
    requires Ordered(s) && LiveReadings(read)
    requires forall p :: p in s.row <==> p in paths
    requires forall p :: p in paths ==> Shows(s, p, read(p))
    ensures ReconcileWith(s, paths, read) == Attempt(s, false, false)
  {
    forall p | p in paths ensures UpToDate(s, p, read(p)) {
      assert Shows(s, p, read(p));
    }
    NothingToVisit(s, paths, read);
    KeptAll(s.order, PathSet(paths));
    assert Sweep(s, PathSet(paths)).row == s.row;
  }

  // ---------------------------------------------------------------- rows and object trees

  /** A row passed the guards when it was written, and its fingerprint is that of the facts it shows. */
  ghost predicate RowOk(r: Row) {
    var live := r.snapshot.facts.(sourceHealth := Live);
    && CheckSnapshot(r.snapshot.facts).None?
    && r.snapshot.facts.sourceHealth != SourceHealth.Stale
    && MappedShape(live) && r.fingerprint == Fingerprint(live)
  }

  ghost predicate Content(s: Rows) {
    forall p :: p in s.row ==> RowOk(s.row[p])
  }

  ghost predicate Valid(s: Rows) {
    Ordered(s) && Stamped(s) && Content(s)
  }

  /** Fingerprints leave nothing out, so an up-to-date row shows exactly what the tree says. */
  lemma FingerprintsFaithful(s: Rows, tree: Tree)
    requires Content(s)
    ensures Faithful(s, ReadingsOf(tree)) && LiveReadings(ReadingsOf(tree))
  {
    var read := ReadingsOf(tree);
    forall p | p in s.row && UpToDate(s, p, read(p)) ensures read(p).passes && s.row[p].snapshot.facts == read(p).facts {
      RowIsReading(s.row[p], FactsAt(tree, p));
    }
  }

  lemma RowIsReading(r: Row, f: Facts)
    requires RowOk(r) && r.snapshot.facts.sourceHealth.Live? && MappedShape(f) && r.fingerprint == Fingerprint(f)
    ensures r.snapshot.facts == f && CheckSnapshot(f).None?
  {
    assert r.snapshot.facts == r.snapshot.facts.(sourceHealth := Live);
    FingerprintInjective(r.snapshot.facts, f);
  }

  lemma ReadingRowOk(r: Row, f: Facts)
    requires MappedShape(f) && CheckSnapshot(f).None?
    requires r.snapshot.facts == f && r.fingerprint == Fingerprint(f)
    ensures RowOk(r)
  {
    assert f == f.(sourceHealth := Live);
  }

  lemma ReconcileKeepsContent(s: Rows, tree: Tree, a: Attempt)
    requires Content(s) && Reconciled(s, ModemPaths(tree), ReadingsOf(tree), a)
    ensures Content(a.rows)
  {
    forall p | p in a.rows.row ensures RowOk(a.rows.row[p]) {
      if p !in s.row || a.rows.row[p] != s.row[p] {
        assert Shows(a.rows, p, ReadingsOf(tree)(p));
        ReadingRowOk(a.rows.row[p], FactsAt(tree, p));
      }
    }
  }

  lemma ReconcileKeepsValid(s: Rows, tree: Tree)
    requires Valid(s)
    ensures Valid(Reconcile(s, tree).rows)
    ensures Reconciled(s, ModemPaths(tree), ReadingsOf(tree), Reconcile(s, tree))
  {
    FingerprintsFaithful(s, tree);
    ReconcileExact(s, ModemPaths(tree), ReadingsOf(tree));
    ReconcileKeepsContent(s, tree, Reconcile(s, tree));
  }

  /** The tree names a modem that the mapping or the guards refuse. */
  predicate Refusable(tree: Tree, path: string) {
    path == "" || StateOf(tree, path) == Some(2)
  }

  lemma AcceptableExact(tree: Tree, path: string)
    ensures Acceptable(ReadingAt(tree, path)) <==> !Refusable(tree, path)
  {
    MappedPossible(tree, path);
  }

  /** The row shows the modem at `path` as the tree has it, live. */
  ghost predicate RowFor(s: Rows, tree: Tree, path: string) {
    path in s.row && s.row[path].snapshot.facts == FactsAt(tree, path) && s.row[path].fingerprint == Fingerprint(FactsAt(tree, path))
  }

  /**
   `reconcile` completes exactly when no modem of the tree reports `State` 2 (and none has an empty
   path). It then leaves exactly the tree's modems, each shown live as mapped, and returns true
   exactly when some row differs. When it throws part-way it has removed nothing.
   */
  lemma ReconcileRefines(s: Rows, tree: Tree)
    requires Valid(s)
    ensures var a := Reconcile(s, tree);
            && (!a.threw <==> forall p :: p in ModemPaths(tree) ==> !Refusable(tree, p))
            && (!a.threw ==> forall p :: p in a.rows.row <==> p in ModemPaths(tree))
            && (!a.threw ==> forall p :: p in ModemPaths(tree) ==> RowFor(a.rows, tree, p))
            && (!a.threw ==> (a.changed <==> a.rows.row != s.row))
            && (a.threw ==> forall p :: p in s.row ==> p in a.rows.row)
  {
    ReconcileKeepsValid(s, tree);
    var a, read := Reconcile(s, tree), ReadingsOf(tree);
    forall p ensures Acceptable(read(p)) <==> !Refusable(tree, p) {
      AcceptableExact(tree, p);
    }
    if !a.threw {
      forall p | p in ModemPaths(tree) ensures RowFor(a.rows, tree, p) {
        assert Shows(a.rows, p, read(p));
      }
    }
  }

  /** A second call on the same tree changes nothing at all, not even the revision counter. */
  lemma ReconcileTwice(s: Rows, tree: Tree)
    requires Valid(s) && !Reconcile(s, tree).threw
    ensures Reconcile(Reconcile(s, tree).rows, tree) == Attempt(Reconcile(s, tree).rows, false, false)
  {
    ReconcileKeepsValid(s, tree);
    var t := Reconcile(s, tree).rows;
    FingerprintsFaithful(t, tree);
    SecondReconcile(t, ModemPaths(tree), ReadingsOf(tree));
  }

  // ---------------------------------------------------------------- going stale

  lemma StaleRowOk(r: Row)
    requires RowOk(r)
    ensures RowOk(StaleRow(r))
  {
    MarkingNeverThrows(r.snapshot);
    var next := MarkSourceUnavailable(r.snapshot);
    assert next.facts.(sourceHealth := Live) == r.snapshot.facts.(sourceHealth := Live);
  }

  lemma MarkKeepsContent(s: Rows, t: Rows)
    requires Content(s) && forall p :: p in t.row ==> p in s.row && t.row[p] == StaleRow(s.row[p])
    ensures Content(t)
  {
    forall p | p in t.row ensures RowOk(t.row[p]) {
      StaleRowOk(s.row[p]);
    }
  }

  lemma MarkKeepsStamps(s: Rows, reason: FailureReason)
    requires Ordered(s) && Stamped(s)
    ensures Ordered(MarkUnavailable(s, reason)) && Stamped(MarkUnavailable(s, reason))
  {
  }

  lemma MarkKeepsValid(s: Rows, reason: FailureReason)
    requires Valid(s)
    ensures Valid(MarkUnavailable(s, reason))
  {
    MarkKeepsStamps(s, reason);
    MarkKeepsContent(s, MarkUnavailable(s, reason));
  }

  /** Marking retains every row and every fact but the health, one revision on where it flips. */
  lemma MarkExact(s: Rows, reason: FailureReason)
    ensures var t := MarkUnavailable(s, reason);
            && t.order == s.order && t.row.Keys == s.row.Keys && t.revCounter == s.revCounter
            && !t.sourceHealthy && t.failureReason == reason
            && (MarkingShows(s) <==> t.row != s.row || s.sourceHealthy)
            && (forall p :: p in s.row ==>
                  && t.row[p].snapshot.facts.sourceHealth.SourceUnavailable?
                  && t.row[p].snapshot.facts.(sourceHealth := s.row[p].snapshot.facts.sourceHealth) == s.row[p].snapshot.facts
                  && t.row[p].snapshot.revision
                     == s.row[p].snapshot.revision + (if s.row[p].snapshot.facts.sourceHealth.SourceUnavailable? then 0 else 1)
                  && t.row[p].fingerprint == s.row[p].fingerprint)
            && MarkUnavailable(t, reason) == t
  {
    var t := MarkUnavailable(s, reason);
    if p :| p in s.row && !s.row[p].snapshot.facts.sourceHealth.SourceUnavailable? {
      assert t.row[p] != s.row[p];
    }
    assert MarkUnavailable(t, reason).row == t.row;
  }

  // ---------------------------------------------------------------- runs

  datatype Operation = DoReconcile(tree: Tree) | DoMarkUnavailable(reason: FailureReason) | DoMarkHealthy

  function Do(s: Rows, op: Operation): Rows {
    match op
    case DoReconcile(tree) => Reconcile(s, tree).rows
    case DoMarkUnavailable(reason) => MarkUnavailable(s, reason)
    case DoMarkHealthy => MarkHealthy(s)
  }

  function DoAll(s: Rows, ops: seq<Operation>): Rows {
    if ops == [] then s else Do(DoAll(s, ops[..|ops| - 1]), ops[|ops| - 1])
  }

  /** Whatever row `path` has, now or when it comes back, its revision is at least `v`. */
  ghost predicate AtLeast(s: Rows, path: string, v: nat) {
    if path in s.row then s.row[path].snapshot.revision >= v else s.revCounter + 1 >= v
  }

  lemma StepAtLeast(s: Rows, op: Operation, path: string, v: nat)
    requires Valid(s) && AtLeast(s, path, v)
    ensures Valid(Do(s, op)) && AtLeast(Do(s, op), path, v)
  {
    match op {
      case DoReconcile(tree) => ReconcileKeepsValid(s, tree);
      case DoMarkUnavailable(reason) =>
        MarkKeepsValid(s, reason);
        MarkExact(s, reason);
      case DoMarkHealthy =>
    }
  }

  lemma {:induction false} RunAtLeast(s: Rows, ops: seq<Operation>, path: string, v: nat)
    requires Valid(s) && AtLeast(s, path, v)
    ensures Valid(DoAll(s, ops)) && AtLeast(DoAll(s, ops), path, v)
  {
    if ops != [] {
      RunAtLeast(s, ops[..|ops| - 1], path, v);
      StepAtLeast(DoAll(s, ops[..|ops| - 1]), ops[|ops| - 1], path, v);
    }
  }

  /** Over any operations, also across a removal and a return, the revision of a path never falls. */
  lemma RevisionsNeverFall(before: seq<Operation>, after: seq<Operation>, path: string)
    requires path in DoAll(EMPTY, before).row && path in DoAll(DoAll(EMPTY, before), after).row
    ensures DoAll(EMPTY, before).row[path].snapshot.revision
         <= DoAll(DoAll(EMPTY, before), after).row[path].snapshot.revision
  {
    RunAtLeast(EMPTY, before, path, 0);
    RunAtLeast(DoAll(EMPTY, before), after, path, DoAll(EMPTY, before).row[path].snapshot.revision);
  }

  /** Visiting more paths goes on from where the first ones left the rows. */
  lemma {:induction false} VisitConcat(s: Rows, a: seq<string>, b: seq<string>, read: string -> Reading)
    requires !VisitAll(s, a, read).threw
    ensures VisitAll(s, a + b, read).rows == VisitAll(VisitAll(s, a, read).rows, b, read).rows
    ensures VisitAll(s, a + b, read).threw == VisitAll(VisitAll(s, a, read).rows, b, read).threw
  {
    if b == [] {
      assert a + b == a;
    } else {
      assert (a + b)[..|a + b| - 1] == a + b[..|b| - 1];
      VisitConcat(s, a, b[..|b| - 1], read);
    }
  }

  /** A row that is up to date is left alone, whatever else is visited. */
  lemma {:induction false} RowSettled(s: Rows, paths: seq<string>, path: string, read: string -> Reading)
    requires UpToDate(s, path, read(path))
    ensures var t := VisitAll(s, paths, read).rows; path in t.row && t.row[path] == s.row[path]
  {
    if paths != [] {
      RowSettled(s, paths[..|paths| - 1], path, read);
    }
  }

  /** Some of these paths will be rewritten. */
  ghost predicate Dirty(s: Rows, paths: seq<string>, read: string -> Reading) {
    exists p :: p in paths && !UpToDate(s, p, read(p))
  }

  /** The counter moves exactly when some visited row is not up to date. */
  lemma {:induction false} CounterMoves(s: Rows, paths: seq<string>, read: string -> Reading)
    requires forall p :: p in paths ==> Acceptable(read(p))
    ensures !VisitAll(s, paths, read).threw && VisitAll(s, paths, read).rows.revCounter >= s.revCounter
    ensures VisitAll(s, paths, read).rows.revCounter > s.revCounter <==> Dirty(s, paths, read)
  {
    if paths != [] {
      var front, path := paths[..|paths| - 1], paths[|paths| - 1];
      assert paths == front + [path];
      CounterMoves(s, front, read);
      if !Dirty(s, front, read) {
        NothingToVisit(s, front, read);
      }
      assert Dirty(s, paths, read) <==> Dirty(s, front, read) || !UpToDate(s, path, read(path));
    }
  }

  /** A row is stamped right after the rows before it, and then left alone. */
  lemma StampOf(s: Rows, front: seq<string>, path: string, back: seq<string>, read: string -> Reading)
    requires Ordered(s) && Stamped(s) && Faithful(s, read) && LiveReadings(read)
    requires path !in front && forall p :: p in front + [path] ==> Acceptable(read(p))
    ensures var before, t := VisitAll(s, front, read).rows, VisitAll(s, front + [path] + back, read).rows;
            && path in t.row
            && (if UpToDate(s, path, read(path)) then t.row[path] == s.row[path]
                else t.row[path].snapshot.revision == before.revCounter + 1)
  {
    var before := VisitAll(s, front, read);
    CounterMoves(s, front, read);
    VisitAllExact(s, front, read);
    VisitConcat(s, front, [path], read);
    assert VisitAll(before.rows, [], read) == Attempt(before.rows, false, false);
    assert VisitAll(before.rows, [path], read).rows == Visit(before.rows, path, read(path)).rows;
    assert UpToDate(s, path, read(path)) == UpToDate(before.rows, path, read(path));
    VisitConcat(s, front + [path], back, read);
    RowSettled(VisitAll(s, front + [path], read).rows, back, path, read);
  }

  /** `v` is the revision `path` shows, or one it showed before its row was removed. */
  predicate LastSeen(s: Rows, path: string, v: nat) {
    if path in s.row then s.row[path].snapshot.revision == v else v <= s.revCounter + 1
  }

  lemma RisesExact(s: Rows, front: seq<string>, path: string, back: seq<string>, read: string -> Reading, v: nat)
    requires Ordered(s) && Stamped(s) && Faithful(s, read) && LiveReadings(read) && LastSeen(s, path, v)
    requires path !in front && forall p :: p in front + [path] ==> Acceptable(read(p))
    ensures var t := ReconcileWith(s, front + [path] + back, read).rows;
            && path in t.row
            && (t.row[path].snapshot.revision > v
                <==> !UpToDate(s, path, read(path)) && (v <= s.revCounter || Dirty(s, front, read)))
  {
    StampOf(s, front, path, back, read);
    CounterMoves(s, front, read);
    var paths := front + [path] + back;
    assert paths[|front|] == path;
    assert path in PathSet(paths);
  }

  /**
   It need not rise. Over a `reconcile` that comes to a modem, present or back after a removal, the modem's
   revision rises above the last one seen exactly when its row is not up to date and either that revision was
   at most the counter or some modem before it in the tree is rewritten too.
   */
  lemma RevisionRises(s: Rows, tree: Tree, front: seq<string>, path: string, back: seq<string>, v: nat)
    requires Valid(s) && LastSeen(s, path, v)
    requires ModemPaths(tree) == front + [path] + back && path !in front
    requires forall p :: p in front + [path] ==> !Refusable(tree, p)
    ensures var t := Reconcile(s, tree).rows;
            && path in t.row
            && (t.row[path].snapshot.revision > v
                <==> !UpToDate(s, path, ReadingAt(tree, path))
                     && (v <= s.revCounter || exists p :: p in front && !UpToDate(s, p, ReadingAt(tree, p))))
  {
    FingerprintsFaithful(s, tree);
    forall p | p in front + [path] ensures Acceptable(ReadingsOf(tree)(p)) {
      AcceptableExact(tree, p);
    }
    RisesExact(s, front, path, back, ReadingsOf(tree), v);
  }

  /** Any revision a path ever showed can stand for the last one seen, once its row is gone. */
  lemma SeenBeforeRemoval(before: seq<Operation>, between: seq<Operation>, path: string)
    requires path in DoAll(EMPTY, before).row && path !in DoAll(DoAll(EMPTY, before), between).row
    ensures Valid(DoAll(DoAll(EMPTY, before), between))
    ensures LastSeen(DoAll(DoAll(EMPTY, before), between), path, DoAll(EMPTY, before).row[path].snapshot.revision)
  {
    RunAtLeast(EMPTY, before, path, 0);
    RunAtLeast(DoAll(EMPTY, before), between, path, DoAll(EMPTY, before).row[path].snapshot.revision);
  }

  lemma SingleReconcile(s: Rows, path: string, read: string -> Reading)
    requires Acceptable(read(path)) && !UpToDate(s, path, read(path)) && forall p :: p in s.row ==> p == path
    ensures var t := ReconcileWith(s, [path], read).rows;
            && t.row == map[path := Row(CellularSnapshot(read(path).facts, s.revCounter + 1), read(path).fingerprint)]
            && t.revCounter == s.revCounter + 1
  {
    assert VisitAll(s, [], read) == Attempt(s, false, false);
  }

  lemma SingleRestore(path: string, read: string -> Reading, reason: FailureReason)
    requires Acceptable(read(path)) && read(path).facts.sourceHealth.Live?
    ensures var seen := ReconcileWith(EMPTY, [path], read).rows;
            var lost := MarkUnavailable(seen, reason);
            var back := ReconcileWith(lost, [path], read).rows;
            && path in lost.row && path in back.row && lost.row[path] != back.row[path]
            && lost.row[path].snapshot.revision == back.row[path].snapshot.revision == 2
  {
    SingleReconcile(EMPTY, path, read);
    SingleReconcile(MarkUnavailable(ReconcileWith(EMPTY, [path], read).rows, reason), path, read);
  }

  /** One modem, seen, lost with the source and seen again: its revision is 2 before and after. */
  lemma RestoreRepeatsRevision(tree: Tree, path: string, reason: FailureReason)
    requires ModemPaths(tree) == [path] && !Refusable(tree, path)
    ensures var lost := Do(Do(EMPTY, DoReconcile(tree)), DoMarkUnavailable(reason));
            var back := Do(lost, DoReconcile(tree));
            && path in lost.row && path in back.row && lost.row[path] != back.row[path]
            && lost.row[path].snapshot.revision == back.row[path].snapshot.revision == 2
  {
    AcceptableExact(tree, path);
    SingleRestore(path, ReadingsOf(tree), reason);
  }

  lemma SingleReturn(path: string, read: string -> Reading, reason: FailureReason)
    requires Acceptable(read(path)) && read(path).facts.sourceHealth.Live?
    ensures var lost := MarkUnavailable(ReconcileWith(EMPTY, [path], read).rows, reason);
            var back := ReconcileWith(ReconcileWith(lost, [], read).rows, [path], read).rows;
            && path in lost.row && path !in ReconcileWith(lost, [], read).rows.row && path in back.row
            && lost.row[path].snapshot.revision == back.row[path].snapshot.revision == 2
  {
    SingleReconcile(EMPTY, path, read);
    var lost := MarkUnavailable(ReconcileWith(EMPTY, [path], read).rows, reason);
    assert VisitAll(lost, [], read) == Attempt(lost, false, false);
    SingleReconcile(ReconcileWith(lost, [], read).rows, path, read);
  }

  /** The same across a removal: seen, lost with the source, gone and back again, it shows revision 2 twice. */
  lemma ReturnRepeatsRevision(tree: Tree, none: Tree, path: string, reason: FailureReason)
    requires ModemPaths(tree) == [path] && !Refusable(tree, path) && ModemPaths(none) == []
    ensures var lost := Do(Do(EMPTY, DoReconcile(tree)), DoMarkUnavailable(reason));
            var gone := Do(lost, DoReconcile(none));
            var back := Do(gone, DoReconcile(tree));
            && path in lost.row && path !in gone.row && path in back.row
            && lost.row[path].snapshot.revision == back.row[path].snapshot.revision == 2
  {
    AcceptableExact(tree, path);
    SingleReturn(path, ReadingsOf(tree), reason);
    var lost := Do(Do(EMPTY, DoReconcile(tree)), DoMarkUnavailable(reason));
    NothingListed(lost, ReadingsOf(none), ReadingsOf(tree));
  }

  lemma NothingListed(s: Rows, read: string -> Reading, other: string -> Reading)
    ensures ReconcileWith(s, [], read) == ReconcileWith(s, [], other)
  {
    assert VisitAll(s, [], read) == VisitAll(s, [], other);
  }
}
