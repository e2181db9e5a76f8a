/** Folding a journal back into what was in flight (`journal/recovery.ts`). */
module Recovery {
  import opened Wrappers
  import opened Operation
  import opened Codec
  import opened Store
  import opened Separator
  import JsonText
  import Order

  datatype Disposition = Pending | UnknownOutcome | Resolved | Blocked
  datatype Origin = Native | LegacyCeraUi

  datatype OperationRecord = OperationRecord(
    operationId: string,
    modem: ModemId,
    generation: Generation,
    descriptor: Evidence,
    disposition: Disposition,
    origin: Origin,
    startedAtMs: nat,
    updatedAtMs: nat,
    attempts: nat,
    outcome: Option<Outcome>)

  datatype Report = Report(
    records: seq<OperationRecord>,
    pending: seq<OperationRecord>,
    unknownOutcome: seq<OperationRecord>,
    blocked: seq<OperationRecord>,
    reconciliationRequired: seq<ModemId>,
    damage: seq<Damage>)

  // ---------------------------------------------------------------- keys

  function KeyText(modem: ModemId, operationId: string, generation: Generation): string {
    modem + [NUL] + (operationId + [NUL] + JsonText.EmitNat(generation, ""))
  }

  function KeyOf(e: Entry): string {
    KeyText(e.modem, e.operationId, e.generation)
  }

  function DispositionOf(o: Outcome): Disposition {
    if o.OutUnknown? then UnknownOutcome else Resolved
  }

  // ---------------------------------------------------------------- the fold

  /** The records whose disposition is `d`, in order. */
  function WithDisposition(rs: seq<OperationRecord>, d: Disposition): seq<OperationRecord> {
    if rs == [] then []
    else (if rs[0].disposition == d then [rs[0]] else []) + WithDisposition(rs[1..], d)
  }

  function Modems(rs: seq<OperationRecord>): seq<ModemId> {
    seq(|rs|, i requires 0 <= i < |rs| => rs[i].modem)
  }

  function Summarize(records: seq<OperationRecord>, damage: seq<Damage>): Report {
    var pending := WithDisposition(records, Pending);
    var unknownOutcome := WithDisposition(records, UnknownOutcome);
    var required := Order.Sort(Order.Distinct(Modems(pending + unknownOutcome)));
    Report(records, pending, unknownOutcome, WithDisposition(records, Blocked), required, damage)
  }

  /** The record a key holds after one more entry. */
  function Updated(previous: Option<OperationRecord>, entry: Entry): OperationRecord {
    var startedAtMs := if previous.Some? then previous.value.startedAtMs else entry.recordedAtMs;
    match entry.phase
    case Started =>
      OperationRecord(entry.operationId, entry.modem, entry.generation, entry.descriptor, Pending, Native,
                      startedAtMs, entry.recordedAtMs,
                      (if previous.Some? then previous.value.attempts else 0) + 1, None)
    case Completed(outcome) =>
      OperationRecord(entry.operationId, entry.modem, entry.generation, entry.descriptor,
                      DispositionOf(outcome), Native,
                      startedAtMs, entry.recordedAtMs,
                      if previous.Some? then previous.value.attempts else 1, Some(outcome))
  }

  /** Fold decoded entries into one record per key, in file order. */
  method ReconstructRecovery(read: ReadResult) returns (r: Report)
    ensures r == Summarize(RecordsOf(EntriesIn(read.entries)), read.damage)
    ensures Reports(EntriesIn(read.entries), r) && r.damage == read.damage
  {
    var byKey: map<string, OperationRecord> := map[];
    var order: seq<string> := [];
    ghost var es := EntriesIn(read.entries);
    for i := 0 to |read.entries|
      invariant Folded(es[..i], order, byKey)
    {
      var entry := read.entries[i].entry;
      assert es[..i + 1] == es[..i] + [entry];
      FoldedGrows(es[..i], order, byKey, entry);
      var key := KeyOf(entry);
      var previous := if key in byKey then Some(byKey[key]) else None;
      if previous.None? {
        order := order + [key];
      }
      byKey := byKey[key := Updated(previous, entry)];
    }
    assert es[..|read.entries|] == es;
    var records := seq(|order|, i requires 0 <= i < |order| && order[i] in byKey => byKey[order[i]]);
    assert records == RecordsOf(es);
    r := Summarize(records, read.damage);
    ReportExact(es, read.damage);
  }

  /** The loop's map and order list hold what the entries so far amount to. */
  ghost predicate Folded(es: seq<Entry>, order: seq<string>, byKey: map<string, OperationRecord>) {
    && order == Keys(es)
    && (forall k :: k in byKey <==> k in order)
    && (forall k :: k in byKey ==> RecordFor(es, k) == Some(byKey[k]))
    && (forall k :: k !in byKey ==> RecordFor(es, k) == None)
  }

  /** One key's record changes, and the key is listed if it was not. */
  lemma FoldedNext(es: seq<Entry>, es': seq<Entry>, order: seq<string>, byKey: map<string, OperationRecord>,
                   key: string, r: OperationRecord)
    requires Folded(es, order, byKey)
    requires Keys(es') == if key in order then order else order + [key]
    requires forall k :: RecordFor(es', k) == if k == key then Some(r) else RecordFor(es, k)
    ensures Folded(es', if key in byKey then order else order + [key], byKey[key := r])
  {
  }

  lemma RecordsGrow(es: seq<Entry>, e: Entry, previous: Option<OperationRecord>)
    requires RecordFor(es, KeyOf(e)) == previous
    ensures forall k :: RecordFor(es + [e], k) == if k == KeyOf(e) then Some(Updated(previous, e)) else RecordFor(es, k)
  {
    forall k ensures RecordFor(es + [e], k) == if k == KeyOf(e) then Some(Updated(previous, e)) else RecordFor(es, k) {
      RecordGrows(es, e, k);
    }
  }

  lemma FoldedGrows(es: seq<Entry>, order: seq<string>, byKey: map<string, OperationRecord>, e: Entry)
    requires Folded(es, order, byKey)
    ensures var previous := if KeyOf(e) in byKey then Some(byKey[KeyOf(e)]) else None;
            Folded(es + [e], if previous.None? then order + [KeyOf(e)] else order,
                   byKey[KeyOf(e) := Updated(previous, e)])
  {
    var previous := if KeyOf(e) in byKey then Some(byKey[KeyOf(e)]) else None;
    KeysGrow(es, e);
    RecordsGrow(es, e, previous);
    FoldedNext(es, es + [e], order, byKey, KeyOf(e), Updated(previous, e));
  }

  // ---------------------------------------------------------------- what the fold computes

  /** The entries of one key, in order. */
  function Of(es: seq<Entry>, key: string): seq<Entry> {
    if es == [] then []
    else Of(es[..|es| - 1], key) + (if KeyOf(es[|es| - 1]) == key then [es[|es| - 1]] else [])
  }

  /** The keys, in order of first appearance. */
  function Keys(es: seq<Entry>): seq<string> {
    if es == [] then []
    else
      var ks, k := Keys(es[..|es| - 1]), KeyOf(es[|es| - 1]);
      if k in ks then ks else ks + [k]
  }

  function Starts(es: seq<Entry>): nat {
    if es == [] then 0 else Starts(es[..|es| - 1]) + (if es[|es| - 1].phase.Started? then 1 else 0)
  }

  /**
   The record of one key's entries: start time from the first; everything else from the last; as
   many attempts as starts, and one more when the journal's head was lost before the first start.
   */
  function RecordOf(sub: seq<Entry>): OperationRecord
    requires sub != []
  {
    var first, last := sub[0], sub[|sub| - 1];
    OperationRecord(
      last.operationId, last.modem, last.generation, last.descriptor,
      if last.phase.Started? then Pending else DispositionOf(last.phase.outcome),
      Native,
      first.recordedAtMs,
      last.recordedAtMs,
      Starts(sub) + (if first.phase.Completed? then 1 else 0),
      if last.phase.Started? then None else Some(last.phase.outcome))
  }

  function RecordsOf(es: seq<Entry>): (rs: seq<OperationRecord>)
    ensures |rs| == |Keys(es)|
    ensures forall i :: 0 <= i < |rs| ==> Of(es, Keys(es)[i]) != [] && rs[i] == RecordOf(Of(es, Keys(es)[i]))
  {
    var ks := Keys(es);
    KeysOccur(es);
    seq(|ks|, i requires 0 <= i < |ks| && Of(es, ks[i]) != [] => RecordOf(Of(es, ks[i])))
  }

  function RecordFor(es: seq<Entry>, key: string): Option<OperationRecord> {
    if Of(es, key) == [] then None else Some(RecordOf(Of(es, key)))
  }

  lemma OfGrows(es: seq<Entry>, e: Entry, key: string)
    ensures Of(es + [e], key) == if KeyOf(e) == key then Of(es, key) + [e] else Of(es, key)
  {
    assert (es + [e])[..|es|] == es;
  }

  lemma KeysGrow(es: seq<Entry>, e: Entry)
    ensures Keys(es + [e]) == if KeyOf(e) in Keys(es) then Keys(es) else Keys(es) + [KeyOf(e)]
  {
    assert (es + [e])[..|es|] == es;
  }

  /** One more entry changes the record of its own key, as `Updated` says, and no other. */
  lemma RecordGrows(es: seq<Entry>, e: Entry, key: string)
    ensures RecordFor(es + [e], key)
         == if KeyOf(e) == key then Some(Updated(RecordFor(es, key), e)) else RecordFor(es, key)
  {
    OfGrows(es, e, key);
    assert (Of(es, key) + [e])[..|Of(es, key)|] == Of(es, key);
  }

  /** A key is listed exactly when it has entries, and only once. */
  lemma {:induction false} KeysOccur(es: seq<Entry>)
    ensures forall k :: k in Keys(es) <==> Of(es, k) != []
    ensures forall i, j :: 0 <= i < j < |Keys(es)| ==> Keys(es)[i] != Keys(es)[j]
  {
    if es != [] {
      KeysOccur(es[..|es| - 1]);
    }
  }

  lemma {:induction false} OfConcat(a: seq<Entry>, b: seq<Entry>, key: string)
    ensures Of(a + b, key) == Of(a, key) + Of(b, key)
  {
    if b == [] {
      assert a + b == a;
    } else {
      assert (a + b)[..|a + b| - 1] == a + b[..|b| - 1];
      OfConcat(a, b[..|b| - 1], key);
    }
  }

  // ---------------------------------------------------------------- who must be reconciled

  predicate Open(e: Entry) {
    e.phase.Started? || e.phase.outcome.OutUnknown?
  }

  /** The last entry of a key: the only one that decides whether its modem must be reconciled. */
  function LastOf(es: seq<Entry>, key: string): Option<Entry> {
    if Of(es, key) == [] then None else Some(Of(es, key)[|Of(es, key)| - 1])
  }

  lemma LastOfGrows(es: seq<Entry>, e: Entry, key: string)
    ensures LastOf(es + [e], key) == if KeyOf(e) == key then Some(e) else LastOf(es, key)
  {
    OfGrows(es, e, key);
  }

  /** The modem has a key whose last entry is a start or an unknown outcome. */
  ghost predicate MustReconcile(es: seq<Entry>, m: ModemId) {
    exists k :: LastOf(es, k).Some? && LastOf(es, k).value.modem == m && Open(LastOf(es, k).value)
  }

  function Required(es: seq<Entry>): seq<ModemId> {
    Summarize(RecordsOf(es), []).reconciliationRequired
  }

  lemma {:induction false} WithDispositionMember(rs: seq<OperationRecord>, d: Disposition)
    ensures forall r :: r in WithDisposition(rs, d) <==> r in rs && r.disposition == d
  {
    if rs != [] {
      WithDispositionMember(rs[1..], d);
    }
  }

  function OpenRecords(rs: seq<OperationRecord>): seq<OperationRecord> {
    WithDisposition(rs, Pending) + WithDisposition(rs, UnknownOutcome)
  }

  lemma OpenMember(rs: seq<OperationRecord>, m: ModemId)
    ensures m in Modems(OpenRecords(rs)) <==>
            exists i :: 0 <= i < |rs| && rs[i].modem == m && rs[i].disposition in {Pending, UnknownOutcome}
  {
    var open := OpenRecords(rs);
    WithDispositionMember(rs, Pending);
    WithDispositionMember(rs, UnknownOutcome);
    if m in Modems(open) {
      var j :| 0 <= j < |open| && Modems(open)[j] == m;
      assert open[j] in open;
      assert open[j] in rs;
    }
    if i :| 0 <= i < |rs| && rs[i].modem == m && rs[i].disposition in {Pending, UnknownOutcome} {
      assert rs[i] in open;
      var j :| 0 <= j < |open| && open[j] == rs[i];
      assert Modems(open)[j] == m;
    }
  }

  lemma SortedMembers(xs: seq<string>)
    ensures var r := Order.Sort(Order.Distinct(xs));
            Order.StrictlySorted(r) && forall x :: x in r <==> x in xs
  {
    var d := Order.Distinct(xs);
    Order.SortDistinct(d);
    assert forall x :: x in Order.Sort(d) <==> x in multiset(Order.Sort(d));
    assert forall x :: x in d <==> x in multiset(d);
  }

  lemma SummaryExact(rs: seq<OperationRecord>, damage: seq<Damage>)
    ensures var required := Summarize(rs, damage).reconciliationRequired;
            && Order.StrictlySorted(required)
            && (forall m :: m in required <==>
                  exists i :: 0 <= i < |rs| && rs[i].modem == m && rs[i].disposition in {Pending, UnknownOutcome})
  {
    SortedMembers(Modems(OpenRecords(rs)));
    forall m {
      OpenMember(rs, m);
    }
  }

  /** The members of `xs` that satisfy `p`, in order. */
  ghost function Filter<T>(xs: seq<T>, p: T -> bool): seq<T> {
    if xs == [] then []
    else Filter(xs[..|xs| - 1], p) + (if p(xs[|xs| - 1]) then [xs[|xs| - 1]] else [])
  }

  lemma {:induction false} FilterFront<T>(x: T, rest: seq<T>, p: T -> bool)
    ensures Filter([x] + rest, p) == (if p(x) then [x] else []) + Filter(rest, p)
  {
    if rest == [] {
      assert [x] + rest == [x] && [x][..0] == [];
    } else {
      var front := rest[..|rest| - 1];
      assert ([x] + rest)[..|rest|] == [x] + front;
      FilterFront(x, front, p);
    }
  }

  lemma {:induction false} DispositionPicks(rs: seq<OperationRecord>, d: Disposition, p: OperationRecord -> bool)
    requires forall x :: x in rs ==> (x.disposition == d <==> p(x))
    ensures WithDisposition(rs, d) == Filter(rs, p)
  {
    if rs != [] {
      assert rs == [rs[0]] + rs[1..];
      DispositionPicks(rs[1..], d, p);
      FilterFront(rs[0], rs[1..], p);
    }
  }

  /** The last entry in the journal of the record's own key. */
  function LastEntry(es: seq<Entry>, r: OperationRecord): Option<Entry> {
    LastOf(es, KeyText(r.modem, r.operationId, r.generation))
  }

  /** The record's operation was started, and no outcome of it is on file. */
  predicate LeftStarted(es: seq<Entry>, r: OperationRecord) {
    LastEntry(es, r).Some? && LastEntry(es, r).value.phase.Started?
  }

  /** The last thing on file about the record's operation is that nobody knows how it ended. */
  predicate LeftUnknown(es: seq<Entry>, r: OperationRecord) {
    LastEntry(es, r).Some? && LastEntry(es, r).value.phase.Completed? && LastEntry(es, r).value.phase.outcome.OutUnknown?
  }

  /** What a native journal's report says, list by list. */
  ghost predicate Reports(es: seq<Entry>, r: Report) {
    && r.records == RecordsOf(es)
    && r.pending == Filter(r.records, x => LeftStarted(es, x))
    && r.unknownOutcome == Filter(r.records, x => LeftUnknown(es, x))
    && r.blocked == []
    && Order.StrictlySorted(r.reconciliationRequired)
    && (forall m :: m in r.reconciliationRequired <==> MustReconcile(es, m))
  }

  lemma RecordOfLast(sub: seq<Entry>)
    requires sub != []
    ensures var r, last := RecordOf(sub), sub[|sub| - 1];
            && KeyText(r.modem, r.operationId, r.generation) == KeyOf(last)
            && (r.disposition.Pending? <==> last.phase.Started?)
            && (r.disposition.UnknownOutcome? <==> last.phase.Completed? && last.phase.outcome.OutUnknown?)
            && !r.disposition.Blocked?
  {
  }

  /** A record's ids spell the key it was kept under, and its disposition is read off the key's last entry. */
  lemma RecordLeft(es: seq<Entry>, x: OperationRecord)
    requires x in RecordsOf(es)
    ensures x.disposition.Pending? <==> LeftStarted(es, x)
    ensures x.disposition.UnknownOutcome? <==> LeftUnknown(es, x)
    ensures !x.disposition.Blocked?
  {
    var i :| 0 <= i < |RecordsOf(es)| && RecordsOf(es)[i] == x;
    var sub := Of(es, Keys(es)[i]);
    RecordOfLast(sub);
    OfKey(es, Keys(es)[i]);
    assert sub[|sub| - 1] in sub;
  }

  lemma {:induction false} OfKey(es: seq<Entry>, key: string)
    ensures forall e :: e in Of(es, key) ==> KeyOf(e) == key
  {
    if es != [] {
      OfKey(es[..|es| - 1], key);
    }
  }

  /**
   Every operation left started is reported pending, every one left with an unknown outcome as such, each list in the
   order of the records; nothing is blocked; and the modems that must be reconciled are those of either list.
   */
  lemma ReportExact(es: seq<Entry>, damage: seq<Damage>)
    ensures Reports(es, Summarize(RecordsOf(es), damage))
  {
    var rs := RecordsOf(es);
    forall x | x in rs {
      RecordLeft(es, x);
    }
    DispositionPicks(rs, Pending, x => LeftStarted(es, x));
    DispositionPicks(rs, UnknownOutcome, x => LeftUnknown(es, x));
    NoneBlocked(rs);
    RequiredExact(es);
  }

  lemma NoneBlocked(rs: seq<OperationRecord>)
    requires forall x :: x in rs ==> !x.disposition.Blocked?
    ensures WithDisposition(rs, Blocked) == []
  {
    WithDispositionMember(rs, Blocked);
    assert forall x :: x !in WithDisposition(rs, Blocked);
  }

  /** Record number `i` is open exactly when the last entry of its key is. */
  lemma RecordAt(es: seq<Entry>, i: nat)
    requires i < |Keys(es)|
    ensures LastOf(es, Keys(es)[i]).Some? && RecordOpen(RecordsOf(es)[i], LastOf(es, Keys(es)[i]).value)
  {
    KeysOccur(es);
    RecordOfOpen(Of(es, Keys(es)[i]));
  }

  lemma RequiredMust(es: seq<Entry>, m: ModemId)
    requires m in Required(es)
    ensures MustReconcile(es, m)
  {
    var rs := RecordsOf(es);
    SummaryExact(rs, []);
    var i :| 0 <= i < |rs| && rs[i].modem == m && rs[i].disposition in {Pending, UnknownOutcome};
    RecordAt(es, i);
  }

  lemma MustRequired(es: seq<Entry>, m: ModemId)
    requires MustReconcile(es, m)
    ensures m in Required(es)
  {
    var k :| LastOf(es, k).Some? && LastOf(es, k).value.modem == m && Open(LastOf(es, k).value);
    var i := KeyListed(es, k);
    RecordAt(es, i);
    SummaryExact(RecordsOf(es), []);
  }

  lemma KeyListed(es: seq<Entry>, key: string) returns (i: nat)
    requires LastOf(es, key).Some?
    ensures i < |Keys(es)| && Keys(es)[i] == key
  {
    KeysOccur(es);
    i :| 0 <= i < |Keys(es)| && Keys(es)[i] == key;
  }

  /** `reconciliationRequired` is the sorted, duplicate-free list of exactly those modems. */
  lemma RequiredExact(es: seq<Entry>)
    ensures Order.StrictlySorted(Required(es))
    ensures forall m :: m in Required(es) <==> MustReconcile(es, m)
  {
    SummaryExact(RecordsOf(es), []);
    forall m ensures m in Required(es) <==> MustReconcile(es, m) {
      if m in Required(es) {
        RequiredMust(es, m);
      }
      if MustReconcile(es, m) {
        MustRequired(es, m);
      }
    }
  }

  ghost predicate RecordOpen(r: OperationRecord, last: Entry) {
    r.modem == last.modem && (r.disposition in {Pending, UnknownOutcome} <==> Open(last))
  }

  lemma RecordOfOpen(sub: seq<Entry>)
    requires sub != []
    ensures RecordOpen(RecordOf(sub), sub[|sub| - 1])
  {
  }

  /** Two journals that agree key by key are recovered alike, but for the order of the records. */
  lemma KeysCommute(a: seq<Entry>, b: seq<Entry>)
    requires forall k :: Of(a, k) == Of(b, k)
    ensures multiset(Keys(a)) == multiset(Keys(b))
    ensures forall k :: RecordFor(a, k) == RecordFor(b, k)
    ensures Required(a) == Required(b)
  {
    KeysOccur(a);
    KeysOccur(b);
    SameOnce(Keys(a), Keys(b));
    assert forall k :: LastOf(a, k) == LastOf(b, k);
    SameRequired(a, b);
  }

  lemma SameRequired(a: seq<Entry>, b: seq<Entry>)
    requires forall k :: LastOf(a, k) == LastOf(b, k)
    ensures Required(a) == Required(b)
  {
    RequiredExact(a);
    RequiredExact(b);
    assert forall m :: MustReconcile(a, m) <==> MustReconcile(b, m);
    StrictlySortedUnique(Required(a), Required(b));
  }

  lemma OfPair(front: seq<Entry>, x: Entry, y: Entry, back: seq<Entry>, k: string)
    requires KeyOf(x) != KeyOf(y)
    ensures Of(front + [x, y] + back, k) == Of(front + [y, x] + back, k)
  {
    OfConcat(front + [x, y], back, k);
    OfConcat(front + [y, x], back, k);
    assert front + [x, y] == front + [x] + [y] && front + [y, x] == front + [y] + [x];
    OfGrows(front + [x], y, k);
    OfGrows(front + [y], x, k);
    OfGrows(front, x, k);
    OfGrows(front, y, k);
  }

  /** Neighbouring entries of different keys commute, up to record order. */
  lemma NeighboursCommute(front: seq<Entry>, x: Entry, y: Entry, back: seq<Entry>)
    requires KeyOf(x) != KeyOf(y)
    ensures var a, b := front + [x, y] + back, front + [y, x] + back;
            && multiset(Keys(a)) == multiset(Keys(b)) && (forall k :: RecordFor(a, k) == RecordFor(b, k))
            && Required(a) == Required(b)
  {
    forall k ensures Of(front + [x, y] + back, k) == Of(front + [y, x] + back, k) {
      OfPair(front, x, y, back, k);
    }
    KeysCommute(front + [x, y] + back, front + [y, x] + back);
  }

  lemma SameOnce(a: seq<string>, b: seq<string>)
    requires forall i, j :: 0 <= i < j < |a| ==> a[i] != a[j]
    requires forall i, j :: 0 <= i < j < |b| ==> b[i] != b[j]
    requires forall x :: x in a <==> x in b
    ensures multiset(a) == multiset(b)
  {
    forall x ensures multiset(a)[x] == multiset(b)[x] {
      Order.OnceEach(a, x);
      Order.OnceEach(b, x);
      assert x in multiset(a) <==> x in a;
      assert x in multiset(b) <==> x in b;
    }
  }

  lemma StrictlySortedUnique(a: seq<string>, b: seq<string>)
    requires Order.StrictlySorted(a) && Order.StrictlySorted(b)
    requires forall x :: x in a <==> x in b
    ensures a == b
  {
    StrictlySortedIsSorted(a);
    StrictlySortedIsSorted(b);
    SameOnce(a, b);
    Order.SortedUnique(a, b);
  }

  lemma StrictlySortedIsSorted(a: seq<string>)
    requires Order.StrictlySorted(a)
    ensures Order.Sorted(a)
    ensures forall i, j :: 0 <= i < j < |a| ==> a[i] != a[j]
  {
    forall i, j | 0 <= i < j < |a| ensures !Order.Less(a[j], a[i]) && a[i] != a[j] {
      Order.LessTotal(a[i], a[j]);
    }
  }

  // ---------------------------------------------------------------- when keys tell operations apart

  function Nuls(s: string): nat {
    multiset(s)[NUL]
  }

  lemma {:induction false} EmitNatNulFree(n: nat, tail: string)
    requires NulFree(tail)
    ensures NulFree(JsonText.EmitNat(n, tail))
    decreases n
  {
    if n >= 10 {
      EmitNatNulFree(n / 10, [JsonText.DigitChar(n % 10)] + tail);
    }
  }

  lemma EmitNatInjective(m: nat, n: nat)
    requires JsonText.EmitNat(m, "") == JsonText.EmitNat(n, "")
    ensures m == n
  {
    JsonText.TakeEmittedNat(m, "");
    JsonText.TakeEmittedNat(n, "");
  }

  lemma KeyNuls(m: ModemId, o: string, g: Generation)
    ensures Nuls(KeyText(m, o, g)) == Nuls(m) + Nuls(o) + 2
  {
    EmitNatNulFree(g, "");
    var digits := JsonText.EmitNat(g, "");
    assert multiset(digits)[NUL] == 0;
    assert multiset(o + [NUL] + digits)[NUL] == Nuls(o) + 1;
  }

  /**
   A key names one operation, whatever the other ids look like, exactly when neither of its own
   ids contains the separator.
   */
  lemma KeyExact(m: ModemId, o: string, g: Generation)
    ensures (forall m', o', g' :: KeyText(m', o', g') == KeyText(m, o, g) ==> m' == m && o' == o && g' == g)
       <==> NulFree(m) && NulFree(o)
  {
    if NulFree(m) && NulFree(o) {
      forall m', o', g' | KeyText(m', o', g') == KeyText(m, o, g) ensures m' == m && o' == o && g' == g {
        SameKey(m, o, g, m', o', g');
      }
    } else {
      var m', o' := OtherIds(m, o, JsonText.EmitNat(g, ""));
      assert KeyText(m', o', g) == KeyText(m, o, g);
    }
  }

  lemma SameKey(m: ModemId, o: string, g: Generation, m': ModemId, o': string, g': Generation)
    requires NulFree(m) && NulFree(o)
    requires KeyText(m', o', g') == KeyText(m, o, g)
    ensures m' == m && o' == o && g' == g
  {
    KeyNuls(m, o, g);
    KeyNuls(m', o', g');
    assert NUL !in multiset(m') && NUL !in multiset(o');
    FirstNul(m, m', o + [NUL] + JsonText.EmitNat(g, ""), o' + [NUL] + JsonText.EmitNat(g', ""));
    FirstNul(o, o', JsonText.EmitNat(g, ""), JsonText.EmitNat(g', ""));
    EmitNatInjective(g, g');
  }

  /** With a separator inside an id, moving it across the boundary gives the same key. */
  lemma OtherIds(m: ModemId, o: string, digits: string) returns (m': ModemId, o': string)
    requires !NulFree(m) || !NulFree(o)
    ensures m' != m || o' != o
    ensures m' + [NUL] + (o' + [NUL] + digits) == m + [NUL] + (o + [NUL] + digits)
  {
    if !NulFree(m) {
      var i :| 0 <= i < |m| && m[i] == NUL;
      m', o' := m[..i], m[i + 1..] + [NUL] + o;
      assert m == m[..i] + [NUL] + m[i + 1..];
      assert m' + [NUL] + (o' + [NUL] + digits) == m + [NUL] + (o + [NUL] + digits);
    } else {
      var i :| 0 <= i < |o| && o[i] == NUL;
      m', o' := m + [NUL] + o[..i], o[i + 1..];
      assert o == o[..i] + [NUL] + o[i + 1..];
      assert m' + [NUL] + (o' + [NUL] + digits) == m + [NUL] + (o + [NUL] + digits);
    }
  }
}
