/**
 The append-only journal file (`journal/store.ts`).

 A file is its text. A crash keeps some prefix of the characters being appended and loses the
 store object; "durable" means that the append completed.
 */
module Store {
  import opened Wrappers
  import opened Operation
  import opened JsonText
  import opened Codec

  // ---------------------------------------------------------------- lines

  /** `text.split('\n')`. */
  function Split(text: string): (lines: seq<string>)
    ensures |lines| >= 1
    ensures forall i :: 0 <= i < |lines| ==> OneLine(lines[i])
  {
    if text == "" then [""]
    else
      var rest := Split(text[1..]);
      if text[0] == '\n' then [""] + rest else [[text[0]] + rest[0]] + rest[1..]
  }

  /** `lines.join('\n')`. */
  function Join(lines: seq<string>): string
    requires |lines| >= 1
  {
    if |lines| == 1 then lines[0] else lines[0] + "\n" + Join(lines[1..])
  }

  lemma {:induction false} SplitOneLine(a: string)
    requires OneLine(a)
    ensures Split(a) == [a]
  {
    if a != "" {
      SplitOneLine(a[1..]);
      assert [a[0]] + a[1..] == a;
    }
  }

  /** A character in front of a text joins its first line, or ends an empty one. */
  lemma SplitNext(c: char, text: string)
    ensures Split([c] + text) == if c == '\n' then [""] + Split(text) else [[c] + Split(text)[0]] + Split(text)[1..]
  {
    assert ([c] + text)[1..] == text;
  }

  lemma FirstLineGrows(c: char, s: seq<string>, t: seq<string>)
    requires s != []
    ensures [[c] + (s + t)[0]] + (s + t)[1..] == [[c] + s[0]] + s[1..] + t
    ensures [""] + (s + t) == [""] + s + t
  {
  }

  lemma {:induction false} SplitConcat(a: string, b: string)
    ensures Split(a + "\n" + b) == Split(a) + Split(b)
  {
    if a == "" {
      assert a + "\n" + b == ['\n'] + b;
      SplitNext('\n', b);
    } else {
      assert a + "\n" + b == [a[0]] + (a[1..] + "\n" + b);
      SplitNext(a[0], a[1..] + "\n" + b);
      SplitNext(a[0], a[1..]);
      assert a == [a[0]] + a[1..];
      SplitConcat(a[1..], b);
      FirstLineGrows(a[0], Split(a[1..]), Split(b));
    }
  }

  /** Splitting undoes joining. */
  lemma {:induction false} SplitJoin(lines: seq<string>)
    requires |lines| >= 1 && forall i :: 0 <= i < |lines| ==> OneLine(lines[i])
    ensures Split(Join(lines)) == lines
  {
    SplitOneLine(lines[0]);
    if |lines| > 1 {
      SplitConcat(lines[0], Join(lines[1..]));
      SplitJoin(lines[1..]);
    } else {
      assert lines == [lines[0]];
    }
  }

  // ---------------------------------------------------------------- reading

  /** What one line of the journal is. */
  datatype Item = Nothing | Good(entry: Entry) | Bad(bytes: nat, failure: Failure)

  datatype LineRecord = LineRecord(line: nat, entry: Entry)

  datatype Damage =
    | LineDamage(line: nat, trailing: bool, bytes: nat, failure: Failure)
    | FileDamage

  datatype ReadResult = ReadResult(entries: seq<LineRecord>, damage: seq<Damage>)

  /** `Buffer.byteLength(raw, 'utf8')`. */
  function Utf8Length(s: string): nat {
    if s == "" then 0
    else
      var n := s[0] as int;
      (if n < 0x80 then 1 else if n < 0x800 then 2 else if n < 0x1_0000 then 3 else 4) + Utf8Length(s[1..])
  }

  function ItemOf(raw: string): Item {
    if Blank(raw) then Nothing
    else
      match Decode(raw)
      case Ok(e) => Good(e)
      case Err(f) => Bad(Utf8Length(raw), f)
  }

  function ItemsOf(lines: seq<string>): seq<Item> {
    seq(|lines|, i requires 0 <= i < |lines| => ItemOf(lines[i]))
  }

  function Items(text: string): seq<Item> {
    ItemsOf(Split(text))
  }

  function RecordAt(item: Item, line: nat): seq<LineRecord> {
    if item.Good? then [LineRecord(line, item.entry)] else []
  }

  function DamageAt(item: Item, line: nat, trailing: bool): seq<Damage> {
    if item.Bad? then [LineDamage(line, trailing, item.bytes, item.failure)] else []
  }

  /** The records of the first `n` lines, in line order. */
  function RecordsUpTo(items: seq<Item>, n: nat): seq<LineRecord>
    requires n <= |items|
  {
    if n == 0 then [] else RecordsUpTo(items, n - 1) + RecordAt(items[n - 1], n)
  }

  /** The damage of the first `n` lines, in line order; `last` is the last populated line's index. */
  function DamageUpTo(items: seq<Item>, n: nat, last: int): seq<Damage>
    requires n <= |items|
  {
    if n == 0 then [] else DamageUpTo(items, n - 1, last) + DamageAt(items[n - 1], n, n - 1 == last)
  }

  /** The index of the last populated line, or -1. */
  function LastPopulated(items: seq<Item>): (last: int)
    ensures -1 <= last < |items|
    ensures last >= 0 ==> !items[last].Nothing?
    ensures forall i :: last < i < |items| ==> items[i].Nothing?
  {
    if items == [] then -1
    else if !items[|items| - 1].Nothing? then |items| - 1
    else LastPopulated(items[..|items| - 1])
  }

  lemma LastPopulatedUnique(items: seq<Item>, last: int)
    requires -1 <= last < |items|
    requires last >= 0 ==> !items[last].Nothing?
    requires forall i :: last < i < |items| ==> items[i].Nothing?
    ensures last == LastPopulated(items)
  {
    var other := LastPopulated(items);
    assert last == other;
  }

  function ReadOf(items: seq<Item>): ReadResult {
    ReadResult(RecordsUpTo(items, |items|), DamageUpTo(items, |items|, LastPopulated(items)))
  }

  method ReadLine(lines: seq<string>, i: nat) returns (item: Item)
    requires i < |lines|
    ensures item == ItemsOf(lines)[i]
  {
    var raw := lines[i];
    if Blank(raw) {
      return Nothing;
    }
    var decoded := Decode(raw);
    if decoded.Ok? {
      return Good(decoded.value);
    }
    item := Bad(Utf8Length(raw), decoded.error);
  }

  /** The first pass: the index of the last populated line, or -1. */
  method FindLastPopulated(lines: seq<string>) returns (lastPopulated: int)
    ensures lastPopulated == LastPopulated(ItemsOf(lines))
  {
    lastPopulated := -1;
    ghost var items := ItemsOf(lines);
    var index := |lines| - 1;
    while index >= 0
      invariant -1 <= index < |lines| && lastPopulated == -1
      invariant forall i :: index < i < |lines| ==> items[i].Nothing?
    {
      if !Blank(lines[index]) {
        lastPopulated := index;
        assert !items[index].Nothing?;
        break;
      }
      index := index - 1;
    }
    LastPopulatedUnique(items, lastPopulated);
  }

  lemma UpToNext(items: seq<Item>, i: nat, last: int)
    requires i < |items|
    ensures RecordsUpTo(items, i + 1) == RecordsUpTo(items, i) + RecordAt(items[i], i + 1)
    ensures DamageUpTo(items, i + 1, last) == DamageUpTo(items, i, last) + DamageAt(items[i], i + 1, i == last)
  {
  }

  /** The second pass. */
  method Scan(lines: seq<string>, lastPopulated: int) returns (r: ReadResult)
    ensures r == ReadResult(RecordsUpTo(ItemsOf(lines), |lines|), DamageUpTo(ItemsOf(lines), |lines|, lastPopulated))
  {
    var entries, damage := [], [];
    ghost var items := ItemsOf(lines);
    for i := 0 to |lines|
      invariant entries == RecordsUpTo(items, i) && damage == DamageUpTo(items, i, lastPopulated)
    {
      UpToNext(items, i, lastPopulated);
      var item := ReadLine(lines, i);
      if item.Good? {
        entries := entries + [LineRecord(i + 1, item.entry)];
      } else if item.Bad? {
        damage := damage + [LineDamage(i + 1, i == lastPopulated, item.bytes, item.failure)];
      }
    }
    r := ReadResult(entries, damage);
  }

  /** Decode a whole journal, in the two passes of `decodeJournalText`. */
  method DecodeJournalText(text: string) returns (r: ReadResult)
    ensures r == ReadOf(Items(text))
  {
    var lines := Split(text);
    var lastPopulated := FindLastPopulated(lines);
    r := Scan(lines, lastPopulated);
  }

  // ---------------------------------------------------------------- damage isolation

  predicate RecordsInOrder(rs: seq<LineRecord>) {
    forall i, j :: 0 <= i < j < |rs| ==> rs[i].line < rs[j].line
  }

  predicate DamageInOrder(ds: seq<Damage>) {
    forall i, j :: 0 <= i < j < |ds| ==> ds[i].LineDamage? && ds[j].LineDamage? && ds[i].line < ds[j].line
  }

  lemma {:induction false} RecordsPartition(items: seq<Item>, n: nat)
    requires n <= |items|
    ensures forall r :: r in RecordsUpTo(items, n) <==> 1 <= r.line <= n && items[r.line - 1] == Good(r.entry)
    ensures RecordsInOrder(RecordsUpTo(items, n))
  {
    if n > 0 {
      RecordsPartition(items, n - 1);
      var rs := RecordsUpTo(items, n - 1);
      assert forall i :: 0 <= i < |rs| ==> rs[i] in rs;
      assert forall i :: 0 <= i < |rs| ==> RecordsUpTo(items, n)[i] == rs[i];
    }
  }

  lemma {:induction false} DamagePartition(items: seq<Item>, n: nat, last: int)
    requires n <= |items|
    ensures forall d :: d in DamageUpTo(items, n, last) <==>
              && d.LineDamage? && 1 <= d.line <= n
              && items[d.line - 1] == Bad(d.bytes, d.failure) && (d.trailing <==> d.line - 1 == last)
    ensures DamageInOrder(DamageUpTo(items, n, last))
  {
    if n > 0 {
      DamagePartition(items, n - 1, last);
      var ds := DamageUpTo(items, n - 1, last);
      assert forall i :: 0 <= i < |ds| ==> ds[i] in ds;
      assert forall i :: 0 <= i < |ds| ==> DamageUpTo(items, n, last)[i] == ds[i];
    }
  }

  /**
   Records and damage split the populated lines between them, each in increasing line order, and
   a damage record is `trailing` exactly when it is on the last populated line.
   */
  lemma ReadPartition(items: seq<Item>)
    ensures forall x :: x in ReadOf(items).entries <==> 1 <= x.line <= |items| && items[x.line - 1] == Good(x.entry)
    ensures forall d :: d in ReadOf(items).damage <==>
              && d.LineDamage? && 1 <= d.line <= |items| && items[d.line - 1] == Bad(d.bytes, d.failure)
              && (d.trailing <==> d.line - 1 == LastPopulated(items))
    ensures RecordsInOrder(ReadOf(items).entries) && DamageInOrder(ReadOf(items).damage)
    ensures forall d :: d in ReadOf(items).damage && d.trailing ==>
              d == ReadOf(items).damage[|ReadOf(items).damage| - 1]
  {
    var last := LastPopulated(items);
    RecordsPartition(items, |items|);
    DamagePartition(items, |items|, last);
    TrailingIsLast(ReadOf(items).damage, last);
  }

  lemma TrailingIsLast(ds: seq<Damage>, last: int)
    requires DamageInOrder(ds)
    requires forall d :: d in ds ==> d.LineDamage? && d.line - 1 <= last && (d.trailing <==> d.line - 1 == last)
    ensures forall d :: d in ds && d.trailing ==> d == ds[|ds| - 1]
  {
    forall d | d in ds && d.trailing ensures d == ds[|ds| - 1] {
      var i :| 0 <= i < |ds| && ds[i] == d;
      assert ds[|ds| - 1] in ds;
    }
  }

  /** The records of every line but line number `k`. */
  function Elsewhere(rs: seq<LineRecord>, k: nat): seq<LineRecord> {
    if rs == [] then []
    else Elsewhere(rs[..|rs| - 1], k) + (if rs[|rs| - 1].line == k then [] else [rs[|rs| - 1]])
  }

  lemma {:induction false} ElsewhereConcat(a: seq<LineRecord>, b: seq<LineRecord>, k: nat)
    ensures Elsewhere(a + b, k) == Elsewhere(a, k) + Elsewhere(b, k)
  {
    if b == [] {
      assert a + b == a;
    } else {
      var front := b[..|b| - 1];
      assert (a + b)[..|a + b| - 1] == a + front;
      ElsewhereConcat(a, front, k);
    }
  }

  lemma {:induction false} ReplacedItem(items: seq<Item>, k: nat, item: Item, n: nat)
    requires k < |items| && n <= |items|
    ensures Elsewhere(RecordsUpTo(items[k := item], n), k + 1) == Elsewhere(RecordsUpTo(items, n), k + 1)
  {
    if n > 0 {
      ReplacedItem(items, k, item, n - 1);
      var items' := items[k := item];
      ElsewhereConcat(RecordsUpTo(items, n - 1), RecordAt(items[n - 1], n), k + 1);
      ElsewhereConcat(RecordsUpTo(items', n - 1), RecordAt(items'[n - 1], n), k + 1);
    }
  }

  /** Replacing one line by any other text leaves what is read from every other line unchanged. */
  lemma DamageIsolation(text: string, k: nat, t: string)
    requires k < |Split(text)| && OneLine(t)
    ensures var text' := Join(Split(text)[k := t]);
            && Items(text') == Items(text)[k := ItemOf(t)]
            && Elsewhere(ReadOf(Items(text')).entries, k + 1) == Elsewhere(ReadOf(Items(text)).entries, k + 1)
  {
    var lines := Split(text);
    var items := Items(text);
    SplitJoin(lines[k := t]);
    assert ItemsOf(lines[k := t]) == items[k := ItemOf(t)];
    ReplacedItem(items, k, ItemOf(t), |items|);
  }

  // ---------------------------------------------------------------- what a text holds

  /** The entries among some items, in order. */
  function Entries(items: seq<Item>): seq<Entry> {
    if items == [] then [] else (if items[0].Good? then [items[0].entry] else []) + Entries(items[1..])
  }

  function BadCount(items: seq<Item>): nat {
    if items == [] then 0 else (if items[0].Bad? then 1 else 0) + BadCount(items[1..])
  }

  lemma ItemsNext(x: Item, rest: seq<Item>)
    ensures Entries([x] + rest) == (if x.Good? then [x.entry] else []) + Entries(rest)
    ensures BadCount([x] + rest) == (if x.Bad? then 1 else 0) + BadCount(rest)
  {
    assert ([x] + rest)[1..] == rest;
  }

  lemma {:induction false} ItemsConcat(a: seq<Item>, b: seq<Item>)
    ensures Entries(a + b) == Entries(a) + Entries(b)
    ensures BadCount(a + b) == BadCount(a) + BadCount(b)
  {
    if a == [] {
      assert a + b == b;
    } else {
      assert a + b == [a[0]] + (a[1..] + b) && a == [a[0]] + a[1..];
      ItemsNext(a[0], a[1..] + b);
      ItemsNext(a[0], a[1..]);
      ItemsConcat(a[1..], b);
    }
  }

  function EntriesIn(rs: seq<LineRecord>): seq<Entry> {
    seq(|rs|, i requires 0 <= i < |rs| => rs[i].entry)
  }

  /** `Entries` and `BadCount` are what a read reports, line numbers aside. */
  lemma {:induction false} ReadReports(items: seq<Item>, n: nat, last: int)
    requires n <= |items|
    ensures Entries(items[..n]) == EntriesIn(RecordsUpTo(items, n))
    ensures |DamageUpTo(items, n, last)| == BadCount(items[..n])
  {
    if n > 0 {
      ReadReports(items, n - 1, last);
      assert items[..n] == items[..n - 1] + [items[n - 1]];
      ItemsConcat(items[..n - 1], [items[n - 1]]);
      var es, e := RecordsUpTo(items, n - 1), RecordAt(items[n - 1], n);
      assert EntriesIn(es + e) == EntriesIn(es) + EntriesIn(e);
    }
  }

  // ---------------------------------------------------------------- the store

  /** `terminated` is absent until the first append of this store object probes the file. */
  datatype StoreState = StoreState(file: Option<string>, terminated: Option<bool>)

  function Text(file: Option<string>): string {
    if file.Some? then file.value else ""
  }

  /** Nothing to close: no file, an empty one, or one whose last character ends a line. */
  predicate Closed(text: string) {
    text == "" || text[|text| - 1] == '\n'
  }

  function ProbeTerminated(file: Option<string>): bool {
    file.None? || Closed(file.value)
  }

  function Terminated(st: StoreState): bool {
    if st.terminated.Some? then st.terminated.value else ProbeTerminated(st.file)
  }

  /** The store's belief about the last line is not wrong in the harmful direction. */
  predicate Honest(st: StoreState) {
    st.terminated == Some(true) ==> Closed(Text(st.file))
  }

  function Chunk(terminated: bool, e: Entry): string {
    (if terminated then "" else "\n") + Encode(e) + "\n"
  }

  function Appended(st: StoreState, e: Entry): StoreState {
    StoreState(Some(Text(st.file) + Chunk(Terminated(st), e)), Some(true))
  }

  /** The process dies with `k` characters of the append on file; a later store object starts afresh. */
  function Crashed(st: StoreState, e: Entry, k: nat): StoreState
    requires k <= |Chunk(Terminated(st), e)|
  {
    StoreState(Some(Text(st.file) + Chunk(Terminated(st), e)[..k]), None)
  }

  /** The append fails with `k` characters on file; this store object lives on with what it probed. */
  function AppendFailed(st: StoreState, e: Entry, k: nat): StoreState
    requires k <= |Chunk(Terminated(st), e)|
  {
    StoreState(Some(Text(st.file) + Chunk(Terminated(st), e)[..k]), Some(Terminated(st)))
  }

  /** The entries a read of the file returns, and the number of damaged lines it reports. */
  function EntriesOnFile(st: StoreState): seq<Entry> {
    Entries(Items(Text(st.file)))
  }

  function DamageOnFile(st: StoreState): nat {
    BadCount(Items(Text(st.file)))
  }

  /** What one entry contributes to a later read. */
  function Own(e: Entry): seq<Entry> {
    if WellFormed(e) then [e] else []
  }

  /** `k` characters of the chunk hold the whole of the entry's JSON. */
  predicate Whole(terminated: bool, e: Entry, k: nat) {
    k >= (if terminated then 0 else 1) + |Encode(e)|
  }

  /** `k` characters of the chunk hold a part of the entry's JSON, but not the whole. */
  predicate Torn(terminated: bool, e: Entry, k: nat) {
    (if terminated then 0 else 1) < k && !Whole(terminated, e, k)
  }

  lemma ItemsSplit(a: string, b: string)
    ensures Items(a + "\n" + b) == Items(a) + Items(b)
  {
    SplitConcat(a, b);
    assert ItemsOf(Split(a) + Split(b)) == ItemsOf(Split(a)) + ItemsOf(Split(b));
  }

  lemma ItemsOneLine(line: string)
    requires OneLine(line)
    ensures Items(line) == [ItemOf(line)]
  {
    SplitOneLine(line);
  }

  /** What `items` and `more` report together. */
  ghost predicate Adds(all: seq<Item>, items: seq<Item>, more: Item) {
    && Entries(all) == Entries(items) + (if more.Good? then [more.entry] else [])
    && BadCount(all) == BadCount(items) + (if more.Bad? then 1 else 0)
  }

  lemma AddsOne(items: seq<Item>, more: Item)
    ensures Adds(items + [more], items, more)
  {
    ItemsConcat(items, [more]);
    assert [more][1..] == [];
  }

  /** The items below which, or behind which, the next line is read. */
  lemma PieceItems(text: string, terminated: bool, piece: string) returns (base: seq<Item>)
    requires terminated ==> Closed(text)
    requires OneLine(piece)
    ensures Items(text) == base || Items(text) == base + [Nothing]
    ensures Items(text + (if terminated then "" else "\n") + piece) == base + [ItemOf(piece)]
  {
    ItemsOneLine(piece);
    ItemsOneLine("");
    if !terminated {
      base := Items(text);
      ItemsSplit(text, piece);
    } else if text == "" {
      base := [];
      assert text + "" + piece == piece;
    } else {
      var front := text[..|text| - 1];
      base := Items(front);
      assert text == front + "\n" + "" && text + "" + piece == front + "\n" + piece;
      ItemsSplit(front, "");
      ItemsSplit(front, piece);
    }
  }

  lemma TerminatorAdded(text: string)
    ensures Items(text + "\n") == Items(text) + [Nothing]
  {
    assert text + "\n" == text + "\n" + "";
    ItemsSplit(text, "");
    ItemsOneLine("");
  }

  /** A line written below a closed text, or behind a fresh terminator, is read on its own. */
  lemma PieceAdded(text: string, terminated: bool, piece: string)
    requires terminated ==> Closed(text)
    requires OneLine(piece)
    ensures var t := text + (if terminated then "" else "\n") + piece;
            && Adds(Items(t), Items(text), ItemOf(piece))
            && Adds(Items(t + "\n"), Items(text), ItemOf(piece))
  {
    var t := text + (if terminated then "" else "\n") + piece;
    var base := PieceItems(text, terminated, piece);
    TerminatorAdded(t);
    PieceReports(base, ItemOf(piece), Items(text), Items(t), Items(t + "\n"));
  }

  lemma PieceReports(base: seq<Item>, more: Item, was: seq<Item>, now: seq<Item>, ended: seq<Item>)
    requires was == base || was == base + [Nothing]
    requires now == base + [more] && ended == now + [Nothing]
    ensures Adds(now, was, more) && Adds(ended, was, more)
  {
    AddsOne(base, Nothing);
    AddsOne(base, more);
    AddsOne(now, Nothing);
  }

  lemma EntryItem(e: Entry)
    ensures ItemOf(Encode(e)) == if WellFormed(e) then Good(e) else ItemOf(Encode(e))
    ensures ItemOf(Encode(e)).Bad? <==> !WellFormed(e)
  {
    Codec.RoundTrip(e);
    EncodedHead(e);
  }

  lemma FragmentItem(e: Entry, p: string)
    requires p < Encode(e)
    ensures if p == "" then ItemOf(p).Nothing? else ItemOf(p).Bad?
  {
    NoPrefixDecodes(e, p);
    EncodedHead(e);
    if p != "" {
      assert p[0] == '{';
    }
  }

  /** The text of an unfinished append, by how far it got. */
  lemma ChunkPrefix(t: string, closed: bool, e: Entry, k: nat)
    requires k <= |Chunk(closed, e)|
    ensures var lead, enc := if closed then "" else "\n", Encode(e);
            var t' := t + Chunk(closed, e)[..k];
            if !Torn(closed, e, k) && !Whole(closed, e, k) then t' == t || t' == t + lead
            else if Torn(closed, e, k) then t' == t + lead + enc[..k - |lead|] && 0 < k - |lead| < |enc|
            else t' == t + lead + enc || t' == t + lead + enc + "\n"
  {
    var lead, enc := if closed then "" else "\n", Encode(e);
    EncodedHead(e);
    if Torn(closed, e, k) {
      assert Chunk(closed, e)[..k] == lead + enc[..k - |lead|];
    } else if Whole(closed, e, k) {
      assert Chunk(closed, e)[..k] == if k == |lead| + |enc| then lead + enc else lead + enc + "\n";
    } else {
      assert Chunk(closed, e)[..k] == if k == 0 then "" else lead;
    }
  }

  /** What a text reads as once `t'` has `own` more entries and `bad` more damaged lines than `t`. */
  ghost predicate Reads(t: string, t': string, own: seq<Entry>, bad: nat) {
    Entries(Items(t')) == Entries(Items(t)) + own && BadCount(Items(t')) == BadCount(Items(t)) + bad
  }

  /** One line added, or added and closed. */
  lemma LineReads(t: string, closed: bool, piece: string, t': string)
    requires (closed ==> Closed(t)) && OneLine(piece)
    requires var line := t + (if closed then "" else "\n") + piece; t' == line || t' == line + "\n"
    ensures Reads(t, t', if ItemOf(piece).Good? then [ItemOf(piece).entry] else [], if ItemOf(piece).Bad? then 1 else 0)
  {
    PieceAdded(t, closed, piece);
  }

  lemma NothingReads(t: string, closed: bool, t': string)
    requires closed ==> Closed(t)
    requires t' == t || t' == t + (if closed then "" else "\n")
    ensures Reads(t, t', [], 0)
  {
    LineReads(t, closed, "", t + (if closed then "" else "\n") + "");
    assert ItemOf("").Nothing?;
    assert t + (if closed then "" else "\n") + "" == t + (if closed then "" else "\n");
  }

  /**
   Whatever prefix of an append reaches the file, everything read before is still read, in order;
   the entry itself is read exactly when its JSON is whole, and a torn one costs one damaged line.
   */
  lemma AppendedPrefix(st: StoreState, e: Entry, k: nat)
    requires Honest(st)
    requires k <= |Chunk(Terminated(st), e)|
    ensures Reads(Text(st.file), Text(st.file) + Chunk(Terminated(st), e)[..k],
                  if Whole(Terminated(st), e, k) then Own(e) else [],
                  if Torn(Terminated(st), e, k) || (Whole(Terminated(st), e, k) && !WellFormed(e)) then 1 else 0)
  {
    var t, closed, enc := Text(st.file), Terminated(st), Encode(e);
    var t' := t + Chunk(closed, e)[..k];
    ChunkPrefix(t, closed, e, k);
    EncodedOneLine(e);
    if Torn(closed, e, k) {
      var p := enc[..k - (if closed then 0 else 1)];
      FragmentItem(e, p);
      LineReads(t, closed, p, t');
    } else if Whole(closed, e, k) {
      EntryItem(e);
      LineReads(t, closed, enc, t');
    } else {
      NothingReads(t, closed, t');
    }
  }

  lemma AppendedWhole(st: StoreState, e: Entry)
    requires Honest(st)
    ensures Honest(Appended(st, e))
    ensures EntriesOnFile(Appended(st, e)) == EntriesOnFile(st) + Own(e)
    ensures DamageOnFile(Appended(st, e)) == DamageOnFile(st) + if WellFormed(e) then 0 else 1
  {
    var chunk := Chunk(Terminated(st), e);
    AppendedPrefix(st, e, |chunk|);
    assert chunk[..|chunk|] == chunk;
    var t := Text(Appended(st, e).file);
    assert t[|t| - 1] == '\n';
  }

  // ---------------------------------------------------------------- whole lives of a journal

  /** What can happen to a journal file: appends within a session, and the ways a session ends. */
  datatype JournalEvent =
    | Append(entry: Entry)
    | Crash(entry: Entry, written: nat)
    | Restart

  function Clip(k: nat, chunk: string): nat {
    if k <= |chunk| then k else |chunk|
  }

  function After(st: StoreState, ev: JournalEvent): StoreState {
    match ev
    case Append(e) => Appended(st, e)
    case Crash(e, k) => Crashed(st, e, Clip(k, Chunk(Terminated(st), e)))
    case Restart => st.(terminated := None)
  }

  function Life(st: StoreState, events: seq<JournalEvent>): StoreState
    decreases |events|
  {
    if events == [] then st else Life(After(st, events[0]), events[1..])
  }

  /** What an event leaves to be read. */
  function Survivor(st: StoreState, ev: JournalEvent): seq<Entry> {
    match ev
    case Append(e) => Own(e)
    case Crash(e, k) => if Whole(Terminated(st), e, k) then Own(e) else []
    case Restart => []
  }

  /** Every appended entry, plus each crashed one whose JSON was whole, in order. */
  function Survivors(st: StoreState, events: seq<JournalEvent>): seq<Entry>
    decreases |events|
  {
    if events == [] then [] else Survivor(st, events[0]) + Survivors(After(st, events[0]), events[1..])
  }

  function Crashes(events: seq<JournalEvent>): nat {
    if events == [] then 0 else (if events[0].Crash? then 1 else 0) + Crashes(events[1..])
  }

  predicate AllWellFormed(events: seq<JournalEvent>) {
    forall i :: 0 <= i < |events| && !events[i].Restart? ==> WellFormed(events[i].entry)
  }

  /** One read against a later one: the first entries, then `s`; at most `crashes` more damaged lines. */
  ghost predicate Confined(es: seq<Entry>, d: nat, es': seq<Entry>, d': nat, s: seq<Entry>, crashes: nat) {
    es' == es + s && d <= d' <= d + crashes
  }

  lemma ConfinedInTurn(es: seq<Entry>, d: nat, es': seq<Entry>, d': nat, es'': seq<Entry>, d'': nat,
                       s: seq<Entry>, s': seq<Entry>, c: nat, c': nat)
    requires Confined(es, d, es', d', s, c) && Confined(es', d', es'', d'', s', c')
    ensures Confined(es, d, es'', d'', s + s', c + c')
  {
    assert (es + s) + s' == es + (s + s');
  }

  lemma OneEvent(st: StoreState, ev: JournalEvent)
    requires Honest(st) && (!ev.Restart? ==> WellFormed(ev.entry))
    ensures var st' := After(st, ev);
            && Honest(st')
            && Confined(EntriesOnFile(st), DamageOnFile(st), EntriesOnFile(st'), DamageOnFile(st'),
                        Survivor(st, ev), if ev.Crash? then 1 else 0)
  {
    match ev {
      case Append(e) => AppendedWhole(st, e);
      case Crash(e, k) => AppendedPrefix(st, e, Clip(k, Chunk(Terminated(st), e)));
      case Restart =>
    }
  }

  /**
   Over any number of sessions, from any text a previous life may have left: reading returns what was
   there, then every appended entry in order, with at most the crashed entries besides, and at
   most one more damaged line for each crash.
   */
  lemma {:induction false} TornTailConfinement(st: StoreState, events: seq<JournalEvent>)
    requires Honest(st) && AllWellFormed(events)
    ensures var st' := Life(st, events);
            && Honest(st')
            && Confined(EntriesOnFile(st), DamageOnFile(st), EntriesOnFile(st'), DamageOnFile(st'),
                        Survivors(st, events), Crashes(events))
    decreases |events|
  {
    if events != [] {
      var st', last := After(st, events[0]), Life(st, events);
      OneEvent(st, events[0]);
      assert AllWellFormed(events[1..]);
      TornTailConfinement(st', events[1..]);
      ConfinedInTurn(EntriesOnFile(st), DamageOnFile(st), EntriesOnFile(st'), DamageOnFile(st'),
                     EntriesOnFile(last), DamageOnFile(last), Survivor(st, events[0]), Survivors(st', events[1..]),
                     if events[0].Crash? then 1 else 0, Crashes(events[1..]));
    }
  }

  // ---------------------------------------------------------------- where confinement stops

  lemma ChunkPrefixOpen(terminated: bool, e: Entry, k: nat)
    requires 0 < k <= |Chunk(terminated, e)|
    ensures Chunk(terminated, e)[k - 1] == '\n' <==> (!terminated && k == 1) || k == |Chunk(terminated, e)|
  {
    EncodedOneLine(e);
    EncodedHead(e);
  }

  /** A failed append leaves the store honest when nothing it believes was undone. */
  lemma FailedAppendHonest(st: StoreState, lost: Entry, k: nat)
    requires Honest(st) && k <= |Chunk(Terminated(st), lost)|
    ensures Honest(AppendFailed(st, lost, k))
       <==> !Terminated(st) || k == 0 || k == |Chunk(Terminated(st), lost)|
  {
    var chunk := Chunk(Terminated(st), lost);
    CutText(Text(st.file), chunk, k);
    if k > 0 {
      ChunkPrefixOpen(Terminated(st), lost, k);
    }
  }

  lemma CutText(t: string, chunk: string, k: nat)
    requires k <= |chunk|
    ensures k == 0 ==> t + chunk[..k] == t
    ensures k > 0 ==> (Closed(t + chunk[..k]) <==> chunk[k - 1] == '\n')
  {
    if k > 0 {
      assert (t + chunk[..k])[|t| + k - 1] == chunk[k - 1];
    }
  }

  lemma GluedItem(lost: Entry, p: string, next: Entry)
    requires p != "" && p <= Encode(lost)
    ensures OneLine(p + Encode(next)) && ItemOf(p + Encode(next)).Bad?
  {
    EncodedOneLine(lost);
    EncodedOneLine(next);
    GluedEntriesDoNotDecode(lost, p, next);
    EncodedHead(lost);
    assert (p + Encode(next))[0] == '{';
  }

  /** The file after an append cut short on a closed file, and the next append of the same store object. */
  lemma GluedFile(st: StoreState, lost: Entry, k: nat, next: Entry)
    requires Terminated(st) && 0 < k <= |Encode(lost)|
    ensures k <= |Chunk(Terminated(st), lost)|
    ensures Text(Appended(AppendFailed(st, lost, k), next).file)
         == Text(st.file) + (Encode(lost)[..k] + Encode(next)) + "\n"
  {
    CutBeforeTerminator(Encode(lost), k);
    var cut := AppendFailed(st, lost, k);
    assert Text(cut.file) == Text(st.file) + Encode(lost)[..k] && Terminated(cut);
    Regrouped(Text(st.file), Encode(lost)[..k], Encode(next));
  }

  lemma CutBeforeTerminator(a: string, k: nat)
    requires k <= |a|
    ensures ("" + a + "\n")[..k] == a[..k]
  {
  }

  lemma Regrouped(t: string, p: string, b: string)
    ensures t + p + ("" + b + "\n") == t + (p + b) + "\n"
  {
  }

  /**
   An append that fails in the process with a part of its characters on a closed file glues the next one
   to it. Wherever it was cut, what was read before is still read, but nothing of the failed append and
   nothing of the next one: the damage is not confined to the record that tore.
   */
  lemma GluedAppendLosesBoth(st: StoreState, lost: Entry, k: nat, next: Entry)
    requires Honest(st) && Terminated(st) && 0 < k < |Chunk(Terminated(st), lost)|
    ensures var st' := Appended(AppendFailed(st, lost, k), next);
            EntriesOnFile(st') == EntriesOnFile(st) && DamageOnFile(st') == DamageOnFile(st) + 1
  {
    var piece := Encode(lost)[..k] + Encode(next);
    GluedItem(lost, Encode(lost)[..k], next);
    GluedFile(st, lost, k, next);
    LineReads(Text(st.file), true, piece, Text(st.file) + piece + "\n");
  }

  /** The record of the failed append, as far as it is whole, and then the next one's. */
  function BothRead(st: StoreState, lost: Entry, k: nat, next: Entry): seq<Entry> {
    EntriesOnFile(st) + (if Whole(Terminated(st), lost, k) then Own(lost) else []) + Own(next)
  }

  /**
   The store probes once per store object. After an append that failed in the same process with `k`
   characters on file, the damage stays confined to that append, so that the next entry and a failed
   one whose JSON is whole are both read, exactly when the file was known to be open, or nothing or
   everything of the failed append was written.
   */
  lemma FailedAppendExact(st: StoreState, lost: Entry, k: nat, next: Entry)
    requires Honest(st) && WellFormed(lost) && WellFormed(next)
    requires k <= |Chunk(Terminated(st), lost)|
    ensures EntriesOnFile(Appended(AppendFailed(st, lost, k), next)) == BothRead(st, lost, k, next)
       <==> !Terminated(st) || k == 0 || k == |Chunk(Terminated(st), lost)|
  {
    FailedAppendHonest(st, lost, k);
    if Honest(AppendFailed(st, lost, k)) {
      AppendedPrefix(st, lost, k);
      AppendedWhole(AppendFailed(st, lost, k), next);
    } else {
      GluedAppendLosesBoth(st, lost, k, next);
      assert |BothRead(st, lost, k, next)| > |EntriesOnFile(st)|;
    }
  }
}
