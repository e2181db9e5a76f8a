/** Layout does not matter: whitespace between the tokens of a JSON text, any amount of it at every place, is not read. */
module JsonLayout {
  import opened JsonText

  // ---------------------------------------------------------------- writing with gaps

  /** What stands between a token and `rest`: any place may have its own whitespace. */
  type Layout = string -> string

  ghost predicate Spaces(w: Layout) {
    forall rest, i :: 0 <= i < |w(rest)| ==> w(rest)[i] in [' ', '\t', '\n', '\r']
  }

  function Gap(w: Layout, rest: string): string {
    w(rest) + rest
  }

  function Lay(v: Json, w: Layout, tail: string): string
    decreases v, 2
  {
    match v
    case Arr(items) => ['['] + Gap(w, if items == [] then [']'] + tail else LayItems(items, w, tail))
    case Obj(members) => ['{'] + Gap(w, if members == [] then ['}'] + tail else LayMembers(members, w, tail))
    case _ => Emit(v, tail)
  }

  function LayItems(items: seq<Json>, w: Layout, tail: string): string
    requires items != []
    decreases items, 1
  {
    Lay(items[0], w, Gap(w, if |items| == 1 then [']'] + tail else [','] + Gap(w, LayItems(items[1..], w, tail))))
  }

  function LayMembers(members: seq<Member>, w: Layout, tail: string): string
    requires members != []
    decreases members, 1
  {
    var more := Gap(w, if |members| == 1 then ['}'] + tail else [','] + Gap(w, LayMembers(members[1..], w, tail)));
    ['"'] + EmitChars(members[0].key, Gap(w, [':'] + Gap(w, Lay(members[0].value, w, more))))
  }

  /** A whole document, with whitespace in front and behind as well. */
  function Document(v: Json, w: Layout): string {
    Gap(w, Lay(v, w, w("")))
  }

  // ---------------------------------------------------------------- reading past the gaps

  lemma {:induction false} SkipPast(ws: string, rest: string)
    requires forall i :: 0 <= i < |ws| ==> IsJsonSpace(ws[i])
    ensures SkipSpace(ws + rest) == SkipSpace(rest)
  {
    if ws == "" {
      assert ws + rest == rest;
    } else {
      assert (ws + rest)[1..] == ws[1..] + rest;
      SkipPast(ws[1..], rest);
    }
  }

  lemma GapSkipped(w: Layout, rest: string)
    requires Spaces(w) && rest != "" && !IsJsonSpace(rest[0])
    ensures SkipSpace(Gap(w, rest)) == rest
  {
    SkipPast(w(rest), rest);
  }

  lemma GapSeparates(w: Layout, rest: string)
    requires Spaces(w) && Separated(rest)
    ensures Separated(Gap(w, rest))
  {
  }

  lemma LaidHead(v: Json, w: Layout, tail: string)
    ensures var t := Lay(v, w, tail);
            t != "" && !IsJsonSpace(t[0]) && t[0] != ']' && t[0] != '}' && SkipSpace(t) == t
  {
    if !v.Arr? && !v.Obj? {
      EmittedHead(v, tail);
    }
  }

  lemma {:induction false} ReadLaid(v: Json, w: Layout, tail: string)
    requires Spaces(w) && Separated(tail)
    ensures ParseValue(Lay(v, w, tail)) == Done(v, tail)
    decreases v, 4
  {
    match v {
      case Arr(items) => ReadArray(items, w, tail);
      case Obj(members) => ReadObject(members, w, tail);
      case _ => ParseEmitted(v, tail);
    }
  }

  lemma {:induction false} ReadArray(items: seq<Json>, w: Layout, tail: string)
    requires Spaces(w) && Separated(tail)
    ensures ParseValue(Lay(Arr(items), w, tail)) == Done(Arr(items), tail)
    decreases items, 3
  {
    var body := if items == [] then [']'] + tail else LayItems(items, w, tail);
    assert Lay(Arr(items), w, tail)[1..] == Gap(w, body);
    if items == [] {
      assert body[1..] == tail;
    } else {
      LaidItemsHead(items, w, tail);
      ReadItems(items, w, tail);
    }
    GapSkipped(w, body);
    assert ParseArray(body) == Done(Arr(items), tail);
  }

  lemma LaidItemsHead(items: seq<Json>, w: Layout, tail: string)
    requires items != []
    ensures var t := LayItems(items, w, tail); t != "" && t[0] != ']' && !IsJsonSpace(t[0])
  {
    LaidHead(items[0], w, Gap(w, if |items| == 1 then [']'] + tail else [','] + Gap(w, LayItems(items[1..], w, tail))));
  }

  lemma {:induction false} ReadItems(items: seq<Json>, w: Layout, tail: string)
    requires items != [] && Spaces(w) && Separated(tail)
    ensures ParseItems(LayItems(items, w, tail)) == Done(items, tail)
    decreases items, 1
  {
    var next := if |items| == 1 then [']'] + tail else [','] + Gap(w, LayItems(items[1..], w, tail));
    GapSeparates(w, next);
    ReadLaid(items[0], w, Gap(w, next));
    ReadItemsAfter(items[0], items[1..], w, tail);
    assert [items[0]] + items[1..] == items;
    ItemsParsed(LayItems(items, w, tail), items[0], Gap(w, next), items[1..], tail);
  }

  lemma ItemsParsed(s: string, v: Json, r0: string, vs: seq<Json>, tail: string)
    requires ParseValue(s) == Done(v, r0) && ParseItemsAfter(v, r0) == Done([v] + vs, tail)
    ensures ParseItems(s) == Done([v] + vs, tail)
  {
  }

  lemma {:induction false} ReadItemsAfter(v: Json, vs: seq<Json>, w: Layout, tail: string)
    requires Spaces(w) && Separated(tail)
    ensures var next := if vs == [] then [']'] + tail else [','] + Gap(w, LayItems(vs, w, tail));
            ParseItemsAfter(v, Gap(w, next)) == Done([v] + vs, tail)
    decreases vs, 2
  {
    if vs == [] {
      var next := [']'] + tail;
      GapSkipped(w, next);
      assert next[1..] == tail && [v] + vs == [v];
    } else {
      var rest := LayItems(vs, w, tail);
      var next := [','] + Gap(w, rest);
      GapSkipped(w, next);
      assert next[1..] == Gap(w, rest);
      LaidItemsHead(vs, w, tail);
      GapSkipped(w, rest);
      ReadItems(vs, w, tail);
    }
  }

  lemma {:induction false} ReadObject(members: seq<Member>, w: Layout, tail: string)
    requires Spaces(w) && Separated(tail)
    ensures ParseValue(Lay(Obj(members), w, tail)) == Done(Obj(members), tail)
    decreases members, 3
  {
    var body := if members == [] then ['}'] + tail else LayMembers(members, w, tail);
    assert Lay(Obj(members), w, tail)[1..] == Gap(w, body);
    if members == [] {
      assert body[1..] == tail;
    } else {
      ReadMembers(members, w, tail);
    }
    GapSkipped(w, body);
    assert ParseObject(body) == Done(Obj(members), tail);
  }

  lemma {:induction false} ReadMember(m: Member, w: Layout, more: string)
    requires Spaces(w) && Separated(more)
    ensures ParseMember(['"'] + EmitChars(m.key, Gap(w, [':'] + Gap(w, Lay(m.value, w, more))))) == Done(m, more)
    decreases m, 3
  {
    var value := Lay(m.value, w, more);
    var colon := [':'] + Gap(w, value);
    var s := ['"'] + EmitChars(m.key, Gap(w, colon));
    assert s[1..] == EmitChars(m.key, Gap(w, colon));
    ParseEmittedChars(m.key, Gap(w, colon));
    GapSkipped(w, colon);
    assert colon[1..] == Gap(w, value);
    LaidHead(m.value, w, more);
    GapSkipped(w, value);
    ReadLaid(m.value, w, more);
  }

  lemma {:induction false} ReadMembers(members: seq<Member>, w: Layout, tail: string)
    requires members != [] && Spaces(w) && Separated(tail)
    ensures ParseMembers(LayMembers(members, w, tail)) == Done(members, tail)
    decreases members, 2
  {
    var next := if |members| == 1 then ['}'] + tail else [','] + Gap(w, LayMembers(members[1..], w, tail));
    GapSeparates(w, next);
    ReadMember(members[0], w, Gap(w, next));
    ReadMembersAfter(members[0], members[1..], w, tail);
    assert [members[0]] + members[1..] == members;
  }

  lemma {:induction false} ReadMembersAfter(m: Member, ms: seq<Member>, w: Layout, tail: string)
    requires Spaces(w) && Separated(tail)
    ensures var next := if ms == [] then ['}'] + tail else [','] + Gap(w, LayMembers(ms, w, tail));
            ParseMembersAfter(m, Gap(w, next)) == Done([m] + ms, tail)
    decreases ms, 3
  {
    if ms == [] {
      var next := ['}'] + tail;
      GapSkipped(w, next);
      assert next[1..] == tail && [m] + ms == [m];
    } else {
      var rest := LayMembers(ms, w, tail);
      var next := [','] + Gap(w, rest);
      GapSkipped(w, next);
      assert next[1..] == Gap(w, rest);
      GapSkipped(w, rest);
      ReadMembers(ms, w, tail);
    }
  }

  /** Any value, written with any whitespace at every place where JSON has room for some, is read as that value. */
  lemma LayoutIgnored(v: Json, w: Layout)
    requires Spaces(w)
    ensures Parse(Document(v, w)) == Done(v, "")
  {
    var text, end := Lay(v, w, w("")), w("");
    LaidHead(v, w, end);
    GapSkipped(w, text);
    assert end + "" == end;
    SkipPast(end, "");
    assert Separated(end);
    ReadLaid(v, w, end);
  }

  ghost predicate Plain(w: Layout) {
    forall rest :: w(rest) == ""
  }

  lemma NoGap(w: Layout, rest: string)
    requires Plain(w)
    ensures Gap(w, rest) == rest
  {
  }

  /** Written without any, it is what `JSON.stringify` writes. */
  lemma {:induction false} PlainIsEmitted(v: Json, w: Layout, tail: string)
    requires Plain(w)
    ensures Lay(v, w, tail) == Emit(v, tail)
    decreases v, 2
  {
    match v {
      case Arr(items) =>
        NoGap(w, if items == [] then [']'] + tail else LayItems(items, w, tail));
        if items != [] {
          PlainItems(items, w, tail);
        }
      case Obj(members) =>
        NoGap(w, if members == [] then ['}'] + tail else LayMembers(members, w, tail));
        if members != [] {
          PlainMembers(members, w, tail);
        }
      case _ =>
    }
  }

  lemma {:induction false} PlainItems(items: seq<Json>, w: Layout, tail: string)
    requires items != [] && Plain(w)
    ensures LayItems(items, w, tail) == EmitItems(items, tail)
    decreases items, 1
  {
    var more := if |items| == 1 then [']'] + tail else [','] + EmitItems(items[1..], tail);
    NoGap(w, more);
    if |items| > 1 {
      PlainItems(items[1..], w, tail);
      NoGap(w, LayItems(items[1..], w, tail));
    }
    PlainIsEmitted(items[0], w, more);
  }

  lemma {:induction false} PlainMembers(members: seq<Member>, w: Layout, tail: string)
    requires members != [] && Plain(w)
    ensures LayMembers(members, w, tail) == EmitMembers(members, tail)
    decreases members, 1
  {
    var more := if |members| == 1 then ['}'] + tail else [','] + EmitMembers(members[1..], tail);
    NoGap(w, more);
    if |members| > 1 {
      PlainMembers(members[1..], w, tail);
      NoGap(w, LayMembers(members[1..], w, tail));
    }
    var value := Emit(members[0].value, more);
    PlainIsEmitted(members[0].value, w, more);
    NoGap(w, value);
    NoGap(w, [':'] + value);
  }

  // ---------------------------------------------------------------- escapes

  /** Four hex digits. */
  function HexText(n: nat): string
    requires n < 0x1_0000
  {
    [HexChar(n / 4096), HexChar(n / 256 % 16), HexChar(n / 16 % 16), HexChar(n % 16)]
  }

  /** The escape of any character: one unit, or a surrogate pair beyond 0xFFFF (section 7 of RFC 8259). */
  function Escaped(c: char): string {
    var n := c as int;
    if n < 0x1_0000 then ['\\', 'u'] + HexText(n)
    else
      var m := n - 0x1_0000;
      ['\\', 'u'] + HexText(0xD800 + m / 0x400) + ['\\', 'u'] + HexText(0xDC00 + m % 0x400)
  }

  lemma HexDigit(d: nat)
    requires d < 16
    ensures HexValue(HexChar(d)) == d
  {
  }

  lemma FourDigits(a: nat, b: nat, c: nat, d: nat, tail: string)
    requires a < 16 && b < 16 && c < 16 && d < 16
    ensures Hex4([HexChar(a), HexChar(b), HexChar(c), HexChar(d)] + tail) == a * 4096 + b * 256 + c * 16 + d
  {
    HexDigit(a);
    HexDigit(b);
    HexDigit(c);
    HexDigit(d);
    var s := [HexChar(a), HexChar(b), HexChar(c), HexChar(d)] + tail;
    assert s[0] == HexChar(a) && s[1] == HexChar(b) && s[2] == HexChar(c) && s[3] == HexChar(d);
  }

  lemma Places(n: nat)
    ensures n / 4096 * 4096 + n / 256 % 16 * 256 + n / 16 % 16 * 16 + n % 16 == n
  {
    assert n / 256 / 16 == n / 4096 && n / 16 / 16 == n / 256;
  }

  lemma HexRead(n: nat, tail: string)
    requires n < 0x1_0000
    ensures Hex4(HexText(n) + tail) == n && (HexText(n) + tail)[4..] == tail
  {
    FourDigits(n / 4096, n / 256 % 16, n / 16 % 16, n % 16, tail);
    Places(n);
  }

  lemma EscapeStarts(hex: string, tail: string)
    ensures ParseChar(['\\', 'u'] + hex + tail) == ParseUnicode(hex + tail)
  {
    var s := ['\\', 'u'] + hex + tail;
    assert s[1..][1..] == hex + tail;
  }

  lemma UnitRead(c: char, tail: string)
    requires c as int < 0x1_0000
    ensures ParseUnicode(HexText(c as int) + tail) == Done(c, tail)
  {
    HexRead(c as int, tail);
  }

  lemma PairParsed(a: string, b: string, high: nat, low: nat, tail: string)
    requires high < 0x400 && low < 0x400 && |a| == 4 && |b| == 4
    requires Hex4(a + (['\\', 'u'] + b + tail)) == 0xD800 + high && Hex4(b + tail) == 0xDC00 + low
    ensures ParseUnicode(a + (['\\', 'u'] + b + tail)) == Done((0x1_0000 + high * 0x400 + low) as char, tail)
  {
    var s := a + (['\\', 'u'] + b + tail);
    assert s[4] == '\\' && s[5] == 'u' && s[6..] == b + tail && s[10..] == tail;
  }

  lemma PairRead(high: nat, low: nat, tail: string)
    requires high < 0x400 && low < 0x400
    ensures ParseUnicode(HexText(0xD800 + high) + (['\\', 'u'] + HexText(0xDC00 + low) + tail))
         == Done((0x1_0000 + high * 0x400 + low) as char, tail)
  {
    var a, b := HexText(0xD800 + high), HexText(0xDC00 + low);
    HexRead(0xDC00 + low, tail);
    HexRead(0xD800 + high, ['\\', 'u'] + b + tail);
    PairParsed(a, b, high, low, tail);
  }

  lemma Regrouped(a: string, b: string, tail: string)
    ensures (['\\', 'u'] + a + ['\\', 'u'] + b) + tail == ['\\', 'u'] + a + (['\\', 'u'] + b + tail)
  {
  }

  lemma LongRead(high: nat, low: nat, tail: string)
    requires high < 0x400 && low < 0x400
    ensures ParseChar((['\\', 'u'] + HexText(0xD800 + high) + ['\\', 'u'] + HexText(0xDC00 + low)) + tail)
         == Done((0x1_0000 + high * 0x400 + low) as char, tail)
  {
    var a, b := HexText(0xD800 + high), HexText(0xDC00 + low);
    PairRead(high, low, tail);
    EscapeStarts(a, ['\\', 'u'] + b + tail);
    Regrouped(a, b, tail);
  }

  lemma ShortEscape(c: char, tail: string)
    requires c as int < 0x1_0000
    ensures ParseChar(Escaped(c) + tail) == Done(c, tail)
  {
    EscapeStarts(HexText(c as int), tail);
    UnitRead(c, tail);
  }

  lemma EscapedPair(c: char, high: nat, low: nat)
    requires c as int == 0x1_0000 + high * 0x400 + low && high < 0x400 && low < 0x400
    ensures Escaped(c) == ['\\', 'u'] + HexText(0xD800 + high) + ['\\', 'u'] + HexText(0xDC00 + low)
  {
    var m := c as int - 0x1_0000;
    assert m / 0x400 == high && m % 0x400 == low;
  }

  lemma LongEscape(c: char, high: nat, low: nat, tail: string)
    requires c as int == 0x1_0000 + high * 0x400 + low && high < 0x400 && low < 0x400
    ensures ParseChar(Escaped(c) + tail) == Done(c, tail)
  {
    EscapedPair(c, high, low);
    LongRead(high, low, tail);
    assert (0x1_0000 + high * 0x400 + low) as char == c;
  }

  /** Every character may be written as its escape. */
  lemma EscapeRead(c: char, tail: string)
    ensures ParseChar(Escaped(c) + tail) == Done(c, tail)
  {
    if c as int < 0x1_0000 {
      ShortEscape(c, tail);
    } else {
      var m := c as int - 0x1_0000;
      LongEscape(c, m / 0x400, m % 0x400, tail);
    }
  }
}
