/**
 JSON text as the library sees it through `JSON.stringify` and `JSON.parse` (RFC 8259).

 `Emit(v, tail)` writes `v` in front of `tail`. Writing in front of a given tail, instead of
 concatenating afterwards, keeps the round-trip proof free of sequence re-association.
 `ParseValue` reads one value from the front of a text and returns what is left.
 */
module JsonText {

  /** A number literal denotes `mantissa * 10^exponent`. */
  datatype Json =
    | Null
    | Bool(b: bool)
    | Num(mantissa: int, exponent: int)
    | Str(s: string)
    | Arr(items: seq<Json>)
    | Obj(members: seq<Member>)

  /** One `"key": value` pair of an object. */
  datatype Member = Member(key: string, value: Json)

  datatype Parsed<+T> = Fail | Done(value: T, rest: string)

  // ---------------------------------------------------------------- characters

  /** The four characters JSON treats as insignificant whitespace. */
  predicate IsJsonSpace(c: char) {
    c == ' ' || c == '\t' || c == '\n' || c == '\r'
  }

  predicate IsDigit(c: char) {
    '0' <= c <= '9'
  }

  function DigitValue(c: char): nat
    requires IsDigit(c)
  {
    (c as int) - ('0' as int)
  }

  function DigitChar(d: nat): char
    requires d < 10
  {
    (('0' as int) + d) as char
  }

  /** A character that would prolong a number literal. */
  predicate ContinuesNumber(c: char) {
    IsDigit(c) || c == '.' || c == 'e' || c == 'E'
  }

  /** `tail` can follow any value without being read as part of it. */
  predicate Separated(tail: string) {
    tail != "" ==> !ContinuesNumber(tail[0])
  }

  function HexValue(c: char): int {
    if '0' <= c <= '9' then (c as int) - ('0' as int)
    else if 'a' <= c <= 'f' then (c as int) - ('a' as int) + 10
    else if 'A' <= c <= 'F' then (c as int) - ('A' as int) + 10
    else -1
  }

  function HexChar(d: nat): char
    requires d < 16
  {
    if d < 10 then (('0' as int) + d) as char else (('a' as int) + d - 10) as char
  }

  // ---------------------------------------------------------------- writing

  function EmitNat(n: nat, tail: string): string {
    if n < 10 then [DigitChar(n)] + tail else EmitNat(n / 10, [DigitChar(n % 10)] + tail)
  }

  function EmitInt(n: int, tail: string): string {
    if n < 0 then ['-'] + EmitNat(-n, tail) else EmitNat(n, tail)
  }

  /** A whole number is written in plain decimal; any other carries its power of ten. */
  function EmitNum(mantissa: int, exponent: int, tail: string): string {
    EmitInt(mantissa, if exponent == 0 then tail else ['e'] + EmitInt(exponent, tail))
  }

  /** String escaping, section 7 of RFC 8259, in the short forms `JSON.stringify` chooses. */
  function EmitChar(c: char, tail: string): string {
    if c == '"' then ['\\', '"'] + tail
    else if c == '\\' then ['\\', '\\'] + tail
    else if c == '\n' then ['\\', 'n'] + tail
    else if c == '\r' then ['\\', 'r'] + tail
    else if c == '\t' then ['\\', 't'] + tail
    else if c as int == 8 then ['\\', 'b'] + tail
    else if c as int == 12 then ['\\', 'f'] + tail
    else if c as int < 0x20 then
      ['\\', 'u', '0', '0', HexChar(c as int / 16), HexChar(c as int % 16)] + tail
    else [c] + tail
  }

  function EmitChars(s: string, tail: string): string {
    if s == "" then ['"'] + tail else EmitChar(s[0], EmitChars(s[1..], tail))
  }

  function Emit(v: Json, tail: string): string
    decreases v, 2
  {
    match v
    case Null => ['n', 'u', 'l', 'l'] + tail
    case Bool(b) => if b then ['t', 'r', 'u', 'e'] + tail else ['f', 'a', 'l', 's', 'e'] + tail
    case Num(m, e) => EmitNum(m, e, tail)
    case Str(s) => ['"'] + EmitChars(s, tail)
    case Arr(items) => if items == [] then ['[', ']'] + tail else ['['] + EmitItems(items, tail)
    case Obj(members) => if members == [] then ['{', '}'] + tail else ['{'] + EmitMembers(members, tail)
  }

  function EmitItems(items: seq<Json>, tail: string): string
    requires items != []
    decreases items, 1
  {
    Emit(items[0], if |items| == 1 then [']'] + tail else [','] + EmitItems(items[1..], tail))
  }

  function EmitMembers(members: seq<Member>, tail: string): string
    requires members != []
    decreases members, 1
  {
    var more := if |members| == 1 then ['}'] + tail else [','] + EmitMembers(members[1..], tail);
    ['"'] + EmitChars(members[0].key, [':'] + Emit(members[0].value, more))
  }

  /** `JSON.stringify(v)`. */
  function Stringify(v: Json): string {
    Emit(v, "")
  }

  // ---------------------------------------------------------------- reading

  function SkipSpace(s: string): (r: string)
    ensures |r| <= |s|
    ensures r == "" || !IsJsonSpace(r[0])
  {
    if s != "" && IsJsonSpace(s[0]) then SkipSpace(s[1..]) else s
  }

  /** Read a possibly empty run of digits onto `acc`. */
  function TakeDigits(s: string, acc: nat): (r: (nat, string))
    ensures |r.1| <= |s|
  {
    if s != "" && IsDigit(s[0]) then TakeDigits(s[1..], acc * 10 + DigitValue(s[0])) else (acc, s)
  }

  /** A run of at least one digit. */
  function ParseDigits(s: string, acc: nat): (r: Parsed<nat>)
    ensures r.Done? ==> |r.rest| < |s|
  {
    if s != "" && IsDigit(s[0]) then
      var (n, rest) := TakeDigits(s[1..], acc * 10 + DigitValue(s[0]));
      Done(n, rest)
    else Fail
  }

  /** `0`, or digits that do not start with `0`. */
  function ParseWhole(s: string): (r: Parsed<nat>)
    ensures r.Done? ==> |r.rest| < |s|
  {
    if s != "" && s[0] == '0' then Done(0, s[1..]) else ParseDigits(s, 0)
  }

  /** The optional exponent; a literal without one has exponent 0. */
  function ParseExponent(s: string): (r: Parsed<int>)
    ensures r.Done? ==> |r.rest| <= |s|
  {
    if s == "" || (s[0] != 'e' && s[0] != 'E') then Done(0, s)
    else
      var t := s[1..];
      var digits := if t != "" && (t[0] == '+' || t[0] == '-') then t[1..] else t;
      match ParseDigits(digits, 0)
      case Fail => Fail
      case Done(n, rest) => Done(if t[0] == '-' then -(n as int) else n, rest)
  }

  function ParseUnsigned(s: string): (r: Parsed<(nat, int)>)
    ensures r.Done? ==> |r.rest| < |s|
  {
    match ParseWhole(s)
    case Fail => Fail
    case Done(whole, r0) =>
      if r0 != "" && r0[0] == '.' then
        match ParseDigits(r0[1..], whole)
        case Fail => Fail
        case Done(m, r1) =>
          match ParseExponent(r1)
          case Fail => Fail
          case Done(e, r2) => Done((m, e - (|r0| - 1 - |r1|)), r2)
      else
        match ParseExponent(r0)
        case Fail => Fail
        case Done(e, r2) => Done((whole, e), r2)
  }

  function ParseNumber(s: string): (r: Parsed<Json>)
    ensures r.Done? ==> |r.rest| < |s|
  {
    var negative := s != "" && s[0] == '-';
    match ParseUnsigned(if negative then s[1..] else s)
    case Fail => Fail
    case Done((m, e), rest) => Done(Num(if negative then -(m as int) else m, e), rest)
  }

  /** The number that the first four characters spell in hex, or -1. */
  function Hex4(s: string): (n: int)
    ensures -1 <= n < 0x1_0000
    ensures n >= 0 ==> |s| >= 4
  {
    if |s| < 4 || exists i :: 0 <= i < 4 && HexValue(s[i]) < 0 then -1
    else HexValue(s[0]) * 4096 + HexValue(s[1]) * 256 + HexValue(s[2]) * 16 + HexValue(s[3])
  }

  /**
   What follows `\u`: four hex digits, and for a character beyond 0xFFFF the second half of its surrogate
   pair. A lone surrogate has no `char`, so it is refused.
   */
  function ParseUnicode(s: string): (r: Parsed<char>)
    ensures r.Done? ==> |r.rest| < |s|
  {
    var n := Hex4(s);
    if 0 <= n < 0xD800 || 0xE000 <= n then Done(n as char, s[4..])
    else if 0xD800 <= n < 0xDC00 && |s| >= 6 && s[4] == '\\' && s[5] == 'u' && 0xDC00 <= Hex4(s[6..]) < 0xE000 then
      Done((0x1_0000 + (n - 0xD800) * 0x400 + (Hex4(s[6..]) - 0xDC00)) as char, s[10..])
    else Fail
  }

  /** One escape sequence, after its backslash. */
  function ParseEscape(s: string): (r: Parsed<char>)
    ensures r.Done? ==> |r.rest| < |s|
  {
    if s == "" then Fail
    else if s[0] == '"' || s[0] == '\\' || s[0] == '/' then Done(s[0], s[1..])
    else if s[0] == 'b' then Done(8 as char, s[1..])
    else if s[0] == 'f' then Done(12 as char, s[1..])
    else if s[0] == 'n' then Done('\n', s[1..])
    else if s[0] == 'r' then Done('\r', s[1..])
    else if s[0] == 't' then Done('\t', s[1..])
    else if s[0] == 'u' then ParseUnicode(s[1..])
    else Fail
  }

  /** One string character, escaped or plain. */
  function ParseChar(s: string): (r: Parsed<char>)
    ensures r.Done? ==> |r.rest| < |s|
  {
    if s == "" || s[0] as int < 0x20 || s[0] == '"' then Fail
    else if s[0] == '\\' then ParseEscape(s[1..])
    else Done(s[0], s[1..])
  }

  /** A string's characters up to and including its closing quote. */
  function ParseChars(s: string): (r: Parsed<string>)
    ensures r.Done? ==> |r.rest| < |s|
    decreases |s|
  {
    if s != "" && s[0] == '"' then Done("", s[1..])
    else
      match ParseChar(s)
      case Fail => Fail
      case Done(c, r0) =>
        match ParseChars(r0)
        case Fail => Fail
        case Done(cs, r1) => Done([c] + cs, r1)
  }

  function ParseWord(word: string, v: Json, s: string): (r: Parsed<Json>)
    requires word != ""
    ensures r.Done? ==> |r.rest| < |s|
  {
    if word <= s then Done(v, s[|word|..]) else Fail
  }

  function ParseValue(s: string): (r: Parsed<Json>)
    ensures r.Done? ==> |r.rest| < |s|
    decreases |s|, 6
  {
    if s == "" then Fail
    else if s[0] == '{' then ParseObject(SkipSpace(s[1..]))
    else if s[0] == '[' then ParseArray(SkipSpace(s[1..]))
    else if s[0] == '"' then
      match ParseChars(s[1..])
      case Fail => Fail
      case Done(cs, rest) => Done(Str(cs), rest)
    else if s[0] == 't' then ParseWord("true", Bool(true), s)
    else if s[0] == 'f' then ParseWord("false", Bool(false), s)
    else if s[0] == 'n' then ParseWord("null", Null, s)
    else ParseNumber(s)
  }

  /** An object, after its opening brace. */
  function ParseObject(t: string): (r: Parsed<Json>)
    ensures r.Done? ==> |r.rest| < |t|
    decreases |t|, 9
  {
    if t != "" && t[0] == '}' then Done(Obj([]), t[1..])
    else
      match ParseMembers(t)
      case Fail => Fail
      case Done(members, rest) => Done(Obj(members), rest)
  }

  /** An array, after its opening bracket. */
  function ParseArray(t: string): (r: Parsed<Json>)
    ensures r.Done? ==> |r.rest| < |t|
    decreases |t|, 9
  {
    if t != "" && t[0] == ']' then Done(Arr([]), t[1..])
    else
      match ParseItems(t)
      case Fail => Fail
      case Done(items, rest) => Done(Arr(items), rest)
  }

  /** Array elements up to and including the closing bracket. */
  function ParseItems(s: string): (r: Parsed<seq<Json>>)
    ensures r.Done? ==> |r.rest| < |s|
    decreases |s|, 7
  {
    match ParseValue(s)
    case Fail => Fail
    case Done(v, r0) => ParseItemsAfter(v, r0)
  }

  function ParseItemsAfter(v: Json, r0: string): (r: Parsed<seq<Json>>)
    ensures r.Done? ==> |r.rest| < |r0|
    decreases |r0|, 9
  {
    var t := SkipSpace(r0);
    if t == "" then Fail
    else if t[0] == ']' then Done([v], t[1..])
    else if t[0] == ',' then
      match ParseItems(SkipSpace(t[1..]))
      case Fail => Fail
      case Done(vs, r1) => Done([v] + vs, r1)
    else Fail
  }

  /** One member of an object. */
  function ParseMember(s: string): (r: Parsed<Member>)
    ensures r.Done? ==> |r.rest| < |s|
    decreases |s|, 7
  {
    if s == "" || s[0] != '"' then Fail
    else
      match ParseChars(s[1..])
      case Fail => Fail
      case Done(key, r0) =>
        var t := SkipSpace(r0);
        if t == "" || t[0] != ':' then Fail
        else
          match ParseValue(SkipSpace(t[1..]))
          case Fail => Fail
          case Done(v, r1) => Done(Member(key, v), r1)
  }

  /** Object members up to and including the closing brace. */
  function ParseMembers(s: string): (r: Parsed<seq<Member>>)
    ensures r.Done? ==> |r.rest| < |s|
    decreases |s|, 8
  {
    match ParseMember(s)
    case Fail => Fail
    case Done(m, r0) => ParseMembersAfter(m, r0)
  }

  function ParseMembersAfter(m: Member, r0: string): (r: Parsed<seq<Member>>)
    ensures r.Done? ==> |r.rest| < |r0|
    decreases |r0|, 9
  {
    var t := SkipSpace(r0);
    if t == "" then Fail
    else if t[0] == '}' then Done([m], t[1..])
    else if t[0] == ',' then
      match ParseMembers(SkipSpace(t[1..]))
      case Fail => Fail
      case Done(ms, r1) => Done([m] + ms, r1)
    else Fail
  }

  /** `JSON.parse(text)`: one value with whitespace around it and nothing else. */
  function Parse(text: string): Parsed<Json> {
    match ParseValue(SkipSpace(text))
    case Fail => Fail
    case Done(v, rest) => if SkipSpace(rest) == "" then Done(v, "") else Fail
  }

  // ---------------------------------------------------------------- round trip

  lemma {:induction false} TakeEmittedNat(n: nat, tail: string)
    ensures TakeDigits(EmitNat(n, tail), 0) == TakeDigits(tail, n)
    decreases n
  {
    if n < 10 {
      assert ([DigitChar(n)] + tail)[1..] == tail;
    } else {
      var t := [DigitChar(n % 10)] + tail;
      TakeEmittedNat(n / 10, t);
      assert t[1..] == tail;
    }
  }

  /** The digits of a positive number start with a digit other than `0`. */
  lemma {:induction false} EmittedNatHead(n: nat, tail: string)
    ensures var t := EmitNat(n, tail); t != "" && IsDigit(t[0]) && (t[0] == '0' <==> n == 0)
    ensures n == 0 ==> EmitNat(n, tail)[1..] == tail
    decreases n
  {
    if n >= 10 {
      EmittedNatHead(n / 10, [DigitChar(n % 10)] + tail);
    }
  }

  lemma TakeDigitsStops(tail: string, n: nat)
    requires Separated(tail)
    ensures TakeDigits(tail, n) == (n, tail)
  {
  }

  lemma ParseEmittedDigits(n: nat, tail: string)
    requires Separated(tail)
    ensures ParseDigits(EmitNat(n, tail), 0) == Done(n, tail)
  {
    EmittedNatHead(n, tail);
    TakeEmittedNat(n, tail);
    TakeDigitsStops(tail, n);
  }

  lemma ParseEmittedWhole(n: nat, tail: string)
    requires tail != "" ==> !IsDigit(tail[0])
    ensures ParseWhole(EmitNat(n, tail)) == Done(n, tail)
  {
    EmittedNatHead(n, tail);
    TakeEmittedNat(n, tail);
    assert TakeDigits(tail, n) == (n, tail);
  }

  lemma ParseEmittedExponent(e: int, tail: string)
    requires Separated(tail)
    ensures ParseExponent(['e'] + EmitInt(e, tail)) == Done(e, tail)
  {
    var s := ['e'] + EmitInt(e, tail);
    assert s[1..] == EmitInt(e, tail);
    if e < 0 {
      assert s[1..][1..] == EmitNat(-e, tail);
      ParseEmittedDigits(-e, tail);
    } else {
      EmittedNatHead(e, tail);
      ParseEmittedDigits(e, tail);
    }
  }

  lemma ParseEmittedUnsigned(m: nat, e: int, tail: string)
    requires Separated(tail)
    ensures ParseUnsigned(EmitNat(m, if e == 0 then tail else ['e'] + EmitInt(e, tail))) == Done((m, e), tail)
  {
    var more := if e == 0 then tail else ['e'] + EmitInt(e, tail);
    ParseEmittedWhole(m, more);
    if e != 0 {
      ParseEmittedExponent(e, tail);
    }
  }

  lemma ParseEmittedNum(m: int, e: int, tail: string)
    requires Separated(tail)
    ensures ParseNumber(EmitNum(m, e, tail)) == Done(Num(m, e), tail)
    ensures var t := EmitNum(m, e, tail); t != "" && (t[0] == '-' || IsDigit(t[0]))
  {
    var more := if e == 0 then tail else ['e'] + EmitInt(e, tail);
    if m < 0 {
      ParseEmittedUnsigned(-m, e, tail);
      assert EmitNum(m, e, tail)[1..] == EmitNat(-m, more);
    } else {
      ParseEmittedUnsigned(m, e, tail);
      EmittedNatHead(m, more);
    }
  }

  lemma ParseEmittedChar(c: char, tail: string)
    ensures ParseChar(EmitChar(c, tail)) == Done(c, tail)
    ensures EmitChar(c, tail) != "" && EmitChar(c, tail)[0] != '"'
  {
    var s := EmitChar(c, tail);
    if c as int < 0x20 && c != '\n' && c != '\r' && c != '\t' && c as int != 8 && c as int != 12 {
      var hex := s[2..];
      assert s[1..][1..] == hex;
      assert hex == ['0', '0', HexChar(c as int / 16), HexChar(c as int % 16)] + tail;
      assert hex[4..] == tail;
      assert HexValue(hex[2]) == c as int / 16 && HexValue(hex[3]) == c as int % 16;
    } else if c == '"' || c == '\\' || c as int < 0x20 {
      assert s[1..][1..] == tail;
    } else {
      assert s[1..] == tail;
    }
  }

  lemma {:induction false} ParseEmittedChars(s: string, tail: string)
    ensures ParseChars(EmitChars(s, tail)) == Done(s, tail)
  {
    if s == "" {
      assert (['"'] + tail)[1..] == tail;
    } else {
      var more := EmitChars(s[1..], tail);
      ParseEmittedChar(s[0], more);
      ParseEmittedChars(s[1..], tail);
      assert [s[0]] + s[1..] == s;
    }
  }

  /** The first character of a written value is never whitespace or a closing bracket. */
  lemma EmittedHead(v: Json, tail: string)
    ensures var t := Emit(v, tail);
            t != "" && !IsJsonSpace(t[0]) && t[0] != ']' && t[0] != '}' && SkipSpace(t) == t
  {
    if v.Num? {
      var more := if v.exponent == 0 then tail else ['e'] + EmitInt(v.exponent, tail);
      EmittedNatHead(if v.mantissa < 0 then -v.mantissa else v.mantissa, more);
    }
  }

  lemma ParseEmittedWord(v: Json, tail: string)
    requires v.Null? || v.Bool?
    ensures ParseValue(Emit(v, tail)) == Done(v, tail)
  {
    var s := Emit(v, tail);
    var k := if v == Bool(false) then 5 else 4;
    assert s[k..] == tail;
  }

  lemma ParseEmittedScalar(v: Json, tail: string)
    requires v.Num? || v.Str?
    requires Separated(tail)
    ensures ParseValue(Emit(v, tail)) == Done(v, tail)
  {
    if v.Num? {
      ParseEmittedNum(v.mantissa, v.exponent, tail);
    } else {
      assert Emit(v, tail)[1..] == EmitChars(v.s, tail);
      ParseEmittedChars(v.s, tail);
    }
  }

  /** Reading back what was written returns the value and exactly the text that followed it. */
  lemma {:induction false} ParseEmitted(v: Json, tail: string)
    requires Separated(tail)
    ensures ParseValue(Emit(v, tail)) == Done(v, tail)
    decreases v, 4
  {
    if v.Null? || v.Bool? {
      ParseEmittedWord(v, tail);
    } else if v.Num? || v.Str? {
      ParseEmittedScalar(v, tail);
    } else if v.Arr? {
      ParseEmittedArray(v.items, tail);
    } else {
      ParseEmittedObject(v.members, tail);
    }
  }

  lemma {:induction false} ParseEmittedArray(items: seq<Json>, tail: string)
    requires Separated(tail)
    ensures ParseValue(Emit(Arr(items), tail)) == Done(Arr(items), tail)
    decreases items, 3
  {
    var t := Emit(Arr(items), tail)[1..];
    if items == [] {
      assert t == [']'] + tail && t[1..] == tail;
    } else {
      assert t == EmitItems(items, tail);
      EmittedItemsHead(items, tail);
      ParseEmittedItems(items, tail);
    }
    assert ParseArray(t) == Done(Arr(items), tail);
  }

  lemma {:induction false} ParseEmittedObject(members: seq<Member>, tail: string)
    requires Separated(tail)
    ensures ParseValue(Emit(Obj(members), tail)) == Done(Obj(members), tail)
    decreases members, 3
  {
    var t := Emit(Obj(members), tail)[1..];
    if members == [] {
      assert t == ['}'] + tail && t[1..] == tail;
    } else {
      assert t == EmitMembers(members, tail);
      ParseEmittedMembers(members, tail);
    }
    assert ParseObject(t) == Done(Obj(members), tail);
  }

  lemma EmittedItemsHead(items: seq<Json>, tail: string)
    requires items != []
    ensures var t := EmitItems(items, tail); t != "" && t[0] != ']' && SkipSpace(t) == t
  {
    EmittedHead(items[0], if |items| == 1 then [']'] + tail else [','] + EmitItems(items[1..], tail));
  }

  lemma {:induction false} ParseEmittedItems(items: seq<Json>, tail: string)
    requires items != [] && Separated(tail)
    ensures ParseItems(EmitItems(items, tail)) == Done(items, tail)
    decreases items, 1
  {
    var more := if |items| == 1 then [']'] + tail else [','] + EmitItems(items[1..], tail);
    ParseEmitted(items[0], more);
    if |items| == 1 {
      assert more[1..] == tail && items == [items[0]];
    } else {
      assert more[1..] == EmitItems(items[1..], tail);
      EmittedItemsHead(items[1..], tail);
      ParseEmittedItems(items[1..], tail);
      assert [items[0]] + items[1..] == items;
    }
  }

  lemma {:induction false} ParseEmittedMember(m: Member, more: string)
    requires Separated(more)
    ensures ParseMember(['"'] + EmitChars(m.key, [':'] + Emit(m.value, more))) == Done(m, more)
    decreases m, 3
  {
    var afterKey := [':'] + Emit(m.value, more);
    var s := ['"'] + EmitChars(m.key, afterKey);
    assert s[1..] == EmitChars(m.key, afterKey);
    ParseEmittedChars(m.key, afterKey);
    assert afterKey[1..] == Emit(m.value, more);
    EmittedHead(m.value, more);
    ParseEmitted(m.value, more);
  }

  lemma {:induction false} ParseEmittedMembers(members: seq<Member>, tail: string)
    requires members != [] && Separated(tail)
    ensures ParseMembers(EmitMembers(members, tail)) == Done(members, tail)
    decreases members, 2
  {
    var more := if |members| == 1 then ['}'] + tail else [','] + EmitMembers(members[1..], tail);
    ParseEmittedMember(members[0], more);
    ParseEmittedMembersAfter(members[0], members[1..], tail);
    assert [members[0]] + members[1..] == members;
  }

  lemma {:induction false} ParseEmittedMembersAfter(m: Member, ms: seq<Member>, tail: string)
    requires Separated(tail)
    ensures var more := if ms == [] then ['}'] + tail else [','] + EmitMembers(ms, tail);
            ParseMembersAfter(m, more) == Done([m] + ms, tail)
    decreases ms, 3
  {
    if ms == [] {
      assert (['}'] + tail)[1..] == tail && [m] + ms == [m];
    } else {
      assert ([','] + EmitMembers(ms, tail))[1..] == EmitMembers(ms, tail);
      ParseEmittedMembers(ms, tail);
    }
  }

  /** `JSON.parse(JSON.stringify(v))` is `v`, for every value. */
  lemma RoundTrip(v: Json)
    ensures Parse(Stringify(v)) == Done(v, "")
  {
    EmittedHead(v, "");
    ParseEmitted(v, "");
  }

  /** Distinct values have distinct texts. */
  lemma StringifyInjective(v: Json, w: Json)
    requires Stringify(v) == Stringify(w)
    ensures v == w
  {
    RoundTrip(v);
    RoundTrip(w);
  }

  // ---------------------------------------------------------------- extension

  /** What a value does not claim of a longer text: a bare number may go on, the rest may not. */
  predicate Closed(v: Json, rest: string) {
    rest != "" || !v.Num?
  }

  lemma {:induction false} SkipSpaceExtends(p: string, q: string)
    requires SkipSpace(p) != ""
    ensures SkipSpace(p + q) == SkipSpace(p) + q
  {
    if IsJsonSpace(p[0]) {
      assert (p + q)[1..] == p[1..] + q;
      SkipSpaceExtends(p[1..], q);
    }
  }

  lemma {:induction false} TakeDigitsExtends(p: string, acc: nat, q: string)
    requires TakeDigits(p, acc).1 != ""
    ensures TakeDigits(p + q, acc) == (TakeDigits(p, acc).0, TakeDigits(p, acc).1 + q)
  {
    if IsDigit(p[0]) {
      assert (p + q)[1..] == p[1..] + q;
      TakeDigitsExtends(p[1..], acc * 10 + DigitValue(p[0]), q);
    }
  }

  lemma ParseDigitsExtends(p: string, acc: nat, q: string)
    requires ParseDigits(p, acc).Done? && ParseDigits(p, acc).rest != ""
    ensures ParseDigits(p + q, acc) == Done(ParseDigits(p, acc).value, ParseDigits(p, acc).rest + q)
  {
    assert (p + q)[1..] == p[1..] + q;
    TakeDigitsExtends(p[1..], acc * 10 + DigitValue(p[0]), q);
  }

  lemma ParseExponentExtends(p: string, q: string)
    requires ParseExponent(p).Done? && ParseExponent(p).rest != ""
    ensures ParseExponent(p + q) == Done(ParseExponent(p).value, ParseExponent(p).rest + q)
  {
    if p[0] == 'e' || p[0] == 'E' {
      var t := p[1..];
      assert (p + q)[1..] == t + q;
      if t != "" && (t[0] == '+' || t[0] == '-') {
        assert (t + q)[1..] == t[1..] + q;
        ParseDigitsExtends(t[1..], 0, q);
      } else {
        ParseDigitsExtends(t, 0, q);
      }
    }
  }

  lemma ParseNumberExtends(p: string, q: string)
    requires ParseNumber(p).Done? && ParseNumber(p).rest != ""
    ensures ParseNumber(p + q) == Done(ParseNumber(p).value, ParseNumber(p).rest + q)
  {
    var negative := p != "" && p[0] == '-';
    var s := if negative then p[1..] else p;
    assert (if negative then (p + q)[1..] else p + q) == s + q;
    ParseUnsignedExtends(s, q);
  }

  lemma ParseUnsignedExtends(s: string, q: string)
    requires ParseUnsigned(s).Done? && ParseUnsigned(s).rest != ""
    ensures ParseUnsigned(s + q) == Done(ParseUnsigned(s).value, ParseUnsigned(s).rest + q)
  {
    var r0 := ParseWhole(s).rest;
    assert ParseWhole(s + q) == Done(ParseWhole(s).value, r0 + q) by {
      if s[0] == '0' {
        assert (s + q)[1..] == s[1..] + q;
      } else {
        ParseDigitsExtends(s, 0, q);
      }
    }
    if r0[0] == '.' {
      assert (r0 + q)[1..] == r0[1..] + q;
      ParseDigitsExtends(r0[1..], ParseWhole(s).value, q);
      ParseExponentExtends(ParseDigits(r0[1..], ParseWhole(s).value).rest, q);
    } else {
      ParseExponentExtends(r0, q);
    }
  }

  lemma Hex4Extends(h: string, q: string)
    requires Hex4(h) >= 0
    ensures Hex4(h + q) == Hex4(h)
  {
    assert forall i :: 0 <= i < 4 ==> (h + q)[i] == h[i];
  }

  lemma ParseUnicodeExtends(h: string, q: string)
    requires ParseUnicode(h).Done?
    ensures ParseUnicode(h + q) == Done(ParseUnicode(h).value, ParseUnicode(h).rest + q)
  {
    Hex4Extends(h, q);
    if 0xD800 <= Hex4(h) < 0xDC00 {
      Hex4Extends(h[6..], q);
      assert (h + q)[6..] == h[6..] + q && (h + q)[10..] == h[10..] + q;
    } else {
      assert (h + q)[4..] == h[4..] + q;
    }
  }

  lemma ParseCharExtends(p: string, q: string)
    requires ParseChar(p).Done?
    ensures ParseChar(p + q) == Done(ParseChar(p).value, ParseChar(p).rest + q)
  {
    assert (p + q)[1..] == p[1..] + q;
    if p[0] == '\\' {
      var t := p[1..];
      assert (t + q)[1..] == t[1..] + q;
      if t[0] == 'u' {
        ParseUnicodeExtends(t[1..], q);
      }
    }
  }

  lemma {:induction false} ParseCharsExtends(p: string, q: string)
    requires ParseChars(p).Done?
    ensures ParseChars(p + q) == Done(ParseChars(p).value, ParseChars(p).rest + q)
    decreases |p|
  {
    if p != "" && p[0] == '"' {
      assert (p + q)[1..] == p[1..] + q;
    } else {
      ParseCharExtends(p, q);
      ParseCharsExtends(ParseChar(p).rest, q);
    }
  }

  /** A value read from `p` is read the same from any longer text, with the rest longer. */
  lemma {:induction false} ParseValueExtends(p: string, q: string)
    requires ParseValue(p).Done? && Closed(ParseValue(p).value, ParseValue(p).rest)
    ensures ParseValue(p + q) == Done(ParseValue(p).value, ParseValue(p).rest + q)
    decreases |p|, 2
  {
    assert (p + q)[1..] == p[1..] + q;
    if p[0] == '{' || p[0] == '[' {
      SkipSpaceExtends(p[1..], q);
      ParseNestedExtends(SkipSpace(p[1..]), q);
    } else if p[0] == '"' {
      ParseCharsExtends(p[1..], q);
    } else if p[0] == 't' || p[0] == 'f' || p[0] == 'n' {
      var k := if p[0] == 'f' then 5 else 4;
      assert (p + q)[..k] == p[..k] && (p + q)[k..] == p[k..] + q;
    } else {
      ParseNumberExtends(p, q);
    }
  }

  lemma {:induction false} ParseNestedExtends(t: string, q: string)
    ensures ParseObject(t).Done? ==> ParseObject(t + q) == Done(ParseObject(t).value, ParseObject(t).rest + q)
    ensures ParseArray(t).Done? ==> ParseArray(t + q) == Done(ParseArray(t).value, ParseArray(t).rest + q)
    decreases |t|, 9
  {
    if t != "" {
      assert (t + q)[1..] == t[1..] + q;
      if ParseObject(t).Done? && t[0] != '}' {
        ParseMembersExtends(t, q);
      }
      if ParseArray(t).Done? && t[0] != ']' {
        ParseItemsExtends(t, q);
      }
    }
  }

  lemma {:induction false} ParseItemsExtends(p: string, q: string)
    requires ParseItems(p).Done?
    ensures ParseItems(p + q) == Done(ParseItems(p).value, ParseItems(p).rest + q)
    decreases |p|, 3
  {
    ParseValueExtends(p, q);
    ParseItemsAfterExtends(ParseValue(p).value, ParseValue(p).rest, q);
  }

  lemma {:induction false} ParseItemsAfterExtends(v: Json, r0: string, q: string)
    requires ParseItemsAfter(v, r0).Done?
    ensures ParseItemsAfter(v, r0 + q) == Done(ParseItemsAfter(v, r0).value, ParseItemsAfter(v, r0).rest + q)
    decreases |r0|, 4
  {
    var t := SkipSpace(r0);
    SkipSpaceExtends(r0, q);
    assert (t + q)[1..] == t[1..] + q;
    if t[0] == ',' {
      SkipSpaceExtends(t[1..], q);
      ParseItemsExtends(SkipSpace(t[1..]), q);
    }
  }

  lemma {:induction false} ParseMemberExtends(p: string, q: string)
    requires ParseMember(p).Done? && Closed(ParseMember(p).value.value, ParseMember(p).rest)
    ensures ParseMember(p + q) == Done(ParseMember(p).value, ParseMember(p).rest + q)
    decreases |p|, 3
  {
    assert (p + q)[1..] == p[1..] + q;
    ParseCharsExtends(p[1..], q);
    var r0 := ParseChars(p[1..]).rest;
    var t := SkipSpace(r0);
    SkipSpaceExtends(r0, q);
    assert (t + q)[1..] == t[1..] + q;
    SkipSpaceExtends(t[1..], q);
    ParseValueExtends(SkipSpace(t[1..]), q);
  }

  lemma {:induction false} ParseMembersExtends(p: string, q: string)
    requires ParseMembers(p).Done?
    ensures ParseMembers(p + q) == Done(ParseMembers(p).value, ParseMembers(p).rest + q)
    decreases |p|, 4
  {
    ParseMemberExtends(p, q);
    ParseMembersAfterExtends(ParseMember(p).value, ParseMember(p).rest, q);
  }

  lemma {:induction false} ParseMembersAfterExtends(m: Member, r0: string, q: string)
    requires ParseMembersAfter(m, r0).Done?
    ensures ParseMembersAfter(m, r0 + q)
         == Done(ParseMembersAfter(m, r0).value, ParseMembersAfter(m, r0).rest + q)
    decreases |r0|, 5
  {
    var t := SkipSpace(r0);
    SkipSpaceExtends(r0, q);
    assert (t + q)[1..] == t[1..] + q;
    if t[0] == ',' {
      SkipSpaceExtends(t[1..], q);
      ParseMembersExtends(SkipSpace(t[1..]), q);
    }
  }

  /** No text that stops short of a written object is a JSON document. */
  lemma NoPrefixParses(members: seq<Member>, p: string)
    requires p < Stringify(Obj(members))
    ensures Parse(p).Fail?
  {
    var whole := Stringify(Obj(members));
    var q := whole[|p|..];
    assert p + q == whole;
    ParseEmitted(Obj(members), "");
    if p != "" {
      assert p[0] == '{' && SkipSpace(p) == p;
      if ParseValue(p).Done? {
        ParseValueExtends(p, q);
      }
    }
  }

  // ---------------------------------------------------------------- one line

  predicate OneLine(s: string) {
    forall i :: 0 <= i < |s| ==> s[i] != '\n'
  }

  lemma {:induction false} EmitNatOneLine(n: nat, tail: string)
    requires OneLine(tail)
    ensures OneLine(EmitNat(n, tail))
    decreases n
  {
    if n >= 10 {
      EmitNatOneLine(n / 10, [DigitChar(n % 10)] + tail);
    }
  }

  lemma {:induction false} EmitCharsOneLine(s: string, tail: string)
    requires OneLine(tail)
    ensures OneLine(EmitChars(s, tail))
  {
    if s != "" {
      EmitCharsOneLine(s[1..], tail);
    }
  }

  lemma EmitIntOneLine(n: int, tail: string)
    requires OneLine(tail)
    ensures OneLine(EmitInt(n, tail))
  {
    EmitNatOneLine(if n < 0 then -n else n, tail);
  }

  /** A written value never contains a line terminator. */
  lemma {:induction false} EmitOneLine(v: Json, tail: string)
    requires OneLine(tail)
    ensures OneLine(Emit(v, tail))
    decreases v, 2
  {
    match v
    case Null =>
    case Bool(_) =>
    case Num(m, e) =>
      EmitIntOneLine(e, tail);
      EmitIntOneLine(m, if e == 0 then tail else ['e'] + EmitInt(e, tail));
    case Str(s) => EmitCharsOneLine(s, tail);
    case Arr(items) => if items != [] { EmitItemsOneLine(items, tail); }
    case Obj(members) => if members != [] { EmitMembersOneLine(members, tail); }
  }

  lemma {:induction false} EmitItemsOneLine(items: seq<Json>, tail: string)
    requires items != [] && OneLine(tail)
    ensures OneLine(EmitItems(items, tail))
    decreases items, 1
  {
    if |items| > 1 {
      EmitItemsOneLine(items[1..], tail);
    }
    EmitOneLine(items[0], if |items| == 1 then [']'] + tail else [','] + EmitItems(items[1..], tail));
  }

  lemma {:induction false} EmitMembersOneLine(members: seq<Member>, tail: string)
    requires members != [] && OneLine(tail)
    ensures OneLine(EmitMembers(members, tail))
    decreases members, 1
  {
    if |members| > 1 {
      EmitMembersOneLine(members[1..], tail);
    }
    var more := if |members| == 1 then ['}'] + tail else [','] + EmitMembers(members[1..], tail);
    EmitOneLine(members[0].value, more);
    EmitCharsOneLine(members[0].key, [':'] + Emit(members[0].value, more));
  }
}
