/** A written value cut short and followed by a whole object: why a line glued that way is never a document. */
module JsonCut {
  import opened JsonText

  // ---------------------------------------------------------------- writing in front of a tail

  lemma {:induction false} NatTail(n: nat, t: string, u: string)
    ensures EmitNat(n, t + u) == EmitNat(n, t) + u
    decreases n
  {
    if n >= 10 {
      assert [DigitChar(n % 10)] + (t + u) == [DigitChar(n % 10)] + t + u;
      NatTail(n / 10, [DigitChar(n % 10)] + t, u);
    }
  }

  lemma IntTail(n: int, t: string, u: string)
    ensures EmitInt(n, t + u) == EmitInt(n, t) + u
  {
    NatTail(if n < 0 then -n else n, t, u);
  }

  lemma NumTail(m: int, e: int, t: string, u: string)
    ensures EmitNum(m, e, t + u) == EmitNum(m, e, t) + u
  {
    if e == 0 {
      IntTail(m, t, u);
    } else {
      IntTail(e, t, u);
      assert ['e'] + (EmitInt(e, t) + u) == ['e'] + EmitInt(e, t) + u;
      IntTail(m, ['e'] + EmitInt(e, t), u);
    }
  }

  lemma CharTail(c: char, t: string, u: string)
    ensures EmitChar(c, t + u) == EmitChar(c, t) + u
  {
  }

  lemma {:induction false} CharsTail(s: string, t: string, u: string)
    ensures EmitChars(s, t + u) == EmitChars(s, t) + u
  {
    if s == "" {
      assert ['"'] + (t + u) == ['"'] + t + u;
    } else {
      CharsTail(s[1..], t, u);
      CharTail(s[0], EmitChars(s[1..], t), u);
    }
  }

  /** Writing in front of a longer tail only adds to the end. */
  lemma {:induction false} ValueTail(v: Json, t: string, u: string)
    ensures Emit(v, t + u) == Emit(v, t) + u
    decreases v, 2
  {
    match v
    case Null =>
    case Bool(_) =>
    case Num(m, e) => NumTail(m, e, t, u);
    case Str(s) => CharsTail(s, t, u);
    case Arr(items) => if items != [] { ItemsTail(items, t, u); }
    case Obj(members) => if members != [] { MembersTail(members, t, u); }
  }

  lemma {:induction false} ItemsTail(items: seq<Json>, t: string, u: string)
    requires items != []
    ensures EmitItems(items, t + u) == EmitItems(items, t) + u
    decreases items, 1
  {
    var more := if |items| == 1 then [']'] + t else [','] + EmitItems(items[1..], t);
    if |items| == 1 {
      assert [']'] + (t + u) == more + u;
    } else {
      ItemsTail(items[1..], t, u);
      assert [','] + EmitItems(items[1..], t + u) == more + u;
    }
    ValueTail(items[0], more, u);
  }

  lemma {:induction false} MembersTail(members: seq<Member>, t: string, u: string)
    requires members != []
    ensures EmitMembers(members, t + u) == EmitMembers(members, t) + u
    decreases members, 1
  {
    var m := members[0];
    var more := if |members| == 1 then ['}'] + t else [','] + EmitMembers(members[1..], t);
    if |members| == 1 {
      assert ['}'] + (t + u) == more + u;
    } else {
      MembersTail(members[1..], t, u);
      assert [','] + EmitMembers(members[1..], t + u) == more + u;
    }
    ValueTail(m.value, more, u);
    assert [':'] + Emit(m.value, more + u) == [':'] + Emit(m.value, more) + u;
    CharsTail(m.key, [':'] + Emit(m.value, more), u);
  }

  // ---------------------------------------------------------------- what follows a cut

  /** Nothing that a container, or the end of a member's name, could go on with. */
  predicate Blocks(r: string) {
    r == "" || !(r[0] in {',', ']', '}', ':'} || IsJsonSpace(r[0]))
  }

  predicate Stuck<T>(r: Parsed<T>) {
    r.Done? ==> Blocks(r.rest)
  }

  /** A whole object whose first name starts with an ordinary character. */
  predicate Follows(b: string) {
    |b| >= 3 && b[0] == '{' && b[1] == '"' && Blocks(b[2..]) && ParseValue(b).Done? && ParseValue(b).rest == ""
  }

  lemma ObjectFollows(members: seq<Member>)
    requires members != [] && members[0].key != "" && EmitChar(members[0].key[0], "") == [members[0].key[0]]
    requires Blocks(members[0].key)
    ensures Follows(Stringify(Obj(members)))
  {
    ParseEmitted(Obj(members), "");
    var b := Stringify(Obj(members));
    var m := members[0];
    var more := if |members| == 1 then ['}'] + "" else [','] + EmitMembers(members[1..], "");
    var afterKey := [':'] + Emit(m.value, more);
    CharTail(m.key[0], "", EmitChars(m.key[1..], afterKey));
    assert "" + EmitChars(m.key[1..], afterKey) == EmitChars(m.key[1..], afterKey);
    assert b[2..] == EmitChars(m.key, afterKey);
    assert b[2] == m.key[0];
  }

  // ---------------------------------------------------------------- numbers

  /** No character of `p` separates anything. */
  predicate Solid(p: string) {
    forall i :: 0 <= i < |p| ==> Blocks([p[i]])
  }

  /** `r` is what is left of `p + b` after some of `p`. */
  predicate LeftOf(r: string, p: string, b: string) {
    exists k :: 0 <= k <= |p| && r == p[k..] + b
  }

  lemma LeftBlocks(r: string, p: string, b: string)
    requires Solid(p) && b != "" && b[0] == '{' && LeftOf(r, p, b)
    ensures Blocks(r)
  {
    var k :| 0 <= k <= |p| && r == p[k..] + b;
    if k < |p| {
      assert r[0] == p[k] && Blocks([p[k]]);
    }
  }

  lemma {:induction false} TakeDigitsLeft(p: string, b: string, acc: nat)
    requires b != "" && b[0] == '{'
    ensures LeftOf(TakeDigits(p + b, acc).1, p, b)
  {
    if p != "" && IsDigit(p[0]) {
      assert (p + b)[1..] == p[1..] + b;
      TakeDigitsLeft(p[1..], b, acc * 10 + DigitValue(p[0]));
      var r := TakeDigits(p + b, acc).1;
      var k :| 0 <= k <= |p[1..]| && r == p[1..][k..] + b;
      assert p[1..][k..] == p[k + 1..];
    } else {
      assert p[0..] + b == p + b;
    }
  }

  lemma LeftLater(r: string, p: string, i: nat, b: string)
    requires i <= |p| && LeftOf(r, p[i..], b)
    ensures LeftOf(r, p, b)
  {
    var k :| 0 <= k <= |p[i..]| && r == p[i..][k..] + b;
    assert p[i..][k..] == p[i + k..];
  }

  lemma ParseDigitsLeft(p: string, b: string, acc: nat)
    requires b != "" && b[0] == '{'
    ensures ParseDigits(p + b, acc).Done? ==> LeftOf(ParseDigits(p + b, acc).rest, p, b)
  {
    if p != "" && IsDigit(p[0]) {
      assert (p + b)[1..] == p[1..] + b;
      TakeDigitsLeft(p[1..], b, acc * 10 + DigitValue(p[0]));
      LeftLater(ParseDigits(p + b, acc).rest, p, 1, b);
    }
  }

  lemma ParseExponentLeft(p: string, b: string)
    requires b != "" && b[0] == '{'
    ensures ParseExponent(p + b).Done? ==> LeftOf(ParseExponent(p + b).rest, p, b)
  {
    if p != "" && (p[0] == 'e' || p[0] == 'E') {
      assert (p + b)[1..] == p[1..] + b;
      var t := p[1..];
      if t != "" && (t[0] == '+' || t[0] == '-') {
        assert (t + b)[1..] == t[1..] + b;
        ParseDigitsLeft(t[1..], b, 0);
        if ParseDigits(t[1..] + b, 0).Done? {
          assert t[1..] == p[2..];
          LeftLater(ParseExponent(p + b).rest, p, 2, b);
        }
      } else {
        ParseDigitsLeft(t, b, 0);
        if ParseDigits(t + b, 0).Done? {
          LeftLater(ParseExponent(p + b).rest, p, 1, b);
        }
      }
    } else {
      assert p[0..] + b == p + b;
    }
  }

  lemma ParseWholeLeft(p: string, b: string)
    requires b != "" && b[0] == '{'
    ensures ParseWhole(p + b).Done? ==> LeftOf(ParseWhole(p + b).rest, p, b)
  {
    if p != "" && p[0] == '0' {
      assert (p + b)[1..] == p[1..] + b;
    } else {
      ParseDigitsLeft(p, b, 0);
    }
  }

  /** Reading a number from `p + b` leaves all of `b`. */
  lemma ParseUnsignedLeft(p: string, b: string)
    requires b != "" && b[0] == '{'
    ensures ParseUnsigned(p + b).Done? ==> LeftOf(ParseUnsigned(p + b).rest, p, b)
  {
    ParseWholeLeft(p, b);
    if ParseUnsigned(p + b).Done? {
      var r0 := ParseWhole(p + b).rest;
      var k :| 0 <= k <= |p| && r0 == p[k..] + b;
      if r0[0] == '.' {
        assert k < |p| && r0[1..] == p[k + 1..] + b;
        var whole := ParseWhole(p + b).value;
        ParseDigitsLeft(p[k + 1..], b, whole);
        var r1 := ParseDigits(r0[1..], whole).rest;
        LeftLater(r1, p, k + 1, b);
        var l :| 0 <= l <= |p| && r1 == p[l..] + b;
        ParseExponentLeft(p[l..], b);
        LeftLater(ParseUnsigned(p + b).rest, p, l, b);
      } else {
        ParseExponentLeft(p[k..], b);
        LeftLater(ParseUnsigned(p + b).rest, p, k, b);
      }
    }
  }

  lemma CutNumber(p: string, b: string)
    requires Solid(p) && b != "" && b[0] == '{'
    ensures Stuck(ParseNumber(p + b))
  {
    var i := if p != "" && p[0] == '-' then 1 else 0;
    assert (p + b)[i..] == p[i..] + b;
    ParseUnsignedLeft(p[i..], b);
    if ParseNumber(p + b).Done? {
      LeftLater(ParseNumber(p + b).rest, p, i, b);
      LeftBlocks(ParseNumber(p + b).rest, p, b);
    }
  }

  lemma {:induction false} NatSolid(n: nat, t: string)
    requires Solid(t)
    ensures Solid(EmitNat(n, t))
    decreases n
  {
    if n >= 10 {
      NatSolid(n / 10, [DigitChar(n % 10)] + t);
    }
  }

  lemma NumSolid(m: int, e: int)
    ensures Solid(EmitNum(m, e, ""))
  {
    NatSolid(if e < 0 then -e else e, "");
    NatSolid(if m < 0 then -m else m, if e == 0 then "" else ['e'] + EmitInt(e, ""));
  }

  // ---------------------------------------------------------------- strings

  /** An escape cut short cannot be completed by a brace. */
  lemma CutChar(c: char, p: string, b: string)
    requires p < EmitChar(c, "") && p != "" && b != "" && b[0] == '{'
    ensures ParseChar(p + b).Fail?
  {
    assert p[0] == '\\' && (p + b)[1..] == p[1..] + b;
    var t := p[1..] + b;
    if |p| > 1 {
      assert p[1] == 'u' && |p| < 6;
      assert t[0] == 'u' && t[1..] == p[2..] + b;
      assert t[1..][|p| - 2] == '{';
    }
  }

  /** The brace becomes the string's last character. */
  lemma BraceCloses(b: string)
    requires Follows(b)
    ensures ParseChars(b).Done? && ParseChars(b).rest == b[2..]
  {
    assert b[1..][0] == '"' && b[1..][1..] == b[2..];
    assert ParseChars(b[1..]) == Done("", b[2..]);
  }

  lemma NextChars(c: char, t: string, rest: string)
    requires ParseChars(t).Done? ==> ParseChars(t).rest == rest
    ensures ParseChars(EmitChar(c, "") + t).Done? ==> ParseChars(EmitChar(c, "") + t).rest == rest
  {
    CharTail(c, "", t);
    assert "" + t == t;
    ParseEmittedChar(c, t);
  }

  /** A string cut short closes on the quote behind the brace. */
  lemma {:induction false} CutChars(s: string, p: string, b: string)
    requires p < EmitChars(s, "") && Follows(b)
    ensures ParseChars(p + b).Done? ==> ParseChars(p + b).rest == b[2..]
  {
    if p == "" {
      assert p + b == b;
      BraceCloses(b);
    } else {
      var own, more := EmitChar(s[0], ""), EmitChars(s[1..], "");
      CharTail(s[0], "", more);
      assert "" + more == more;
      if |p| < |own| {
        CutCharFails(s[0], p, b, own + more);
      } else {
        var rest := p[|own|..];
        assert p == own + rest && rest < more && p + b == own + (rest + b);
        CutChars(s[1..], rest, b);
        NextChars(s[0], rest + b, b[2..]);
      }
    }
  }

  lemma CutCharFails(c: char, p: string, b: string, whole: string)
    requires p != "" && p < whole && |p| < |EmitChar(c, "")| && EmitChar(c, "") <= whole && Follows(b)
    ensures ParseChars(p + b).Fail?
  {
    var own := EmitChar(c, "");
    assert whole[..|p|] == own[..|p|];
    CutChar(c, p, b);
    ParseEmittedChar(c, "");
    assert (p + b)[0] == own[0];
  }

  // ---------------------------------------------------------------- values

  lemma SplitPrefix(p: string, a: string, c: string)
    requires p < a + c
    ensures if |p| < |a| then p < a else p == a + p[|a|..] && p[|a|..] < c
  {
    assert p == (a + c)[..|p|];
  }

  datatype Cut = InFirst | AfterFirst | Beyond(rest: string)

  /** Where a text cut short of `first + more` ends: in `first`, right behind it, or `rest` into what follows. */
  lemma CutAt(p: string, first: string, more: string, b: string) returns (cut: Cut)
    requires p < first + more && more != ""
    ensures match cut
            case InFirst => p < first
            case AfterFirst => p + b == first + b
            case Beyond(rest) => rest < more[1..] && p + b == first + ([more[0]] + (rest + b))
  {
    SplitPrefix(p, first, more);
    if |p| < |first| {
      return InFirst;
    }
    var q := p[|first|..];
    assert p + b == first + (q + b);
    if q == "" {
      assert q + b == b;
      return AfterFirst;
    }
    assert q == [more[0]] + q[1..] && q + b == [more[0]] + (q[1..] + b);
    return Beyond(q[1..]);
  }

  lemma CutWord(p: string, word: string, v: Json, b: string)
    requires p < word && b != "" && b[0] == '{' && forall i :: 0 <= i < |word| ==> word[i] != '{'
    ensures ParseWord(word, v, p + b).Fail?
  {
    assert (p + b)[|p|] == '{';
  }

  /** A whole value in front of `b` is read, and leaves `b`. */
  lemma WholeValue(v: Json, t: string)
    requires Separated(t)
    ensures ParseValue(Stringify(v) + t) == Done(v, t)
  {
    ValueTail(v, "", t);
    assert "" + t == t;
    ParseEmitted(v, t);
  }

  /**
   A value cut short and followed by a whole object either cannot be read, or leaves something that no
   container can go on with.
   */
  lemma {:induction false} CutValue(v: Json, p: string, b: string)
    requires p < Stringify(v) && Follows(b)
    ensures Stuck(ParseValue(p + b))
    ensures (v.Arr? || v.Obj?) && p != "" ==> ParseValue(p + b).Fail?
    decreases v, 4
  {
    if p == "" {
      assert p + b == b;
    } else {
      assert (p + b)[1..] == p[1..] + b;
      match v
      case Null => CutWord(p, "null", v, b);
      case Bool(x) => CutWord(p, if x then "true" else "false", v, b);
      case Num(m, e) => CutNumberValue(m, e, p, b);
      case Str(s) => CutChars(s, p[1..], b);
      case Arr(items) => CutArray(items, p[1..], b);
      case Obj(members) => CutObject(members, p[1..], b);
    }
  }

  lemma NumberHead(m: int, e: int)
    ensures var t := EmitNum(m, e, ""); t != "" && (t[0] == '-' || IsDigit(t[0]))
  {
    EmittedNatHead(if m < 0 then -m else m, if e == 0 then "" else ['e'] + EmitInt(e, ""));
  }

  lemma CutNumberValue(m: int, e: int, p: string, b: string)
    requires p < EmitNum(m, e, "") && p != "" && Follows(b)
    ensures Stuck(ParseValue(p + b))
  {
    NumSolid(m, e);
    NumberHead(m, e);
    SolidPrefix(p, EmitNum(m, e, ""));
    CutNumber(p, b);
    assert (p + b)[0] == p[0];
  }

  lemma SolidPrefix(p: string, t: string)
    requires p < t && Solid(t)
    ensures Solid(p) && (p != "" ==> p[0] == t[0])
  {
    assert forall i :: 0 <= i < |p| ==> p[i] == t[i];
  }

  /** A cut text keeps its head, or the object behind it provides one. */
  lemma HeadKept(q: string, w: string, b: string)
    requires q < w && !IsJsonSpace(w[0]) && Follows(b)
    ensures SkipSpace(q + b) == q + b && q + b != "" && (q + b)[0] == if q == "" then '{' else w[0]
  {
    if q == "" {
      assert q + b == b;
    }
  }

  // ---------------------------------------------------------------- arrays

  lemma {:induction false} CutArray(items: seq<Json>, p: string, b: string)
    requires ['['] + p < Stringify(Arr(items)) && Follows(b)
    ensures ParseArray(SkipSpace(p + b)).Fail?
    decreases items, 3
  {
    var whole := Stringify(Arr(items));
    assert p < whole[1..];
    if items == [] {
      assert p == "" && p + b == b && ParseItems(b).Fail?;
    } else {
      assert whole[1..] == EmitItems(items, "");
      EmittedItemsHead(items, "");
      HeadKept(p, EmitItems(items, ""), b);
      CutItems(items, p, b);
    }
  }

  lemma StuckItem(x: string)
    requires Stuck(ParseValue(x))
    ensures ParseItems(x).Fail?
  {
  }

  lemma NextItemFails(x: string, v: Json, y: string)
    requires ParseValue(x) == Done(v, [','] + y) && SkipSpace(y) == y && ParseItems(y).Fail?
    ensures ParseItems(x).Fail?
  {
    assert ([','] + y)[1..] == y;
  }

  lemma ItemsText(items: seq<Json>)
    requires items != []
    ensures EmitItems(items, "")
         == Stringify(items[0]) + (if |items| == 1 then [']'] else [','] + EmitItems(items[1..], ""))
  {
    var more := if |items| == 1 then [']'] + "" else [','] + EmitItems(items[1..], "");
    ValueTail(items[0], "", more);
    assert "" + more == more && [']'] + "" == [']'];
  }

  lemma {:induction false} CutItems(items: seq<Json>, p: string, b: string)
    requires items != [] && p < EmitItems(items, "") && Follows(b)
    ensures ParseItems(p + b).Fail?
    decreases items, 1
  {
    var first := Stringify(items[0]);
    ItemsText(items);
    var cut := CutAt(p, first, if |items| == 1 then [']'] else [','] + EmitItems(items[1..], ""), b);
    match cut {
      case InFirst =>
        CutValue(items[0], p, b);
        StuckItem(p + b);
      case AfterFirst =>
        WholeValue(items[0], b);
        StuckItem(first + b);
      case Beyond(rest) =>
        if |items| > 1 {
          assert ([','] + EmitItems(items[1..], ""))[1..] == EmitItems(items[1..], "");
          CutNextItem(items[0], items[1..], rest, b);
        }
    }
  }

  lemma {:induction false} CutNextItem(v: Json, items: seq<Json>, q: string, b: string)
    requires items != [] && q < EmitItems(items, "") && Follows(b)
    ensures ParseItems(Stringify(v) + ([','] + (q + b))).Fail?
    decreases items, 2
  {
    CutItems(items, q, b);
    EmittedItemsHead(items, "");
    HeadKept(q, EmitItems(items, ""), b);
    WholeValue(v, [','] + (q + b));
    NextItemFails(Stringify(v) + ([','] + (q + b)), v, q + b);
  }

  // ---------------------------------------------------------------- objects

  lemma {:induction false} CutObject(members: seq<Member>, p: string, b: string)
    requires ['{'] + p < Stringify(Obj(members)) && Follows(b)
    ensures ParseObject(SkipSpace(p + b)).Fail?
    decreases members, 6
  {
    var whole := Stringify(Obj(members));
    assert p < whole[1..];
    if members == [] {
      assert p == "" && p + b == b && ParseMember(b).Fail? && ParseMembers(b).Fail?;
    } else {
      assert whole[1..] == EmitMembers(members, "");
      HeadKept(p, EmitMembers(members, ""), b);
      CutMembers(members, p, b);
    }
  }

  /** A member's name with its quotes, then the colon and the value. */
  function MemberText(m: Member): string {
    ['"'] + (EmitChars(m.key, "") + ([':'] + Stringify(m.value)))
  }

  lemma Reassociate(a: string, k: string, c: string, v: string, t: string)
    ensures a + (k + (c + (v + t))) == a + (k + (c + v)) + t
  {
  }

  lemma MemberTail(m: Member, t: string)
    ensures ['"'] + EmitChars(m.key, [':'] + Emit(m.value, t)) == MemberText(m) + t
  {
    var rest := [':'] + Emit(m.value, t);
    ValueTail(m.value, "", t);
    assert "" + t == t;
    CharsTail(m.key, "", rest);
    assert "" + rest == rest;
    Reassociate(['"'], EmitChars(m.key, ""), [':'], Stringify(m.value), t);
  }

  lemma WholeMember(m: Member, t: string)
    requires Separated(t)
    ensures ParseMember(MemberText(m) + t) == Done(m, t)
  {
    MemberTail(m, t);
    ParseEmittedMember(m, t);
  }

  /** Whatever blocks after the name is no colon. */
  lemma NameBlocked(x: string)
    requires x != "" && x[0] == '"' && (ParseChars(x[1..]).Done? ==> Blocks(ParseChars(x[1..]).rest))
    ensures ParseMember(x).Fail?
  {
  }

  lemma ValueBlocked(x: string, key: string, y: string)
    requires x != "" && x[0] == '"' && ParseChars(x[1..]) == Done(key, [':'] + y)
    requires SkipSpace(y) == y && Stuck(ParseValue(y))
    ensures Stuck(ParseMember(x))
  {
    assert ([':'] + y)[1..] == y;
  }

  lemma WholeName(key: string, t: string)
    ensures ParseChars(EmitChars(key, "") + t) == Done(key, t)
  {
    CharsTail(key, "", t);
    assert "" + t == t;
    ParseEmittedChars(key, t);
  }

  lemma {:induction false} CutMember(m: Member, p: string, b: string)
    requires p < MemberText(m) && Follows(b)
    ensures Stuck(ParseMember(p + b))
    decreases m, 5
  {
    if p == "" {
      assert p + b == b;
    } else {
      assert p[0] == '"' && (p + b)[1..] == p[1..] + b;
      CutName(m, p[1..], b, p + b);
    }
  }

  lemma {:induction false} CutName(m: Member, q: string, b: string, x: string)
    requires q < EmitChars(m.key, "") + ([':'] + Stringify(m.value)) && Follows(b)
    requires x != "" && x[0] == '"' && x[1..] == q + b
    ensures Stuck(ParseMember(x))
    decreases m, 4
  {
    var cut := CutAt(q, EmitChars(m.key, ""), [':'] + Stringify(m.value), b);
    match cut {
      case InFirst =>
        CutChars(m.key, q, b);
        NameBlocked(x);
      case AfterFirst =>
        WholeName(m.key, b);
        NameBlocked(x);
      case Beyond(rest) =>
        assert ([':'] + Stringify(m.value))[1..] == Stringify(m.value);
        WholeName(m.key, [':'] + (rest + b));
        CutValue(m.value, rest, b);
        EmittedHead(m.value, "");
        HeadKept(rest, Stringify(m.value), b);
        ValueBlocked(x, m.key, rest + b);
    }
  }

  lemma StuckMember(x: string)
    requires Stuck(ParseMember(x))
    ensures ParseMembers(x).Fail?
  {
  }

  lemma NextMemberFails(x: string, m: Member, y: string)
    requires ParseMember(x) == Done(m, [','] + y) && SkipSpace(y) == y && ParseMembers(y).Fail?
    ensures ParseMembers(x).Fail?
  {
    assert ([','] + y)[1..] == y;
  }

  lemma MembersText(members: seq<Member>)
    requires members != []
    ensures EmitMembers(members, "")
         == MemberText(members[0]) + (if |members| == 1 then ['}'] else [','] + EmitMembers(members[1..], ""))
  {
    MemberTail(members[0], if |members| == 1 then ['}'] + "" else [','] + EmitMembers(members[1..], ""));
    assert ['}'] + "" == ['}'];
  }

  lemma {:induction false} CutMembers(members: seq<Member>, p: string, b: string)
    requires members != [] && p < EmitMembers(members, "") && Follows(b)
    ensures ParseMembers(p + b).Fail?
    decreases members, 2
  {
    var first := MemberText(members[0]);
    MembersText(members);
    var cut := CutAt(p, first, if |members| == 1 then ['}'] else [','] + EmitMembers(members[1..], ""), b);
    match cut {
      case InFirst =>
        CutMember(members[0], p, b);
        StuckMember(p + b);
      case AfterFirst =>
        WholeMember(members[0], b);
        StuckMember(first + b);
      case Beyond(rest) =>
        if |members| > 1 {
          assert ([','] + EmitMembers(members[1..], ""))[1..] == EmitMembers(members[1..], "");
          CutNextMember(members[0], members[1..], rest, b);
        }
    }
  }

  lemma {:induction false} CutNextMember(m: Member, members: seq<Member>, q: string, b: string)
    requires members != [] && q < EmitMembers(members, "") && Follows(b)
    ensures ParseMembers(MemberText(m) + ([','] + (q + b))).Fail?
    decreases members, 3
  {
    CutMembers(members, q, b);
    HeadKept(q, EmitMembers(members, ""), b);
    WholeMember(m, [','] + (q + b));
    NextMemberFails(MemberText(m) + ([','] + (q + b)), m, q + b);
  }

  /** A written object cut anywhere and followed by a whole one is no JSON document. */
  lemma CutObjectsDoNotParse(members: seq<Member>, p: string, b: string)
    requires p != "" && p <= Stringify(Obj(members)) && Follows(b)
    ensures Parse(p + b).Fail?
  {
    assert p[0] == '{' && SkipSpace(p + b) == p + b;
    if p == Stringify(Obj(members)) {
      WholeValue(Obj(members), b);
    } else {
      CutValue(Obj(members), p, b);
    }
  }
}
