/** Mode combinations: decoded without loss, matched exactly and encoded back (`radio/mode-combinations.ts`, `radio/mode-truth.ts`). */
module ModeTruth {
  import opened Wrappers
  import opened Bits
  import opened Modes
  import JsonText
  import Order

  // ---------------------------------------------------------------- combinations

  datatype Anomaly = UnnamedAllowedBit | UnnamedPreferredBit | PreferredNotInAllowed | PreferredNotSingular | EmptyAllowed

  datatype ModeCombination = ModeCombination(
    allowedMask: nat,
    allowed: seq<ModeName>,
    preferredMask: nat,
    preferred: ModeName,
    anomalies: seq<Anomaly>)
  {
    predicate Named() {
      anomalies == []
    }
  }

  predicate IsNamedMode(name: ModeName) {
    name in ["none", "any", "cs", "2g", "3g", "4g", "5g"]
  }

  predicate IsUnnamed(names: seq<ModeName>) {
    exists i :: 0 <= i < |names| && !IsNamedMode(names[i])
  }

  /** `names.join('+')`. */
  function JoinPlus(names: seq<ModeName>): string
    requires names != []
  {
    if |names| == 1 then names[0] else names[0] + ['+'] + JoinPlus(names[1..])
  }

  predicate OutsideAllowed(allowedMask: nat, preferredMask: nat) {
    NamesOf(preferredMask) != [] && preferredMask != MODE_ANY_VALUE && And(preferredMask, allowedMask) != preferredMask
  }

  function AnomaliesAmong(allowed: seq<ModeName>, preferred: seq<ModeName>, outside: bool): seq<Anomaly> {
    (if allowed == [] then [EmptyAllowed] else [])
    + (if IsUnnamed(allowed) then [UnnamedAllowedBit] else [])
    + (if IsUnnamed(preferred) then [UnnamedPreferredBit] else [])
    + (if |preferred| > 1 then [PreferredNotSingular] else [])
    + (if outside then [PreferredNotInAllowed] else [])
  }

  function AnomaliesOf(allowedMask: nat, preferredMask: nat): seq<Anomaly> {
    AnomaliesAmong(NamesOf(allowedMask), NamesOf(preferredMask), OutsideAllowed(allowedMask, preferredMask))
  }

  lemma AnomalyMembers(allowed: seq<ModeName>, preferred: seq<ModeName>, outside: bool)
    ensures PreferredNotSingular in AnomaliesAmong(allowed, preferred, outside) <==> |preferred| > 1
    ensures PreferredNotInAllowed in AnomaliesAmong(allowed, preferred, outside) <==> outside
  {
  }

  /** Push each anomaly as it is found. */
  method FindAnomalies(allowed: seq<ModeName>, preferred: seq<ModeName>, outside: bool) returns (anomalies: seq<Anomaly>)
    ensures anomalies == AnomaliesAmong(allowed, preferred, outside)
  {
    anomalies := [];
    anomalies := anomalies + if |allowed| == 0 then [EmptyAllowed] else [];
    anomalies := anomalies + if IsUnnamed(allowed) then [UnnamedAllowedBit] else [];
    anomalies := anomalies + if IsUnnamed(preferred) then [UnnamedPreferredBit] else [];
    anomalies := anomalies + if |preferred| > 1 then [PreferredNotSingular] else [];
    anomalies := anomalies + if outside then [PreferredNotInAllowed] else [];
  }

  function CombinationOf(allowedMask: nat, preferredMask: nat): ModeCombination {
    var preferred := NamesOf(preferredMask);
    ModeCombination(allowedMask, NamesOf(allowedMask), preferredMask,
                    if preferred == [] then MODE_NONE else JoinPlus(preferred),
                    AnomaliesOf(allowedMask, preferredMask))
  }

  // ---------------------------------------------------------------- names tell masks apart

  predicate PlusFree(s: string) {
    forall i :: 0 <= i < |s| ==> s[i] != '+'
  }

  lemma {:induction false} EmitNatPlusFree(n: nat, tail: string)
    requires PlusFree(tail)
    ensures PlusFree(JsonText.EmitNat(n, tail))
    decreases n
  {
    if n >= 10 {
      EmitNatPlusFree(n / 10, [JsonText.DigitChar(n % 10)] + tail);
    }
  }

  lemma NamePlusFree(bit: nat)
    ensures PlusFree(NameOf(bit)) && NameOf(bit) != "" && NameOf(bit) != MODE_NONE && NameOf(bit) != MODE_ANY
  {
    EmitNatPlusFree(bit, "");
    assert NameOf(bit)[0] in {'c', '2', '3', '4', '5', 'm'};
  }

  lemma {:induction false} NamesFromPlusFree(u: nat, k: nat)
    ensures forall i :: 0 <= i < |NamesFrom(u, k)| ==>
              PlusFree(NamesFrom(u, k)[i]) && NamesFrom(u, k)[i] != MODE_NONE && NamesFrom(u, k)[i] != MODE_ANY
    decreases if k < 32 then 32 - k else 0
  {
    if k < 32 {
      NamesFromPlusFree(u, k + 1);
      NamePlusFree(Pow2(k));
    }
  }

  lemma NamesPlusFree(mask: nat)
    ensures forall i :: 0 <= i < |NamesOf(mask)| ==> PlusFree(NamesOf(mask)[i]) && NamesOf(mask)[i] != MODE_NONE
  {
    NamesFromPlusFree(ToUint32(mask), 0);
  }

  /** `'+'` never occurs in a name, so a joined preference can be taken apart again. */
  lemma {:induction false} FirstPlus(a: string, b: string, r: string, s: string)
    requires PlusFree(a) && PlusFree(b) && a + ['+'] + r == b + ['+'] + s
    ensures a == b && r == s
    decreases |a|
  {
    var t := a + ['+'] + r;
    assert t[0] == (if a == "" then '+' else a[0]) && t[0] == (if b == "" then '+' else b[0]);
    if a == "" {
      assert t[1..] == r && t[1..] == s;
    } else {
      assert t[1..] == a[1..] + ['+'] + r && t[1..] == b[1..] + ['+'] + s;
      FirstPlus(a[1..], b[1..], r, s);
      assert a == [a[0]] + a[1..] && b == [b[0]] + b[1..];
    }
  }

  lemma JoinedHasPlus(xs: seq<ModeName>)
    requires |xs| > 1
    ensures !PlusFree(JoinPlus(xs))
  {
    assert JoinPlus(xs)[|xs[0]|] == '+';
  }

  lemma {:induction false} JoinInjective(xs: seq<ModeName>, ys: seq<ModeName>)
    requires xs != [] && ys != []
    requires forall i :: 0 <= i < |xs| ==> PlusFree(xs[i])
    requires forall i :: 0 <= i < |ys| ==> PlusFree(ys[i])
    requires JoinPlus(xs) == JoinPlus(ys)
    ensures xs == ys
  {
    if |xs| == 1 && |ys| == 1 {
      assert xs == [xs[0]] && ys == [ys[0]];
    } else if |xs| == 1 {
      JoinedHasPlus(ys);
    } else if |ys| == 1 {
      JoinedHasPlus(xs);
    } else {
      FirstPlus(xs[0], ys[0], JoinPlus(xs[1..]), JoinPlus(ys[1..]));
      JoinInjective(xs[1..], ys[1..]);
      assert xs == [xs[0]] + xs[1..] && ys == [ys[0]] + ys[1..];
    }
  }

  /** Equal names mean equal masks: both encode back to what they came from. */
  lemma NamesInjective(m: nat, n: nat)
    requires m < TWO_32 && n < TWO_32
    ensures NamesOf(m) == NamesOf(n) <==> m == n
  {
    MaskRoundTrip(m);
    MaskRoundTrip(n);
  }

  /** Which bits are set can be read off the names in any order. */
  lemma {:induction false} NameIn(u: nat, k: nat, j: nat)
    requires k <= j < 32
    ensures NameOf(Pow2(j)) in NamesFrom(u, k) <==> Bit(u, j)
    decreases 32 - k
  {
    if k < j {
      NameIn(u, k + 1, j);
      Apart(k, j);
    } else {
      LaterNames(u, k + 1, j);
    }
  }

  lemma Apart(k: nat, j: nat)
    requires k < j < 32
    ensures NameOf(Pow2(k)) != NameOf(Pow2(j))
  {
    Powers();
    Pow2Grows(k + 1, j);
    Pow2Grows(j, 31);
    NameRoundTrip(Pow2(k));
    NameRoundTrip(Pow2(j));
  }

  lemma {:induction false} LaterNames(u: nat, k: nat, j: nat)
    requires j < k && j < 32
    ensures NameOf(Pow2(j)) !in NamesFrom(u, k)
    decreases if k < 32 then 32 - k else 0
  {
    if k < 32 {
      LaterNames(u, k + 1, j);
      Apart(j, k);
    }
  }

  lemma SameSetSameMask(m: nat, n: nat)
    requires m < TWO_32 && n < TWO_32 && multiset(NamesOf(m)) == multiset(NamesOf(n))
    ensures m == n
  {
    var a, b := NamesOf(m), NamesOf(n);
    assert forall x :: x in a <==> x in multiset(a);
    assert forall x :: x in b <==> x in multiset(b);
    assert |multiset(a)| == |a| && |multiset(b)| == |b|;
    if a == b {
      NamesInjective(m, n);
    } else {
      NotAny(m, n);
      NotAny(n, m);
      SameBits(m, n);
    }
  }

  lemma AnyOnlyInAny(n: nat)
    requires MODE_ANY in NamesOf(n)
    ensures n == MODE_ANY_VALUE
  {
    NamesFromPlusFree(ToUint32(n), 0);
  }

  lemma NotAny(m: nat, n: nat)
    requires NamesOf(m) != NamesOf(n) && multiset(NamesOf(m)) == multiset(NamesOf(n))
    ensures 0 < m && m != MODE_ANY_VALUE
  {
    var a, b := NamesOf(m), NamesOf(n);
    assert |multiset(a)| == |a| && |multiset(b)| == |b|;
    if m == MODE_ANY_VALUE {
      assert a == [MODE_ANY];
      assert MODE_ANY in multiset(b);
      AnyOnlyInAny(n);
    }
  }

  lemma PlainNames(m: nat)
    requires 0 < m < MODE_ANY_VALUE
    ensures NamesOf(m) == NamesFrom(m, 0)
  {
    Fits(m);
  }

  lemma BitInNames(m: nat, j: nat, names: seq<ModeName>)
    requires names == NamesFrom(m, 0) && j < 32
    ensures NameOf(Pow2(j)) in names <==> Bit(m, j)
  {
    NameIn(m, 0, j);
  }

  lemma NoHighBit(m: nat, j: nat)
    requires m < TWO_32 && j >= 32
    ensures !Bit(m, j)
  {
    Powers();
    HighBits(m, 32, j);
  }

  lemma SameBits(m: nat, n: nat)
    requires 0 < m < MODE_ANY_VALUE && 0 < n < MODE_ANY_VALUE
    requires forall x :: x in NamesOf(m) <==> x in NamesOf(n)
    ensures m == n
  {
    PlainNames(m);
    PlainNames(n);
    forall j: nat ensures Bit(m, j) <==> Bit(n, j) {
      if j < 32 {
        BitInNames(m, j, NamesOf(m));
        BitInNames(n, j, NamesOf(n));
      } else {
        NoHighBit(m, j);
        NoHighBit(n, j);
      }
    }
    BitsDetermine(m, n);
  }

  // ---------------------------------------------------------------- selections

  datatype ModeSelection = ModeSelection(allowed: seq<ModeName>, preferred: ModeName)

  function SelectionOf(c: ModeCombination): ModeSelection {
    ModeSelection(c.allowed, c.preferred)
  }

  predicate SameNameSet(left: seq<ModeName>, right: seq<ModeName>) {
    |left| == |right| && Order.Sort(left) == Order.Sort(right)
  }

  predicate SameSelection(left: ModeSelection, right: ModeSelection) {
    left.preferred == right.preferred && SameNameSet(left.allowed, right.allowed)
  }

  lemma PreferredInjective(p: nat, q: nat)
    requires p < TWO_32 && q < TWO_32
    ensures CombinationOf(0, p).preferred == CombinationOf(0, q).preferred <==> p == q
  {
    var x, y := NamesOf(p), NamesOf(q);
    NamesPlusFree(p);
    NamesPlusFree(q);
    if x != [] && y != [] {
      if JoinPlus(x) == JoinPlus(y) {
        JoinInjective(x, y);
      }
    } else if x != [] {
      JoinedIsNotNone(x);
    } else if y != [] {
      JoinedIsNotNone(y);
    }
    NamesInjective(p, q);
  }

  lemma JoinedIsNotNone(xs: seq<ModeName>)
    requires xs != [] && forall i :: 0 <= i < |xs| ==> xs[i] != MODE_NONE
    ensures JoinPlus(xs) != MODE_NONE
  {
    if |xs| > 1 {
      JoinedHasPlus(xs);
      assert PlusFree(MODE_NONE);
    }
  }

  /** Two combinations are the same selection exactly when both masks are equal. */
  lemma SameSelectionExact(a: nat, p: nat, b: nat, q: nat)
    requires a < TWO_32 && p < TWO_32 && b < TWO_32 && q < TWO_32
    ensures SameSelection(SelectionOf(CombinationOf(a, p)), SelectionOf(CombinationOf(b, q))) <==> a == b && p == q
  {
    PreferredInjective(p, q);
    Order.SortEqual(NamesOf(a), NamesOf(b));
    if multiset(NamesOf(a)) == multiset(NamesOf(b)) {
      SameSetSameMask(a, b);
    }
  }

  // ---------------------------------------------------------------- encoding a selection

  datatype Masks = Masks(allowedMask: nat, preferredMask: nat)

  function EncodeModeSelection(s: ModeSelection): Result<Masks, ModeName> {
    match Encoded(s.allowed)
    case Err(name) => Err(name)
    case Ok(allowed) =>
      match Encoded(if s.preferred == MODE_NONE then [] else [s.preferred])
      case Err(name) => Err(name)
      case Ok(preferred) => Ok(Masks(allowed, preferred))
  }

  /** Only names without a `'+'` can be placed. */
  lemma PlacedIsPlusFree(name: ModeName)
    requires ValueOf(name).Some?
    ensures PlusFree(name)
  {
    if PassthroughValue(name).Some? {
      DigitsOnly(name[|PASSTHROUGH|..], 0);
      assert name == PASSTHROUGH + name[|PASSTHROUGH|..];
      assert PlusFree(PASSTHROUGH) && PlusFree(name[|PASSTHROUGH|..]);
    }
  }

  /** A joined preference is no mode name: nothing could place it. */
  lemma JoinedUnplaceable(xs: seq<ModeName>)
    requires |xs| > 1
    ensures ValueOf(JoinPlus(xs)).None?
  {
    JoinedHasPlus(xs);
    if ValueOf(JoinPlus(xs)).Some? {
      PlacedIsPlusFree(JoinPlus(xs));
    }
  }

  lemma {:induction false} DigitsOnly(s: string, acc: nat)
    requires JsonText.TakeDigits(s, acc).1 == ""
    ensures forall i :: 0 <= i < |s| ==> JsonText.IsDigit(s[i])
    decreases |s|
  {
    if s != "" {
      DigitsOnly(s[1..], acc * 10 + JsonText.DigitValue(s[0]));
    }
  }

  lemma EncodeOne(name: ModeName)
    ensures Encoded([name]).Err? <==> ValueOf(name).None?
  {
    assert [name][1..] == [];
    if ValueOf(name).Some? {
      assert EncodeFrom(Or(0, ValueOf(name).value), []).Ok?;
    }
  }

  /** What is encoded for a preference spelt from `names`. */
  lemma PreferenceEncodes(names: seq<ModeName>)
    requires forall i :: 0 <= i < |names| ==> names[i] != MODE_NONE
    ensures var preferred := if names == [] then MODE_NONE else JoinPlus(names);
            var encoded := Encoded(if preferred == MODE_NONE then [] else [preferred]);
            if |names| <= 1 then encoded == Encoded(names) else encoded.Err?
  {
    if names != [] {
      JoinedIsNotNone(names);
      if |names| > 1 {
        JoinedUnplaceable(names);
        EncodeOne(JoinPlus(names));
      } else {
        assert names == [names[0]];
      }
    }
  }

  /**
   An advertised combination encodes back to its own masks exactly when its preferred mask names at
   most one mode; otherwise encoding fails.
   */
  lemma SelectionRoundTrip(a: nat, p: nat)
    requires a < TWO_32 && p < TWO_32
    ensures EncodeModeSelection(SelectionOf(CombinationOf(a, p))) == Ok(Masks(a, p))
       <==> PreferredNotSingular !in CombinationOf(a, p).anomalies
    ensures EncodeModeSelection(SelectionOf(CombinationOf(a, p))).Err?
       <==> PreferredNotSingular in CombinationOf(a, p).anomalies
  {
    MaskRoundTrip(a);
    MaskRoundTrip(p);
    NamesPlusFree(p);
    PreferenceEncodes(NamesOf(p));
    AnomalyMembers(NamesOf(a), NamesOf(p), OutsideAllowed(a, p));
  }

  /**
   `preferred-not-in-allowed` says what its name says only below 2^31: the test's `&` is signed, so a
   preferred mask with the top bit is flagged whatever the allowed mask is. `any` never is.
   */
  lemma NotInAllowedExact(a: nat, p: nat)
    requires a < TWO_32 && p < TWO_32
    ensures PreferredNotInAllowed in CombinationOf(a, p).anomalies
       <==> p != MODE_ANY_VALUE && (!Within(p, a) || p >= TWO_31)
  {
    OutsideExact(a, p);
    AnomalyMembers(NamesOf(a), NamesOf(p), OutsideAllowed(a, p));
  }

  /** The signed result of `&` can only give back a mask without the top bit. */
  lemma SignedAnd(p: nat, a: nat)
    requires a < TWO_32 && p < TWO_32
    ensures And(p, a) == p <==> p < TWO_31 && Within(p, a)
  {
    Fits(a);
    Fits(p);
    AndIsWithin(p, a);
    AndBounded(p, a);
  }

  lemma SomeName(p: nat)
    requires p < TWO_32
    ensures NamesOf(p) == [] <==> p == 0
  {
    NamesInjective(p, 0);
  }

  lemma OutsideExact(a: nat, p: nat)
    requires a < TWO_32 && p < TWO_32
    ensures OutsideAllowed(a, p) <==> p != MODE_ANY_VALUE && (!Within(p, a) || p >= TWO_31)
  {
    SignedAnd(p, a);
    SomeName(p);
    forall k: nat ensures !Bit(0, k) {
      ZeroBits(k);
    }
  }

  // ---------------------------------------------------------------- what the anomalies mean

  lemma NamedBits(k: nat)
    requires k < 32
    ensures IsNamedMode(NameOf(Pow2(k))) <==> k < 5
  {
    if k >= 5 {
      Pow2Grows(5, k);
      assert Pow2(5) == 32;
      assert NameOf(Pow2(k))[0] == 'm';
    }
  }

  /** Some bit from `k` on is set. */
  ghost predicate AnyBit(u: nat, k: nat) {
    exists j :: k <= j < 32 && Bit(u, j)
  }

  /** Two bits from `k` on are set. */
  ghost predicate TwoBits(u: nat, k: nat) {
    exists i, j :: k <= i < j < 32 && Bit(u, i) && Bit(u, j)
  }

  lemma AnyBitNext(u: nat, k: nat)
    requires k < 32
    ensures AnyBit(u, k) <==> Bit(u, k) || AnyBit(u, k + 1)
    ensures TwoBits(u, k) <==> (Bit(u, k) && AnyBit(u, k + 1)) || TwoBits(u, k + 1)
  {
    if Bit(u, k) && AnyBit(u, k + 1) {
      var j :| k + 1 <= j < 32 && Bit(u, j);
      assert Bit(u, k) && Bit(u, j);
    }
  }

  /** How many names there are, as far as it matters, and whether one is made up, told from the bits. */
  lemma {:induction false} NamesTell(u: nat, k: nat)
    requires k <= 32
    ensures |NamesFrom(u, k)| > 0 <==> AnyBit(u, k)
    ensures |NamesFrom(u, k)| > 1 <==> TwoBits(u, k)
    ensures IsUnnamed(NamesFrom(u, k)) <==> AnyBit(u, if k < 5 then 5 else k)
    decreases 32 - k
  {
    if k < 32 {
      NamesTell(u, k + 1);
      AnyBitNext(u, k);
      NamesNext(u, k);
      if Bit(u, k) {
        NamedBits(k);
        UnnamedFront(NameOf(Pow2(k)), NamesFrom(u, k + 1));
      }
    }
  }

  lemma UnnamedFront(name: ModeName, rest: seq<ModeName>)
    ensures IsUnnamed([name] + rest) <==> !IsNamedMode(name) || IsUnnamed(rest)
  {
    var all := [name] + rest;
    if IsUnnamed(rest) {
      var i :| 0 <= i < |rest| && !IsNamedMode(rest[i]);
      assert all[i + 1] == rest[i];
    }
    if !IsNamedMode(name) {
      assert all[0] == name;
    }
    if IsUnnamed(all) && IsNamedMode(name) {
      var i :| 0 <= i < |all| && !IsNamedMode(all[i]);
      assert rest[i - 1] == all[i];
    }
  }

  /** The names of a whole mask: `any` is one name, and a name this build has. */
  lemma MaskTells(m: nat)
    requires m < TWO_32
    ensures |NamesOf(m)| == 0 <==> m == 0
    ensures |NamesOf(m)| > 1 <==> m != MODE_ANY_VALUE && TwoBits(m, 0)
    ensures IsUnnamed(NamesOf(m)) <==> m != MODE_ANY_VALUE && AnyBit(m, 5)
  {
    SomeName(m);
    if m == 0 {
      NoBits();
    } else if m != MODE_ANY_VALUE {
      PlainNames(m);
      NamesTell(m, 0);
    }
  }

  lemma NoBits()
    ensures !AnyBit(0, 5) && !TwoBits(0, 0)
  {
    forall k: nat ensures !Bit(0, k) {
      ZeroBits(k);
    }
  }

  /** Every anomaly is reported exactly when the masks, read as sets of bits, have it. */
  ghost predicate AnomaliesExact(c: ModeCombination) {
    var a, p := c.allowedMask, c.preferredMask;
    && (EmptyAllowed in c.anomalies <==> a == 0)
    && (UnnamedAllowedBit in c.anomalies <==> a != MODE_ANY_VALUE && AnyBit(a, 5))
    && (UnnamedPreferredBit in c.anomalies <==> p != MODE_ANY_VALUE && AnyBit(p, 5))
    && (PreferredNotSingular in c.anomalies <==> p != MODE_ANY_VALUE && TwoBits(p, 0))
    && (PreferredNotInAllowed in c.anomalies <==> p != MODE_ANY_VALUE && (!Within(p, a) || p >= TWO_31))
  }

  lemma MoreAnomalyMembers(allowed: seq<ModeName>, preferred: seq<ModeName>, outside: bool)
    ensures EmptyAllowed in AnomaliesAmong(allowed, preferred, outside) <==> allowed == []
    ensures UnnamedAllowedBit in AnomaliesAmong(allowed, preferred, outside) <==> IsUnnamed(allowed)
    ensures UnnamedPreferredBit in AnomaliesAmong(allowed, preferred, outside) <==> IsUnnamed(preferred)
  {
  }

  /**
   A combination the bus can carry loses nothing and flags what it is: its names encode back to the allowed
   mask, and each anomaly is there exactly when the bits have it.
   */
  lemma CombinationExact(a: nat, p: nat)
    requires a < TWO_32 && p < TWO_32
    ensures Encoded(CombinationOf(a, p).allowed) == Ok(a)
    ensures AnomaliesExact(CombinationOf(a, p))
  {
    MaskRoundTrip(a);
    MaskTells(a);
    MaskTells(p);
    OutsideExact(a, p);
    AnomalyMembers(NamesOf(a), NamesOf(p), OutsideAllowed(a, p));
    MoreAnomalyMembers(NamesOf(a), NamesOf(p), OutsideAllowed(a, p));
  }

  /** Build a combination from two raw masks, recording every anomaly it carries. */
  method BuildCombination(allowedMask: nat, preferredMask: nat) returns (c: ModeCombination)
    ensures c == CombinationOf(allowedMask, preferredMask)
    ensures allowedMask < TWO_32 && preferredMask < TWO_32 ==> Encoded(c.allowed) == Ok(allowedMask) && AnomaliesExact(c)
  {
    var allowed := ModeNames(allowedMask);
    var preferredNames := ModeNames(preferredMask);
    var outside := OutsideAllowed(allowedMask, preferredMask);
    var anomalies := FindAnomalies(allowed, preferredNames, outside);
    c := ModeCombination(allowedMask, allowed, preferredMask,
                         if |preferredNames| == 0 then MODE_NONE else JoinPlus(preferredNames), anomalies);
    if allowedMask < TWO_32 && preferredMask < TWO_32 {
      CombinationExact(allowedMask, preferredMask);
    }
  }

  // ---------------------------------------------------------------- the advertised catalog

  /** A decoded bus value; `Other` is anything that is neither a whole number nor an array. */
  datatype RawValue = Whole(n: int) | Members(items: seq<RawValue>) | Other

  datatype MaskPair = MaskPair(allowed: nat, preferred: nat)

  datatype ModeCombinationSet = ModeCombinationSet(combinations: seq<ModeCombination>, undecodable: seq<RawValue>)

  predicate IsMask(v: RawValue) {
    v.Whole? && 0 <= v.n <= MAX_SAFE_INTEGER
  }

  function DecodePair(v: RawValue): Option<MaskPair> {
    if v.Members? && |v.items| == 2 && IsMask(v.items[0]) && IsMask(v.items[1])
    then Some(MaskPair(v.items[0].n, v.items[1].n)) else None
  }

  function Decoded(members: seq<RawValue>): seq<ModeCombination> {
    if members == [] then []
    else
      var front, last := Decoded(members[..|members| - 1]), DecodePair(members[|members| - 1]);
      if last.Some? then front + [CombinationOf(last.value.allowed, last.value.preferred)] else front
  }

  function Kept(members: seq<RawValue>): seq<RawValue> {
    if members == [] then []
    else
      var front, last := Kept(members[..|members| - 1]), members[|members| - 1];
      if DecodePair(last).None? then front + [last] else front
  }

  /** Decode a `SupportedModes` value; one that is no array is an empty catalog. */
  method DecodeSupportedModeCombinations(value: RawValue) returns (r: ModeCombinationSet)
    ensures !value.Members? ==> r == ModeCombinationSet([], [])
    ensures value.Members? ==> r == ModeCombinationSet(Decoded(value.items), Kept(value.items))
  {
    if !value.Members? {
      return ModeCombinationSet([], []);
    }
    var combinations: seq<ModeCombination> := [];
    var undecodable: seq<RawValue> := [];
    for i := 0 to |value.items|
      invariant combinations == Decoded(value.items[..i]) && undecodable == Kept(value.items[..i])
    {
      assert value.items[..i + 1][..i] == value.items[..i];
      var pair := DecodePair(value.items[i]);
      if pair.None? {
        undecodable := undecodable + [value.items[i]];
      } else {
        var c := BuildCombination(pair.value.allowed, pair.value.preferred);
        combinations := combinations + [c];
      }
    }
    assert value.items[..|value.items|] == value.items;
    r := ModeCombinationSet(combinations, undecodable);
  }

  lemma DecodedNext(front: seq<RawValue>, last: RawValue)
    ensures Decoded(front + [last])
         == Decoded(front) + (match DecodePair(last) case Some(p) => [CombinationOf(p.allowed, p.preferred)] case None => [])
    ensures Kept(front + [last]) == Kept(front) + (if DecodePair(last).None? then [last] else [])
  {
    assert (front + [last])[..|front|] == front;
  }

  /** Member `k` sits on one of the two lists, at its rank there. */
  ghost predicate Placed(members: seq<RawValue>, k: nat)
    requires k < |members|
  {
    var d, u := |Decoded(members[..k])|, |Kept(members[..k])|;
    match DecodePair(members[k])
    case Some(pair) => d < |Decoded(members)| && Decoded(members)[d] == CombinationOf(pair.allowed, pair.preferred)
    case None => u < |Kept(members)| && Kept(members)[u] == members[k]
  }

  lemma PlacedNext(front: seq<RawValue>, last: RawValue, k: nat)
    requires k <= |front| && (k < |front| ==> Placed(front, k))
    ensures Placed(front + [last], k)
  {
    DecodedNext(front, last);
    assert (front + [last])[..k] == front[..k] && front[..|front|] == front;
  }

  /** Nothing is dropped and nothing moves: every member sits on one of the two lists, at its rank there. */
  lemma {:induction false} CatalogLossless(members: seq<RawValue>, k: nat)
    requires k < |members|
    ensures |Decoded(members)| + |Kept(members)| == |members| && Placed(members, k)
    decreases |members|
  {
    var front, last := members[..|members| - 1], members[|members| - 1];
    assert members == front + [last];
    DecodedNext(front, last);
    if k < |front| {
      CatalogLossless(front, k);
    } else if front != [] {
      CatalogLossless(front, 0);
    }
    PlacedNext(front, last, k);
  }

  /** The first advertised combination a selection names. */
  function MatchAdvertised(combinations: seq<ModeCombination>, s: ModeSelection): Option<ModeCombination> {
    if combinations == [] then None
    else if SameSelection(SelectionOf(combinations[0]), s) then Some(combinations[0])
    else MatchAdvertised(combinations[1..], s)
  }

  /** The masks a modem can report over the bus, decoded. */
  predicate Reported(c: ModeCombination) {
    c.allowedMask < TWO_32 && c.preferredMask < TWO_32 && c == CombinationOf(c.allowedMask, c.preferredMask)
  }

  /** A selection finds the very combination it was read from, and never a neighbour. */
  lemma {:induction false} MatchExact(combinations: seq<ModeCombination>, c: ModeCombination)
    requires Reported(c) && forall i :: 0 <= i < |combinations| ==> Reported(combinations[i])
    ensures MatchAdvertised(combinations, SelectionOf(c)) == if c in combinations then Some(c) else None
  {
    if combinations != [] {
      var first := combinations[0];
      SameSelectionExact(first.allowedMask, first.preferredMask, c.allowedMask, c.preferredMask);
      MatchExact(combinations[1..], c);
      assert c in combinations <==> c == first || c in combinations[1..];
    }
  }
}
