/** Mode masks and their names (`radio/mode-combinations.ts`). */
module Modes {
  import opened Wrappers
  import opened Bits
  import opened JsonText

  type ModeName = string

  const MODE_NONE := "none"
  const MODE_ANY := "any"
  const MODE_ANY_VALUE := 0xFFFF_FFFF
  const MAX_SAFE_INTEGER := 0x1F_FFFF_FFFF_FFFF
  const PASSTHROUGH := "mode-bit-"

  // ---------------------------------------------------------------- one bit

  /** Total: a bit without a name round-trips by its number. */
  function NameOf(bit: nat): ModeName {
    if bit == 1 then "cs"
    else if bit == 2 then "2g"
    else if bit == 4 then "3g"
    else if bit == 8 then "4g"
    else if bit == 16 then "5g"
    else PASSTHROUGH + EmitNat(bit, "")
  }

  /** The number in `mode-bit-<n>`. */
  function PassthroughValue(name: ModeName): Option<nat> {
    if |name| > |PASSTHROUGH| && name[..|PASSTHROUGH|] == PASSTHROUGH && TakeDigits(name[|PASSTHROUGH|..], 0).1 == ""
    then Some(TakeDigits(name[|PASSTHROUGH|..], 0).0) else None
  }

  function ValueOf(name: ModeName): Option<nat> {
    if name == MODE_NONE then Some(0)
    else if name == MODE_ANY then Some(MODE_ANY_VALUE)
    else if name == "cs" then Some(1)
    else if name == "2g" then Some(2)
    else if name == "3g" then Some(4)
    else if name == "4g" then Some(8)
    else if name == "5g" then Some(16)
    else
      match PassthroughValue(name)
      case Some(n) => if 0 < n <= MAX_SAFE_INTEGER then Some(n) else None
      case None => None
  }

  lemma NameRoundTrip(bit: nat)
    requires 0 < bit <= MAX_SAFE_INTEGER
    ensures ValueOf(NameOf(bit)) == Some(bit)
  {
    var digits := EmitNat(bit, "");
    EmittedNatHead(bit, "");
    TakeEmittedNat(bit, "");
    var name := PASSTHROUGH + digits;
    assert name[|PASSTHROUGH|..] == digits && name[..|PASSTHROUGH|] == PASSTHROUGH;
    assert name[0] == 'm';
  }

  /** A passthrough name stands for its number exactly when that is a safe integer and not 0. */
  lemma PassthroughExact(n: nat)
    ensures ValueOf(PASSTHROUGH + EmitNat(n, "")) == if 0 < n <= 0x1F_FFFF_FFFF_FFFF then Some(n) else None
  {
    var digits := EmitNat(n, "");
    EmittedNatHead(n, "");
    TakeEmittedNat(n, "");
    var name := PASSTHROUGH + digits;
    assert name[|PASSTHROUGH|..] == digits && name[..|PASSTHROUGH|] == PASSTHROUGH;
    assert name[0] == 'm';
  }

  /** Apart from the seven words and the passthrough form no name can be placed. */
  lemma UnplacedExact(name: ModeName)
    ensures ValueOf(name).Some? ==>
              || name in ["none", "any", "cs", "2g", "3g", "4g", "5g"]
              || (PASSTHROUGH <= name && name != PASSTHROUGH && forall i :: |PASSTHROUGH| <= i < |name| ==> IsDigit(name[i]))
  {
    if PASSTHROUGH <= name {
      AllDigits(name[|PASSTHROUGH|..], 0);
      var rest := name[|PASSTHROUGH|..];
      assert forall i :: |PASSTHROUGH| <= i < |name| ==> name[i] == rest[i - |PASSTHROUGH|];
    }
  }

  lemma {:induction false} AllDigits(s: string, acc: nat)
    ensures TakeDigits(s, acc).1 == "" ==> forall i :: 0 <= i < |s| ==> IsDigit(s[i])
  {
    if s != "" && IsDigit(s[0]) {
      AllDigits(s[1..], acc * 10 + DigitValue(s[0]));
    }
  }

  /** Bit 0 is circuit-switched service, bits 1 to 4 are the generations 2 to 5, and from bit 5 on a bit is named by its value. */
  lemma BitNames(k: nat)
    ensures k == 0 ==> NameOf(Pow2(k)) == "cs"
    ensures 1 <= k <= 4 ==> NameOf(Pow2(k)) == [DigitChar(k + 1), 'g']
    ensures k >= 5 ==> NameOf(Pow2(k)) == PASSTHROUGH + EmitNat(Pow2(k), "") && Pow2(k) >= 32
  {
    assert Pow2(1) == 2 && Pow2(2) == 4 && Pow2(3) == 8 && Pow2(4) == 16 && Pow2(5) == 32;
    if k >= 5 {
      AtLeast32(k);
    }
  }

  lemma {:induction false} AtLeast32(k: nat)
    requires k >= 5
    ensures Pow2(k) >= 32
  {
    assert Pow2(1) == 2 && Pow2(2) == 4 && Pow2(3) == 8 && Pow2(4) == 16 && Pow2(5) == 32;
    if k > 5 {
      AtLeast32(k - 1);
    }
  }

  // ---------------------------------------------------------------- masks to names

  /** The names of bits `k` to 31. */
  function NamesFrom(u: nat, k: nat): seq<ModeName>
    decreases if k < 32 then 32 - k else 0
  {
    if k >= 32 then [] else (if Bit(u, k) then [NameOf(Pow2(k))] else []) + NamesFrom(u, k + 1)
  }

  function NamesOf(mask: int): seq<ModeName> {
    if mask > MAX_SAFE_INTEGER || mask <= 0 then []
    else if mask == MODE_ANY_VALUE then [MODE_ANY]
    else NamesFrom(ToUint32(mask), 0)
  }

  lemma {:induction false} Pow2Grows(i: nat, k: nat)
    requires i <= k
    ensures Pow2(i) <= Pow2(k)
  {
    if i < k {
      Pow2Grows(i, k - 1);
    }
  }

  lemma {:induction false} Pow2Mod(k: nat)
    ensures ToUint32(Pow2(k)) == if k < 32 then Pow2(k) else 0
  {
    Powers();
    if k < 32 {
      Pow2Grows(k, 31);
    } else if k > 32 {
      Pow2Mod(k - 1);
    }
  }

  /** The test `(mask & bit) !== 0`, as JavaScript computes it, for any power of two it gets to. */
  lemma TestsBit(mask: nat, k: nat)
    ensures And(mask, Pow2(k)) != 0 <==> k < 32 && Bit(ToUint32(mask), k)
  {
    Pow2Mod(k);
    var u := ToUint32(mask);
    if k < 32 {
      AndPow2(u, k);
      AndBounded(u, Pow2(k));
    } else {
      AndBounded(u, 0);
    }
  }

  lemma {:induction false} NoNames(u: nat, k: nat)
    requires forall j :: k <= j < 32 ==> !Bit(u, j)
    ensures NamesFrom(u, k) == []
    decreases if k < 32 then 32 - k else 0
  {
    if k < 32 {
      NoNames(u, k + 1);
    }
  }

  /** What one turn of the loop in `modeNames` adds, in front of the names still to come. */
  lemma NamesStep(names: seq<ModeName>, mask: nat, k: nat)
    ensures (if And(mask, Pow2(k)) != 0 then names + [NameOf(Pow2(k))] else names) + NamesFrom(ToUint32(mask), k + 1)
         == names + NamesFrom(ToUint32(mask), k)
  {
    TestsBit(mask, k);
  }

  /** No name is left once the bit has outgrown the mask. */
  lemma NamesEnd(mask: nat, k: nat)
    requires mask < Pow2(k)
    ensures NamesFrom(ToUint32(mask), k) == []
  {
    var u := ToUint32(mask);
    assert u <= mask;
    forall j | k <= j < 32 ensures !Bit(u, j) {
      HighBits(u, k, j);
    }
    NoNames(u, k);
  }

  /** Split a mask into the names of its set bits. */
  method ModeNames(mask: int) returns (names: seq<ModeName>)
    ensures names == NamesOf(mask)
  {
    if mask > MAX_SAFE_INTEGER || mask <= 0 {
      return [];
    }
    if mask == MODE_ANY_VALUE {
      return [MODE_ANY];
    }
    names := [];
    var bit := 1;
    ghost var k := 0;
    while bit <= mask && bit > 0
      invariant bit == Pow2(k)
      invariant names + NamesFrom(ToUint32(mask), k) == NamesFrom(ToUint32(mask), 0)
      decreases mask + 1 - bit
    {
      NamesStep(names, mask, k);
      if And(mask, bit) != 0 {
        names := names + [NameOf(bit)];
      }
      k := k + 1;
      bit := bit * 2;
    }
    NamesEnd(mask, k);
  }

  // ---------------------------------------------------------------- names to masks

  function EncodeFrom(acc: int, names: seq<ModeName>): Result<int, ModeName>
    decreases |names|
  {
    if names == [] then Ok(acc)
    else
      match ValueOf(names[0])
      case None => Err(names[0])
      case Some(value) => EncodeFrom(Or(acc, value), names[1..])
  }

  function Encoded(names: seq<ModeName>): (r: Result<nat, ModeName>)
    ensures r.Ok? ==> r.value < TWO_32
  {
    match EncodeFrom(0, names)
    case Ok(mask) => Ok(ToUint32(mask))
    case Err(name) => Err(name)
  }

  /** Encode a set of mode names into one mask; an unplaceable name fails the whole set. */
  method EncodeModeNames(names: seq<ModeName>) returns (r: Result<nat, ModeName>)
    ensures r == Encoded(names)
    ensures r.Err? <==> exists i :: 0 <= i < |names| && ValueOf(names[i]).None?
  {
    var mask := 0;
    for i := 0 to |names|
      invariant EncodeFrom(mask, names[i..]) == EncodeFrom(0, names)
      invariant forall j :: 0 <= j < i ==> ValueOf(names[j]).Some?
    {
      var value := ValueOf(names[i]);
      assert names[i..][0] == names[i] && names[i..][1..] == names[i + 1..];
      if value.None? {
        return Err(names[i]);
      }
      mask := Or(mask, value.value);
    }
    r := Ok(ToUint32(mask));
  }

  /** The lowest `k` bits of a number. */
  function Low(u: nat, k: nat): nat
    decreases k
  {
    if k == 0 then 0 else 2 * Low(u / 2, k - 1) + u % 2
  }

  lemma {:induction false} LowNext(u: nat, k: nat)
    ensures Low(u, k + 1) == Low(u, k) + if Bit(u, k) then Pow2(k) else 0
    ensures Low(u, k) < Pow2(k)
    decreases k
  {
    if k > 0 {
      Pow2Half(k);
      LowNext(u / 2, k - 1);
    }
  }

  lemma {:induction false} LowAll(u: nat, k: nat)
    requires u < Pow2(k)
    ensures Low(u, k) == u
    decreases k
  {
    if k > 0 {
      Pow2Half(k);
      LowAll(u / 2, k - 1);
    }
  }

  lemma Fits(u: nat)
    requires u < TWO_32
    ensures ToUint32(u) == u && ToUint32(ToInt32(u)) == u
  {
  }

  lemma OrStep(low: nat, k: nat)
    requires low < Pow2(k) && k < 32
    ensures low + Pow2(k) < TWO_32 && Or(ToInt32(low), Pow2(k)) == ToInt32(low + Pow2(k))
  {
    Powers();
    Pow2Grows(k, 31);
    Fits(low);
    Fits(Pow2(k));
    OrAdds(low, k);
  }

  lemma EncodeFirst(acc: int, bit: nat, next: int, rest: seq<ModeName>)
    requires 0 < bit <= MAX_SAFE_INTEGER && next == Or(acc, bit)
    ensures EncodeFrom(acc, [NameOf(bit)] + rest) == EncodeFrom(next, rest)
  {
    NameRoundTrip(bit);
    assert ([NameOf(bit)] + rest)[1..] == rest;
  }

  lemma NamesNext(u: nat, k: nat)
    requires k < 32
    ensures NamesFrom(u, k) == if Bit(u, k) then [NameOf(Pow2(k))] + NamesFrom(u, k + 1) else NamesFrom(u, k + 1)
  {
  }

  lemma OrNext(low: nat, next: nat, acc: int, acc': int, k: nat)
    requires k < 32 && low < Pow2(k) && next == low + Pow2(k) && acc == ToInt32(low) && acc' == ToInt32(next)
    ensures acc' == Or(acc, Pow2(k))
  {
    OrStep(low, k);
  }

  /** Moving on by one bit, with the bits below it and the bits up to it named. */
  lemma EncodeStep(low: nat, next: nat, acc: int, acc': int, k: nat, rest: seq<ModeName>)
    requires k < 32 && low < Pow2(k) && next == low + Pow2(k) && acc == ToInt32(low) && acc' == ToInt32(next)
    ensures EncodeFrom(acc, [NameOf(Pow2(k))] + rest) == EncodeFrom(acc', rest)
  {
    OrNext(low, next, acc, acc', k);
    FitsName(k);
    EncodeFirst(acc, Pow2(k), acc', rest);
  }

  lemma FitsName(k: nat)
    requires k < 32
    ensures 0 < Pow2(k) <= MAX_SAFE_INTEGER
  {
    Powers();
    Pow2Grows(k, 31);
  }

  lemma EncodeNothing(u: nat)
    requires u < TWO_32
    ensures EncodeFrom(ToInt32(Low(u, 32)), NamesFrom(u, 32)) == Ok(ToInt32(u))
  {
    Powers();
    LowAll(u, 32);
  }

  /** OR-ing the bits in one by one rebuilds the number. */
  lemma {:induction false} EncodeNamesFrom(u: nat, k: nat, acc: int, result: int)
    requires u < TWO_32 && k <= 32 && acc == ToInt32(Low(u, k)) && result == ToInt32(u)
    ensures EncodeFrom(acc, NamesFrom(u, k)) == Ok(result)
    decreases 32 - k
  {
    if k == 32 {
      EncodeNothing(u);
    } else {
      EncodeNamesFrom(u, k + 1, ToInt32(Low(u, k + 1)), result);
      NamesNext(u, k);
      LowNext(u, k);
      if Bit(u, k) {
        EncodeStep(Low(u, k), Low(u, k + 1), acc, ToInt32(Low(u, k + 1)), k, NamesFrom(u, k + 1));
      }
    }
  }

  lemma EncodeAny()
    ensures Encoded([MODE_ANY]) == Ok(MODE_ANY_VALUE)
  {
    OrZero(MODE_ANY_VALUE);
    assert [MODE_ANY][1..] == [];
    assert EncodeFrom(Or(0, MODE_ANY_VALUE), []) == Ok(Or(0, MODE_ANY_VALUE));
    Fits(MODE_ANY_VALUE);
  }

  lemma EncodePlain(mask: nat)
    requires 0 < mask <= MAX_SAFE_INTEGER && mask != MODE_ANY_VALUE
    ensures Encoded(NamesOf(mask)) == Ok(ToUint32(mask))
  {
    EncodeBits(ToUint32(mask));
    assert NamesOf(mask) == NamesFrom(ToUint32(mask), 0);
  }

  lemma EncodeBits(u: nat)
    requires u < TWO_32
    ensures Encoded(NamesFrom(u, 0)) == Ok(u)
  {
    EncodeNamesFrom(u, 0, 0, ToInt32(u));
    Fits(u);
  }

  lemma EncodeNone()
    ensures Encoded([]) == Ok(0)
  {
  }

  /** The low 32 bits of a number are the number exactly when it has no others. */
  lemma LowBits(mask: nat)
    ensures ToUint32(mask) == mask <==> mask < TWO_32
  {
  }

  /**
   Naming a mask and encoding the names gives back its low 32 bits; so it gives back the mask
   exactly when the mask has no others.
   */
  lemma MaskRoundTrip(mask: nat)
    requires mask <= MAX_SAFE_INTEGER
    ensures Encoded(NamesOf(mask)) == Ok(ToUint32(mask))
    ensures Encoded(NamesOf(mask)) == Ok(mask) <==> mask < TWO_32
  {
    LowBits(mask);
    if mask == MODE_ANY_VALUE {
      EncodeAny();
    } else if mask > 0 {
      EncodePlain(mask);
    } else {
      EncodeNone();
    }
  }

  lemma {:induction false} OrZero(b: nat)
    ensures OrNat(0, b) == b
  {
    if b > 0 {
      OrZero(b / 2);
    }
  }
}
