/** Which visible cell is the serving one (`backend/cell-info.ts`). */
module Cells {
  import opened Wrappers
  import opened JsonText
  import Codec
  import Mapping
  import Order

  // ---------------------------------------------------------------- numbers

  /** A JavaScript number other than NaN: a decimal with `places` digits after the point, or an infinity. */
  datatype NumberForm = Finite(mantissa: int, places: nat) | Infinite(negative: bool)

  /** No trailing zeros after the point, so that equal numbers are equal values. */
  predicate Canonical(n: NumberForm) {
    n.Finite? && n.places > 0 ==> n.mantissa % 10 != 0
  }

  type Number = n: NumberForm | Canonical(n) witness Finite(0, 0)

  function Scaled(n: Number): real
    requires n.Finite?
  {
    n.mantissa as real / Codec.Pow10(n.places) as real
  }

  predicate Below(a: Number, b: Number) {
    match (a, b)
    case (Finite(_, _), Finite(_, _)) => Scaled(a) < Scaled(b)
    case (Finite(_, _), Infinite(negative)) => !negative
    case (Infinite(negative), Finite(_, _)) => negative
    case (Infinite(x), Infinite(y)) => x && !y
  }

  lemma {:induction false} Pow10Splits(i: nat, j: nat)
    ensures Codec.Pow10(i + j) == Codec.Pow10(i) * Codec.Pow10(j)
  {
    if j > 0 {
      Pow10Splits(i, j - 1);
    }
  }

  lemma CrossMultiplied(m: int, p: nat, n: int, q: nat)
    requires p > 0 && q > 0 && m as real / p as real == n as real / q as real
    ensures m * q == n * p
  {
    assert (m as real / p as real) * p as real * q as real == m as real * q as real;
    assert (n as real / q as real) * q as real * p as real == n as real * p as real;
    assert (m * q) as real == m as real * q as real && (n * p) as real == n as real * p as real;
  }

  /** The same value with more places ends in a zero. */
  lemma TrailingZero(m: int, p: nat, n: int, q: nat)
    requires p < q && m as real / Codec.Pow10(p) as real == n as real / Codec.Pow10(q) as real
    ensures n % 10 == 0
  {
    CrossMultiplied(m, Codec.Pow10(p), n, Codec.Pow10(q));
    Pow10Splits(p, q - p);
    Regroup(m, Codec.Pow10(p), Codec.Pow10(q - p - 1), n);
  }

  lemma Regroup(m: int, t: nat, r: nat, n: int)
    requires t > 0 && m * (t * (10 * r)) == n * t
    ensures n == 10 * (m * r)
  {
    Associate(m, t, 10 * r);
    Cancel(m * (10 * r), n, t);
    Associate(m, 10, r);
  }

  lemma Associate(a: int, b: int, c: int)
    ensures a * (b * c) == (a * c) * b
  {
  }

  lemma Cancel(a: int, b: int, p: nat)
    requires p > 0 && a * p == b * p
    ensures a == b
  {
    assert (a - b) * p == 0;
  }

  /** `<` on numbers is a strict total order. */
  lemma BelowTotal(a: Number, b: Number)
    ensures (if Below(a, b) then 1 else 0) + (if Below(b, a) then 1 else 0) + (if a == b then 1 else 0) == 1
  {
    if a.Finite? && b.Finite? && Scaled(a) == Scaled(b) {
      if a.places < b.places {
        TrailingZero(a.mantissa, a.places, b.mantissa, b.places);
      } else if b.places < a.places {
        TrailingZero(b.mantissa, b.places, a.mantissa, a.places);
      } else {
        CrossMultiplied(a.mantissa, Codec.Pow10(a.places), b.mantissa, Codec.Pow10(b.places));
        Cancel(a.mantissa, b.mantissa, Codec.Pow10(a.places));
      }
    }
  }

  // ---------------------------------------------------------------- readings

  datatype CellReading = CellReading(
    serving: bool,
    cellId: Option<string>,
    tac: Option<string>,
    pci: Option<Number>,
    rsrp: Option<Number>,
    rsrq: Option<Number>,
    sinr: Option<Number>,
    band: Option<string>,
    source: string,
    observedAt: nat)

  datatype Rank = Before | Same | After

  function Flip(r: Rank): Rank {
    match r
    case Before => After
    case Same => Same
    case After => Before
  }

  /** Higher first; absent last. */
  function CompareOptionalDesc(a: Option<Number>, b: Option<Number>): Rank {
    if a == b then Same
    else if a.None? then After
    else if b.None? then Before
    else if Below(b.value, a.value) then Before
    else After
  }

  /** Lower first; absent last. */
  function CompareNumbersAsc(a: Option<Number>, b: Option<Number>): Rank {
    if a == b then Same
    else if a.None? then After
    else if b.None? then Before
    else if Below(a.value, b.value) then Before
    else After
  }

  function CompareTexts(a: string, b: string): Rank {
    if Order.Less(a, b) then Before else if Order.Less(b, a) then After else Same
  }

  function CompareTextsAsc(a: Option<string>, b: Option<string>): Rank {
    if a == b then Same
    else if a.None? then After
    else if b.None? then Before
    else if Order.Less(a.value, b.value) then Before
    else After
  }

  /** JSON has no infinities: `JSON.stringify` writes `null`. */
  function NumberJson(n: Option<Number>): Json {
    if n.None? || n.value.Infinite? then Null else Num(n.value.mantissa, 0 - n.value.places)
  }

  function TagJson(r: CellReading): Json {
    Arr([ Bool(r.serving), Mapping.OptionJson(r.cellId), Mapping.OptionJson(r.tac), NumberJson(r.pci), NumberJson(r.rsrp),
          NumberJson(r.rsrq), NumberJson(r.sinr), Mapping.OptionJson(r.band) ])
  }

  function StableTag(r: CellReading): string {
    Stringify(TagJson(r))
  }

  function Then(first: Rank, second: Rank): Rank {
    if first.Same? then second else first
  }

  function CompareFlags(a: bool, b: bool): Rank {
    if a == b then Same else if a then Before else After
  }

  function CompareServing(a: CellReading, b: CellReading): Rank {
    Then(CompareFlags(a.serving, b.serving),
    Then(CompareOptionalDesc(a.rsrp, b.rsrp),
    Then(CompareTextsAsc(a.cellId, b.cellId),
    Then(CompareNumbersAsc(a.pci, b.pci),
         CompareTexts(StableTag(a), StableTag(b))))))
  }

  // ---------------------------------------------------------------- a total order

  /** Three comparisons that a total preorder could have made between `a` and `b`, `b` and `c`, `a` and `c`. */
  predicate Coherent(ab: Rank, bc: Rank, ac: Rank) {
    && (ab.Same? ==> ac == bc)
    && (bc.Same? ==> ac == ab)
    && (ab.Before? && bc.Before? ==> ac.Before?)
    && (ab.After? && bc.After? ==> ac.After?)
  }

  lemma NumbersCoherent(a: Option<Number>, b: Option<Number>, c: Option<Number>)
    ensures Coherent(CompareOptionalDesc(a, b), CompareOptionalDesc(b, c), CompareOptionalDesc(a, c))
    ensures Coherent(CompareNumbersAsc(a, b), CompareNumbersAsc(b, c), CompareNumbersAsc(a, c))
    ensures CompareOptionalDesc(b, a) == Flip(CompareOptionalDesc(a, b))
    ensures CompareNumbersAsc(b, a) == Flip(CompareNumbersAsc(a, b))
  {
    if a.Some? && b.Some? {
      BelowTotal(a.value, b.value);
    }
    if b.Some? && c.Some? {
      BelowTotal(b.value, c.value);
    }
    if a.Some? && c.Some? {
      BelowTotal(a.value, c.value);
    }
  }

  lemma TextsCoherent(a: string, b: string, c: string)
    ensures Coherent(CompareTexts(a, b), CompareTexts(b, c), CompareTexts(a, c))
    ensures CompareTexts(b, a) == Flip(CompareTexts(a, b))
  {
    Order.LessTotal(a, b);
    Order.LessTotal(b, c);
    Order.LessTotal(a, c);
    if Order.Less(a, b) && Order.Less(b, c) {
      Order.LessTransitive(a, b, c);
    }
    if Order.Less(c, b) && Order.Less(b, a) {
      Order.LessTransitive(c, b, a);
    }
  }

  lemma OptionalTextsCoherent(a: Option<string>, b: Option<string>, c: Option<string>)
    ensures Coherent(CompareTextsAsc(a, b), CompareTextsAsc(b, c), CompareTextsAsc(a, c))
    ensures CompareTextsAsc(b, a) == Flip(CompareTextsAsc(a, b))
  {
    if a.Some? && b.Some? {
      Order.LessTotal(a.value, b.value);
    }
    if b.Some? && c.Some? {
      Order.LessTotal(b.value, c.value);
    }
    if a.Some? && b.Some? && c.Some? {
      TextsCoherent(a.value, b.value, c.value);
    }
    if a.Some? && c.Some? {
      Order.LessTotal(a.value, c.value);
    }
  }

  /** `compareServing` is a total preorder: comparisons of any three readings fit together, and swapping flips them. */
  lemma ServingOrder(a: CellReading, b: CellReading, c: CellReading)
    ensures Coherent(CompareServing(a, b), CompareServing(b, c), CompareServing(a, c))
    ensures CompareServing(b, a) == Flip(CompareServing(a, b))
  {
    NumbersCoherent(a.rsrp, b.rsrp, c.rsrp);
    OptionalTextsCoherent(a.cellId, b.cellId, c.cellId);
    NumbersCoherent(a.pci, b.pci, c.pci);
    TextsCoherent(StableTag(a), StableTag(b), StableTag(c));
  }

  // ---------------------------------------------------------------- ties

  /** What the tag keeps of a number: an infinity looks like no number at all. */
  function Shown(n: Option<Number>): Option<Number> {
    if n.Some? && n.value.Infinite? then None else n
  }

  /** Equal in everything the order looks at. */
  predicate SameCell(a: CellReading, b: CellReading) {
    && a.serving == b.serving && a.cellId == b.cellId && a.tac == b.tac && a.pci == b.pci && a.rsrp == b.rsrp
    && Shown(a.rsrq) == Shown(b.rsrq) && Shown(a.sinr) == Shown(b.sinr) && a.band == b.band
  }

  lemma TagsExact(a: CellReading, b: CellReading)
    requires StableTag(a) == StableTag(b)
    ensures a.serving == b.serving && a.cellId == b.cellId && a.tac == b.tac && a.band == b.band
    ensures Shown(a.rsrq) == Shown(b.rsrq) && Shown(a.sinr) == Shown(b.sinr)
  {
    var x, y := TagJson(a).items, TagJson(b).items;
    StringifyInjective(TagJson(a), TagJson(b));
    assert x[0] == y[0] && x[1] == y[1] && x[2] == y[2] && x[7] == y[7];
    assert x[5] == y[5] && x[6] == y[6];
  }

  lemma NumberTies(a: Option<Number>, b: Option<Number>)
    ensures CompareOptionalDesc(a, b).Same? <==> a == b
    ensures CompareNumbersAsc(a, b).Same? <==> a == b
  {
  }

  /** Ties agree on every field of the tag, and on nothing less. */
  lemma TieExact(a: CellReading, b: CellReading)
    ensures CompareServing(a, b).Same? <==> SameCell(a, b)
  {
    NumberTies(a.rsrp, b.rsrp);
    NumberTies(a.pci, b.pci);
    if CompareServing(a, b).Same? {
      Order.LessTotal(StableTag(a), StableTag(b));
      TagsExact(a, b);
    }
    if SameCell(a, b) {
      Order.LessTotal(StableTag(a), StableTag(b));
      assert TagJson(a) == TagJson(b);
    }
  }

  // ---------------------------------------------------------------- selection

  /** The first of the best cells: the left fold `selectServingCell` computes with `reduce`. */
  function Best(cells: seq<CellReading>): CellReading
    requires cells != []
  {
    if |cells| == 1 then cells[0]
    else
      var best, cell := Best(cells[..|cells| - 1]), cells[|cells| - 1];
      if CompareServing(cell, best).Before? then cell else best
  }

  method SelectServingCell(cells: seq<CellReading>) returns (r: Option<CellReading>)
    ensures r.None? <==> cells == []
    ensures r.Some? ==> r.value == Best(cells)
  {
    if |cells| == 0 {
      return None;
    }
    var best := cells[0];
    for i := 1 to |cells|
      invariant best == Best(cells[..i])
    {
      assert cells[..i + 1][..i] == cells[..i];
      if CompareServing(cells[i], best).Before? {
        best := cells[i];
      }
    }
    assert cells[..|cells|] == cells;
    r := Some(best);
  }

  /** The selected cell is one of the cells, and no cell outranks it. */
  lemma {:induction false} BestIsMinimum(cells: seq<CellReading>)
    requires cells != []
    ensures Best(cells) in cells
    ensures forall c :: c in cells ==> !CompareServing(c, Best(cells)).Before?
  {
    if |cells| == 1 {
      ServingOrder(cells[0], cells[0], cells[0]);
    } else {
      var front, last := cells[..|cells| - 1], cells[|cells| - 1];
      assert cells == front + [last];
      BestIsMinimum(front);
      forall c | c in cells ensures !CompareServing(c, Best(cells)).Before? {
        ServingOrder(c, last, Best(front));
        ServingOrder(c, Best(front), last);
        ServingOrder(last, last, last);
      }
    }
  }

  /**
   Whatever order the cells come in, the selected ones tie: they are equal in every field but source and time,
   an infinite `rsrq` or `sinr` counting as absent.
   */
  lemma SelectionIgnoresOrder(a: seq<CellReading>, b: seq<CellReading>)
    requires a != [] && multiset(a) == multiset(b)
    ensures b != [] && SameCell(Best(a), Best(b))
  {
    assert |multiset(a)| == |a| && |multiset(b)| == |b|;
    assert forall c :: c in a <==> c in multiset(a);
    assert forall c :: c in b <==> c in multiset(b);
    BestIsMinimum(a);
    BestIsMinimum(b);
    ServingOrder(Best(a), Best(b), Best(a));
    TieExact(Best(a), Best(b));
  }

  /** Two cells that differ in `rsrq` tie, so the first of them wins, exactly when both values print as `null`. */
  lemma InfinityTies(c: CellReading, x: Option<Number>, y: Option<Number>)
    requires x != y
    ensures Best([c.(rsrq := x), c.(rsrq := y)]).rsrq == x && Best([c.(rsrq := y), c.(rsrq := x)]).rsrq == y
       <==> Shown(x) == None && Shown(y) == None
  {
    var a, b := c.(rsrq := x), c.(rsrq := y);
    TieExact(a, b);
    ServingOrder(a, b, a);
    assert [a, b][..1] == [a] && [b, a][..1] == [b];
  }

  // ---------------------------------------------------------------- what is selected

  /** `x` is there wherever some `y` is, and no `y` is greater. */
  ghost predicate Highest(x: Option<Number>, y: Option<Number>) {
    (x.None? ==> y.None?) && (x.Some? && y.Some? ==> !Below(x.value, y.value))
  }

  ghost predicate Lowest(x: Option<Number>, y: Option<Number>) {
    (x.None? ==> y.None?) && (x.Some? && y.Some? ==> !Below(y.value, x.value))
  }

  ghost predicate FirstText(x: Option<string>, y: Option<string>) {
    (x.None? ==> y.None?) && (x.Some? && y.Some? ==> !Order.Less(y.value, x.value))
  }

  lemma NotBehind(b: CellReading, c: CellReading)
    requires !CompareServing(c, b).Before?
    ensures c.serving ==> b.serving
    ensures c.serving == b.serving ==> Highest(b.rsrp, c.rsrp)
    ensures c.serving == b.serving && c.rsrp == b.rsrp ==> FirstText(b.cellId, c.cellId)
    ensures c.serving == b.serving && c.rsrp == b.rsrp && c.cellId == b.cellId ==> Lowest(b.pci, c.pci)
    ensures c.serving == b.serving && c.rsrp == b.rsrp && c.cellId == b.cellId && c.pci == b.pci ==>
              !Order.Less(StableTag(c), StableTag(b))
  {
    if b.rsrp.Some? && c.rsrp.Some? {
      BelowTotal(b.rsrp.value, c.rsrp.value);
    }
    if b.pci.Some? && c.pci.Some? {
      BelowTotal(b.pci.value, c.pci.value);
    }
    if b.cellId.Some? && c.cellId.Some? {
      Order.LessTotal(b.cellId.value, c.cellId.value);
    }
  }

  /**
   A cell marked as serving is selected whenever there is one. Among the cells with the selected one's mark it has the
   highest `rsrp`, among those that share that the first cell id, then the lowest `pci`, then the first tag; a
   cell that lacks a field comes after all that have it.
   */
  lemma BestExact(cells: seq<CellReading>)
    requires cells != []
    ensures var b := Best(cells);
            && b in cells
            && (b.serving <==> exists c :: c in cells && c.serving)
            && (forall c :: c in cells && c.serving == b.serving ==> Highest(b.rsrp, c.rsrp))
            && (forall c :: c in cells && c.serving == b.serving && c.rsrp == b.rsrp ==> FirstText(b.cellId, c.cellId))
            && (forall c :: c in cells && c.serving == b.serving && c.rsrp == b.rsrp && c.cellId == b.cellId ==>
                  Lowest(b.pci, c.pci))
            && (forall c :: c in cells && c.serving == b.serving && c.rsrp == b.rsrp && c.cellId == b.cellId && c.pci == b.pci ==>
                  !Order.Less(StableTag(c), StableTag(b)))
  {
    BestIsMinimum(cells);
    forall c | c in cells {
      NotBehind(Best(cells), c);
    }
  }
}
