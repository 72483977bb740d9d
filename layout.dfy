/**
 * The tree view's geometry (src/App.jsx lines 504-517 and 572): every match
 * of round `r` is placed at a vertical offset computed from its round and
 * index alone, so that it sits halfway between the two matches feeding it.
 */
module Layout {
  import opened Brackets

  const BaseMatchHeight: nat := 100
  const BaseGap: nat := 20
  /** `totalHeight`, the vertical unit of the tree. */
  const TotalHeight: nat := BaseMatchHeight + BaseGap

  /** `topOffset` (line 517) with `multiplier = 2^r`. The division by two is
      exact: the offset is the centre of the match's span of `2^r` units
      minus half a unit. */
  function TopOffset(r: nat, m: nat): (offset: nat)
    ensures 2 * offset + TotalHeight == (2 * m + 1) * Pow2(r) * TotalHeight
  {
    var multiplier := Pow2(r);
    SpanCentre(m, multiplier);
    m * multiplier * TotalHeight + (multiplier - 1) * TotalHeight / 2
  }

  /** The arithmetic behind `TopOffset`'s contract, for `p = 2^r`. */
  lemma SpanCentre(m: nat, p: nat)
    requires p >= 1
    ensures 2 * (m * p * TotalHeight + (p - 1) * TotalHeight / 2) + TotalHeight
         == (2 * m + 1) * p * TotalHeight
  {
    var mp := m * p;
    assert (p - 1) * TotalHeight / 2 == 60 * (p - 1);
    assert m * p * TotalHeight == 120 * mp;
    assert (2 * m + 1) * p == 2 * mp + p;
    assert (2 * m + 1) * p * TotalHeight == 120 * (2 * mp + p);
  }

  /** The height of a round's column (line 572). */
  function ColumnHeight(roundLength: nat, r: nat): nat
  {
    roundLength * Pow2(r) * TotalHeight
  }

  /** A match of round `r + 1` sits exactly halfway between its feeders
      `2m` and `2m + 1` of round `r`. */
  lemma OffsetIsMidpointOfFeeders(r: nat, m: nat)
    ensures 2 * TopOffset(r + 1, m) == TopOffset(r, 2 * m) + TopOffset(r, 2 * m + 1)
  {
    var p := Pow2(r);
    assert Pow2(r + 1) == 2 * p;
    assert (2 * m + 1) * (2 * p) == (4 * m + 2) * p;
    assert (4 * m + 2) * p == (4 * m + 1) * p + p;
    assert (4 * m + 3) * p == (4 * m + 1) * p + 2 * p;
  }

  /** Neighbouring matches of round `r` are `2^r` units apart, so matches of
      height `BaseMatchHeight` never overlap. */
  lemma OffsetsAreSpaced(r: nat, m: nat)
    ensures TopOffset(r, m + 1) == TopOffset(r, m) + Pow2(r) * TotalHeight
    ensures TopOffset(r, m) + BaseMatchHeight < TopOffset(r, m + 1)
  {
    var p := Pow2(r);
    assert (2 * (m + 1) + 1) * p == (2 * m + 1) * p + 2 * p;
    assert (2 * (m + 1) + 1) * p * TotalHeight == (2 * m + 1) * p * TotalHeight + 2 * p * TotalHeight;
  }

  /** Every match of a round of `len` matches lies inside the column. */
  lemma MatchFitsColumn(r: nat, len: nat, m: nat)
    requires m < len
    ensures TopOffset(r, m) + TotalHeight <= ColumnHeight(len, r)
  {
    var p := Pow2(r);
    var mp, lp := m * p, len * p;
    Spread(2 * m, 1, p);
    Spread(m, 1, p);
    MulLeft(m + 1, len, p);
    assert 2 * TopOffset(r, m) + TotalHeight == ((2 * m + 1) * p) * TotalHeight;
    assert (2 * m) * p == 2 * mp;
    assert ColumnHeight(len, r) == lp * TotalHeight;
  }

  lemma Spread(a: nat, b: nat, c: nat)
    ensures (a + b) * c == a * c + b * c
  {
  }

  lemma MulLeft(a: nat, b: nat, c: nat)
    requires a <= b
    ensures a * c <= b * c
  {
  }

  lemma {:induction false} Pow2Add(a: nat, b: nat)
    ensures Pow2(a) * Pow2(b) == Pow2(a + b)
  {
    if a > 0 {
      Pow2Add(a - 1, b);
    }
  }

  /** In a shaped bracket every round's column is equally tall. */
  lemma ColumnsAreEquallyTall(b: Bracket, k: nat)
    requires Shaped(b) && k < |b|
    ensures ColumnHeight(|b[k]|, k) == ColumnHeight(|b[0]|, 0)
  {
    ShapedRoundLength(b, k);
    ShapedRoundLength(b, 0);
    Pow2Add(|b| - 1 - k, k);
  }
}
