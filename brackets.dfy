/**
 * The bracket data model: a match is a record of two slots, a winner and
 * two scores; a round is a list of matches; a bracket is a list of rounds.
 * JavaScript's `null` in a slot or in `winner` is `None`.
 */
module Brackets {
  import opened Wrappers

  /** A team is its display name; names need not be unique. */
  type Team = string

  datatype Match = Match(team1: Option<Team>, team2: Option<Team>, winner: Option<Team>, score1: int, score2: int)

  type Round = seq<Match>

  type Bracket = seq<Round>

  /** The match every later round starts with: no teams, no winner, 0 to 0. */
  const EmptyMatch := Match(None, None, None, 0, 0)

  /** `Math.pow(2, k)` for a natural exponent. */
  function Pow2(k: nat): (p: nat)
    ensures p >= 1
  {
    if k == 0 then 1 else 2 * Pow2(k - 1)
  }

  /** `Math.ceil(Math.log2(n))` for `n >= 1`: the least `k` with `2^k >= n`. */
  function CeilLog2(n: nat): (k: nat)
    ensures Pow2(k) >= n
    ensures k > 0 ==> Pow2(k - 1) < n
  {
    if n <= 1 then 0 else 1 + CeilLog2((n + 1) / 2)
  }

  /** The capacity of a bracket for `n` teams (line 58): a power of two
      that is at least `n`; `CapacityIsLeast` shows it is the smallest one. */
  function Capacity(n: nat): (size: nat)
    ensures size >= n && size >= 1
  {
    Pow2(CeilLog2(n))
  }

  /** No smaller power of two holds `n` teams. */
  lemma CapacityIsLeast(n: nat, k: nat)
    requires Pow2(k) >= n
    ensures Pow2(k) >= Capacity(n)
  {
    var c := CeilLog2(n);
    if k < c { Pow2Monotone(k, c - 1); }
    else { Pow2Monotone(c, k); }
  }

  /** From two teams on, the capacity is an even power of two. */
  lemma CapacityOfTwoOrMore(n: nat)
    requires n >= 2
    ensures CeilLog2(n) >= 1 && Capacity(n) == 2 * Pow2(CeilLog2(n) - 1)
  {
  }

  lemma {:induction false} Pow2Monotone(i: nat, j: nat)
    requires i <= j
    ensures Pow2(i) <= Pow2(j)
  {
    if i < j { Pow2Monotone(i, j - 1); }
  }

  /** The shape every generated bracket has: a final round of one match, and
      each round twice as long as the one after it. */
  predicate Shaped(b: Bracket) {
    && |b| >= 1
    && |b[|b| - 1]| == 1
    && forall k :: 0 <= k < |b| - 1 ==> |b[k]| == 2 * |b[k + 1]|
  }

  /** In a shaped bracket round `k` has `2^(|b|-1-k)` matches. */
  lemma {:induction false} ShapedRoundLength(b: Bracket, k: nat)
    requires Shaped(b) && k < |b|
    ensures |b[k]| == Pow2(|b| - 1 - k)
    decreases |b| - k
  {
    if k < |b| - 1 {
      ShapedRoundLength(b, k + 1);
    }
  }

  /** A winner, when set, is one of the match's two teams. */
  predicate WinnerInSlots(x: Match) {
    x.winner.Some? ==> x.winner == x.team1 || x.winner == x.team2
  }

  /** A slot of a later round is either still empty or holds the winner of
      the match that feeds it. */
  predicate FedBy(slot: Option<Team>, feeder: Match) {
    slot.Some? ==> slot == feeder.winner
  }

  /** Every filled slot of round `next` holds the winner of its feeder in
      round `prev`: `team1` of match `j` is fed by match `2j` and `team2` by
      match `2j + 1`. */
  predicate RoundFed(prev: Round, next: Round) {
    && |prev| == 2 * |next|
    && forall j :: 0 <= j < |next| ==>
         FedBy(next[j].team1, prev[2 * j]) && FedBy(next[j].team2, prev[2 * j + 1])
  }

  /** The invariant the advancement engine keeps: the bracket is shaped,
      every winner is one of its match's teams, and every round after the
      first is fed by the round before it. */
  ghost predicate Consistent(b: Bracket) {
    && Shaped(b)
    && (forall k, j :: 0 <= k < |b| && 0 <= j < |b[k]| ==> WinnerInSlots(b[k][j]))
    && (forall k :: 0 <= k < |b| - 1 ==> RoundFed(b[k], b[k + 1]))
  }

  /** The champion (line 485): the winner of the single match of the final
      round, if it has one. */
  function Champion(b: Bracket): Option<Team>
    requires Shaped(b)
  {
    b[|b| - 1][0].winner
  }
}
