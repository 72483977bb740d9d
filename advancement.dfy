/**
 * Advancement (`selectWinner`, `updateScore` and the champion read, src/App.jsx
 * lines 100-128 and 485). Both operations deep-copy the bracket and then
 * assign fields; with value semantics the copy is the new value, and the old
 * bracket is untouched by construction.
 */
module Advancement {
  import opened Wrappers
  import opened Brackets
  import opened Text
  import Generation

  /** Team `t` occupies a slot of `x`: the only teams the round view offers
      as winners (lines 372-376 and 428-432). */
  predicate Offers(x: Match, t: Team) {
    x.team1 == Some(t) || x.team2 == Some(t)
  }

  /** The slot of round `r + 1` that match `(r, m)` feeds: `team1` of match
      `m / 2` for even `m`, `team2` for odd `m`. */
  function FedSlot(b: Bracket, r: nat, m: nat): Option<Team>
    requires r + 1 < |b| && m / 2 < |b[r + 1]|
  {
    if m % 2 == 0 then b[r + 1][m / 2].team1 else b[r + 1][m / 2].team2
  }

  /** `selectWinner(r, m, t)`: match `(r, m)` gets winner `t` and, below the
      final, `t` moves into the slot that match feeds. The match must still be
      undecided and `t` one of its teams: the round view only calls it as
      `!match.winner && selectWinner(..., match.team1 or match.team2)`.
      Nothing else changes. */
  function SelectWinner(b: Bracket, r: nat, m: nat, t: Team): (nb: Bracket)
    requires r < |b| && m < |b[r]|
    requires r + 1 < |b| ==> m / 2 < |b[r + 1]|
    requires b[r][m].winner.None? && Offers(b[r][m], t)
    ensures |nb| == |b| && forall k :: 0 <= k < |b| ==> |nb[k]| == |b[k]|
    ensures nb[r][m] == b[r][m].(winner := Some(t))
    ensures r + 1 < |b| ==>
      && FedSlot(nb, r, m) == Some(t)
      && nb[r + 1][m / 2] == if m % 2 == 0 then b[r + 1][m / 2].(team1 := Some(t))
                                         else b[r + 1][m / 2].(team2 := Some(t))
    ensures forall k, j :: 0 <= k < |b| && 0 <= j < |b[k]| && (k != r || j != m) && (k != r + 1 || j != m / 2) ==>
      nb[k][j] == b[k][j]
  {
    var decided := b[r := b[r][m := b[r][m].(winner := Some(t))]];
    if r < |decided| - 1 then
      var nextMatchIdx := m / 2;
      var next := decided[r + 1][nextMatchIdx];
      var filled := if m % 2 == 0 then next.(team1 := Some(t)) else next.(team2 := Some(t));
      decided[r + 1 := decided[r + 1][nextMatchIdx := filled]]
    else
      decided
  }

  /** `y` is `x` with at most some empty slot or winner filled in. */
  predicate Extends(x: Match, y: Match) {
    && (x.team1.Some? ==> y.team1 == x.team1)
    && (x.team2.Some? ==> y.team2 == x.team2)
    && (x.winner.Some? ==> y.winner == x.winner)
    && y.score1 == x.score1 && y.score2 == x.score2
  }

  /** Selecting a winner keeps the bracket consistent: shaped, winners among
      their match's teams, every filled slot the winner of its feeder. */
  lemma {:induction false} SelectKeepsConsistent(b: Bracket, r: nat, m: nat, t: Team)
    requires Consistent(b) && r < |b| && m < |b[r]|
    requires b[r][m].winner.None? && Offers(b[r][m], t)
    ensures Consistent(SelectWinner(b, r, m, t))
  {
    SelectKeepsWinners(b, r, m, t);
    SelectKeepsFed(b, r, m, t);
  }

  /** After a selection every winner is still one of its match's teams. */
  lemma {:induction false} SelectKeepsWinners(b: Bracket, r: nat, m: nat, t: Team)
    requires Consistent(b) && r < |b| && m < |b[r]|
    requires b[r][m].winner.None? && Offers(b[r][m], t)
    ensures var nb := SelectWinner(b, r, m, t);
      forall k, j :: 0 <= k < |nb| && 0 <= j < |nb[k]| ==> WinnerInSlots(nb[k][j])
  {
    var nb := SelectWinner(b, r, m, t);
    forall k, j | 0 <= k < |nb| && 0 <= j < |nb[k]| ensures WinnerInSlots(nb[k][j]) {
      if k == r + 1 && j == m / 2 {
        assert RoundFed(b[r], b[r + 1]);
        assert m == 2 * j || m == 2 * j + 1;
      }
    }
  }

  /** After a selection every round is still fed by the one before it. */
  lemma {:induction false} SelectKeepsFed(b: Bracket, r: nat, m: nat, t: Team)
    requires Consistent(b) && r < |b| && m < |b[r]|
    requires b[r][m].winner.None? && Offers(b[r][m], t)
    ensures var nb := SelectWinner(b, r, m, t);
      forall k :: 0 <= k < |nb| - 1 ==> RoundFed(nb[k], nb[k + 1])
  {
    var nb := SelectWinner(b, r, m, t);
    forall k | 0 <= k < |nb| - 1 ensures RoundFed(nb[k], nb[k + 1]) {
      assert RoundFed(b[k], b[k + 1]);
      forall j | 0 <= j < |nb[k + 1]|
        ensures FedBy(nb[k + 1][j].team1, nb[k][2 * j]) && FedBy(nb[k + 1][j].team2, nb[k][2 * j + 1])
      {
        if k == r && j == m / 2 {
        } else if k == r {
          assert 2 * j != m && 2 * j + 1 != m;
        }
      }
    }
  }

  /** Selecting a winner only fills in: in a consistent bracket no slot that
      holds a team, no decided winner and no score changes, so propagation
      never overwrites a populated slot. */
  lemma {:induction false} SelectOnlyFills(b: Bracket, r: nat, m: nat, t: Team)
    requires Consistent(b) && r < |b| && m < |b[r]|
    requires b[r][m].winner.None? && Offers(b[r][m], t)
    ensures var nb := SelectWinner(b, r, m, t);
      forall k, j :: 0 <= k < |b| && 0 <= j < |b[k]| ==> Extends(b[k][j], nb[k][j])
  {
    if r + 1 < |b| {
      assert RoundFed(b[r], b[r + 1]);
      var j := m / 2;
      assert m == 2 * j || m == 2 * j + 1;
    }
  }

  /** A decided match never changes: its winner stays, and so does the slot
      it feeds. In particular a first-round bye, decided at generation with
      its fed slot still empty, can never move its team forward. */
  lemma {:induction false} DecidedMatchIsFrozen(b: Bracket, r: nat, m: nat, r': nat, m': nat, t: Team)
    requires Consistent(b) && r + 1 < |b| && m < |b[r]| && b[r][m].winner.Some?
    requires r' < |b| && m' < |b[r']| && b[r'][m'].winner.None? && Offers(b[r'][m'], t)
    ensures var nb := SelectWinner(b, r', m', t);
      nb[r][m].winner == b[r][m].winner && FedSlot(nb, r, m) == FedSlot(b, r, m)
  {
    var nb: Bracket := SelectWinner(b, r', m', t);
    assert RoundFed(b[r], b[r + 1]);
    assert r != r' || m != m';
    if r == r' + 1 && m == m' / 2 {
      assert nb[r][m].winner == b[r][m].winner;
    } else {
      assert nb[r][m] == b[r][m];
    }
    if r == r' && m / 2 == m' / 2 {
      assert m % 2 != m' % 2;
    } else if r + 1 == r' && m / 2 == m' {
      assert nb[r + 1][m / 2] == b[r + 1][m / 2].(winner := Some(t));
    } else {
      assert nb[r + 1][m / 2] == b[r + 1][m / 2];
    }
  }

  /** The as-written bye rule strands the bye team: with teams `x, y, z`
      the first round is `(x, y)` and a bye `(z, -)` decided for `z`,
      while `z` is not in the final; and since the bye match is decided no
      selection can ever put `z` there. */
  lemma {:induction false} ThreeTeamsStrandBye(x: Team, y: Team, z: Team)
    requires x != "" && y != "" && z != ""
    ensures var b := Generation.Generated([x, y, z]);
      && |b| == 2 && |b[0]| == 2 && |b[1]| == 1
      && b[0][1] == Match(Some(z), None, Some(z), 0, 0)
      && b[1][0] == EmptyMatch
      && Consistent(b)
      && FedSlot(b, 0, 1).None?
  {
    var s := [x, y, z];
    assert CeilLog2(3) == 2;
    Generation.GeneratedShape(s);
    Generation.GeneratedConsistent(s);
    Generation.GeneratedFirstRound(s);
  }

  /** The evidently intended bye rule: a decided first-round match also
      moves its winner into the slot it feeds, as `SelectWinner` would. */
  function AdvanceByes(b: Bracket): (nb: Bracket)
    requires Shaped(b)
    ensures |nb| == |b| && forall k :: 0 <= k < |b| ==> |nb[k]| == |b[k]|
    ensures forall k :: 0 <= k < |b| && k != 1 ==> nb[k] == b[k]
  {
    if |b| == 1 then b else b[1 := FillFromFeeders(b[0], b[1])]
  }

  /** Every empty slot of `next` takes the winner of the match feeding it. */
  function FillFromFeeders(prev: Round, next: Round): (filled: Round)
    requires |prev| == 2 * |next|
    ensures |filled| == |next|
  {
    seq(|next|, j requires 0 <= j < |next| =>
      next[j].(team1 := if next[j].team1.None? then prev[2 * j].winner else next[j].team1,
               team2 := if next[j].team2.None? then prev[2 * j + 1].winner else next[j].team2))
  }

  /** Filling a fed round from its feeders keeps it fed and keeps its
      winners among its teams, and afterwards every decided feeder's winner
      sits in the slot it feeds. */
  lemma {:induction false} FillFromFeedersPlacesWinners(prev: Round, next: Round)
    requires RoundFed(prev, next)
    requires forall j :: 0 <= j < |next| ==> WinnerInSlots(next[j])
    ensures var filled := FillFromFeeders(prev, next);
      && RoundFed(prev, filled)
      && (forall j :: 0 <= j < |filled| ==> WinnerInSlots(filled[j]) && filled[j].winner == next[j].winner)
      && (forall m :: 0 <= m < |prev| && prev[m].winner.Some? ==>
            (if m % 2 == 0 then filled[m / 2].team1 else filled[m / 2].team2) == prev[m].winner)
  {
    var filled := FillFromFeeders(prev, next);
    forall m | 0 <= m < |prev| && prev[m].winner.Some?
      ensures (if m % 2 == 0 then filled[m / 2].team1 else filled[m / 2].team2) == prev[m].winner
    {
      var j := m / 2;
      assert m == 2 * j || m == 2 * j + 1;
    }
  }

  /** With the corrected rule the bracket stays consistent and every decided
      first-round match, byes included, has its winner in the slot it feeds. */
  lemma {:induction false} AdvanceByesPlacesWinners(b: Bracket)
    requires Consistent(b)
    ensures Consistent(AdvanceByes(b))
    ensures |b| > 1 ==> forall m :: 0 <= m < |b[0]| && b[0][m].winner.Some? ==>
      FedSlot(AdvanceByes(b), 0, m) == b[0][m].winner
  {
    if |b| > 1 {
      var nb := AdvanceByes(b);
      assert RoundFed(b[0], b[1]);
      assert forall j :: 0 <= j < |b[1]| ==> WinnerInSlots(b[1][j]);
      FillFromFeedersPlacesWinners(b[0], b[1]);
      assert nb[1] == FillFromFeeders(b[0], b[1]);
      forall k | 0 <= k < |nb| - 1 ensures RoundFed(nb[k], nb[k + 1]) {
        assert RoundFed(b[k], b[k + 1]);
        if k == 1 {
          forall j | 0 <= j < |nb[2]|
            ensures FedBy(nb[2][j].team1, nb[1][2 * j]) && FedBy(nb[2][j].team2, nb[1][2 * j + 1])
          {
            assert nb[1][2 * j].winner == b[1][2 * j].winner;
            assert nb[1][2 * j + 1].winner == b[1][2 * j + 1].winner;
          }
        }
      }
      forall k, j | 0 <= k < |nb| && 0 <= j < |nb[k]| ensures WinnerInSlots(nb[k][j]) {
        if k != 1 { assert nb[k][j] == b[k][j]; }
      }
    }
  }

  /** With the corrected rule the bye team of `x, y, z` does reach the
      final, where `SelectWinner` on the first match can complete it. */
  lemma {:induction false} ThreeTeamsAdvanceBye(x: Team, y: Team, z: Team)
    requires x != "" && y != "" && z != ""
    ensures var b := AdvanceByes(Generation.Generated([x, y, z]));
      && Consistent(b)
      && b[1][0] == Match(None, Some(z), None, 0, 0)
  {
    var s := [x, y, z];
    ThreeTeamsStrandBye(x, y, z);
    AdvanceByesPlacesWinners(Generation.Generated(s));
  }

  /** `updateScore(r, m, t, raw)`: the numeric value of `raw` (0 when it does
      not parse) becomes `score1` when `t` is `team1` and `score2` otherwise;
      teams, winner and every other match are unchanged. */
  function UpdateScore(b: Bracket, r: nat, m: nat, t: Team, raw: string): (nb: Bracket)
    requires r < |b| && m < |b[r]|
    ensures |nb| == |b| && forall k :: 0 <= k < |b| ==> |nb[k]| == |b[k]|
    ensures var x, y := b[r][m], nb[r][m];
      && y.team1 == x.team1 && y.team2 == x.team2 && y.winner == x.winner
      && (x.team1 == Some(t) ==> y.score1 == ScoreValue(raw) && y.score2 == x.score2)
      && (x.team1 != Some(t) ==> y.score2 == ScoreValue(raw) && y.score1 == x.score1)
    ensures forall k, j :: 0 <= k < |b| && 0 <= j < |b[k]| && (k != r || j != m) ==> nb[k][j] == b[k][j]
  {
    var x := b[r][m];
    var updated := if x.team1 == Some(t) then x.(score1 := ScoreValue(raw))
                   else x.(score2 := ScoreValue(raw));
    b[r := b[r][m := updated]]
  }

  /** Scores play no part in the invariant: a score update keeps it. */
  lemma {:induction false} UpdateScoreKeepsConsistent(b: Bracket, r: nat, m: nat, t: Team, raw: string)
    requires Consistent(b) && r < |b| && m < |b[r]|
    ensures Consistent(UpdateScore(b, r, m, t, raw))
  {
    var nb := UpdateScore(b, r, m, t, raw);
    assert forall k, j :: 0 <= k < |b| && 0 <= j < |b[k]| ==> SameOutcome(b[k][j], nb[k][j]);
    ConsistentIgnoresScores(b, nb);
  }

  /** Same teams and same winner; the scores may differ. */
  predicate SameOutcome(x: Match, y: Match) {
    x.team1 == y.team1 && x.team2 == y.team2 && x.winner == y.winner
  }

  lemma {:induction false} ConsistentIgnoresScores(b: Bracket, nb: Bracket)
    requires Consistent(b)
    requires |nb| == |b| && forall k :: 0 <= k < |b| ==> |nb[k]| == |b[k]|
    requires forall k, j :: 0 <= k < |b| && 0 <= j < |b[k]| ==> SameOutcome(b[k][j], nb[k][j])
    ensures Consistent(nb)
  {
    forall k | 0 <= k < |nb| - 1 ensures RoundFed(nb[k], nb[k + 1]) {
      assert RoundFed(b[k], b[k + 1]);
      forall j | 0 <= j < |nb[k + 1]|
        ensures FedBy(nb[k + 1][j].team1, nb[k][2 * j]) && FedBy(nb[k + 1][j].team2, nb[k][2 * j + 1])
      {
        assert SameOutcome(b[k + 1][j], nb[k + 1][j]);
        assert SameOutcome(b[k][2 * j], nb[k][2 * j]);
        assert SameOutcome(b[k][2 * j + 1], nb[k][2 * j + 1]);
      }
    }
    forall k, j | 0 <= k < |nb| && 0 <= j < |nb[k]| ensures WinnerInSlots(nb[k][j]) {
      assert SameOutcome(b[k][j], nb[k][j]);
    }
  }

  /** A score typed as the integer `n` for team `t` of a match is stored as
      `n` on `t`'s side; when both slots hold the same name it always lands
      in `score1`. */
  lemma {:induction false} TypedScoreIsStored(b: Bracket, r: nat, m: nat, t: Team, n: int)
    requires r < |b| && m < |b[r]| && Offers(b[r][m], t)
    ensures var y := UpdateScore(b, r, m, t, IntToDecimal(n))[r][m];
      && (b[r][m].team1 == Some(t) ==> y.score1 == n)
      && (b[r][m].team1 != Some(t) ==> y.score2 == n && b[r][m].team2 == Some(t))
  {
    ScoreOfDecimal(n);
  }

  /** Input without a single digit is stored as a score of 0, never an
      error. */
  lemma {:induction false} UnparsableScoreIsZero(b: Bracket, r: nat, m: nat, t: Team, raw: string)
    requires r < |b| && m < |b[r]|
    requires forall i :: 0 <= i < |raw| ==> !IsDigit(raw[i], 10)
    ensures var y := UpdateScore(b, r, m, t, raw)[r][m];
      if b[r][m].team1 == Some(t) then y.score1 == 0 else y.score2 == 0
  {
    ScoreWithoutDigits(raw);
  }

  /** Team `t` won some match of `round`. */
  ghost predicate WonIn(round: Round, t: Team) {
    exists j :: 0 <= j < |round| && round[j].winner == Some(t)
  }

  /** A winner in round `r` also won a match in every earlier round: follow
      the slot it occupies back to the match that fed it. */
  lemma {:induction false} WinnerTracesBack(b: Bracket, r: nat, m: nat, t: Team)
    requires Consistent(b) && r < |b| && m < |b[r]| && b[r][m].winner == Some(t)
    ensures forall k :: 0 <= k <= r ==> WonIn(b[k], t)
  {
    assert WonIn(b[r], t);
    if r > 0 {
      assert WinnerInSlots(b[r][m]);
      assert RoundFed(b[r - 1], b[r]);
      var j := if b[r][m].team1 == Some(t) then 2 * m else 2 * m + 1;
      assert b[r - 1][j].winner == Some(t);
      WinnerTracesBack(b, r - 1, j, t);
    }
  }

  /** The champion won a match in every round of a consistent bracket. */
  lemma {:induction false} ChampionWonEveryRound(b: Bracket, t: Team)
    requires Consistent(b) && Champion(b) == Some(t)
    ensures forall k :: 0 <= k < |b| ==> WonIn(b[k], t)
  {
    WinnerTracesBack(b, |b| - 1, 0, t);
  }

  /** Four teams, no byes: `a` beats `b` and `c` beats `d`, the final is
      `a` against `c`, and choosing `a` there makes `a` the champion. */
  lemma {:induction false} FourTeamTournament(a: Team, b: Team, c: Team, d: Team)
    requires a != "" && b != "" && c != "" && d != ""
    ensures var g := Generation.Generated([a, b, c, d]);
      && |g| == 2 && |g[0]| == 2 && |g[1]| == 1
      && g[0][0] == Match(Some(a), Some(b), None, 0, 0)
      && g[0][1] == Match(Some(c), Some(d), None, 0, 0)
      && g[1][0] == EmptyMatch
    ensures var g := Generation.Generated([a, b, c, d]);
      var g2 := SelectWinner(SelectWinner(g, 0, 0, a), 0, 1, c);
      && g2[1][0] == Match(Some(a), Some(c), None, 0, 0)
      && Champion(SelectWinner(g2, 1, 0, a)) == Some(a)
  {
    var s := [a, b, c, d];
    assert CeilLog2(4) == 2;
    Generation.GeneratedShape(s);
    Generation.GeneratedFirstRound(s);
  }
}
