/**
 * Bracket generation (`generateBracket`, src/App.jsx lines 55-97): pair the
 * shuffled teams into the first round, give every one-sided match its lone
 * team as winner, and allocate the empty later rounds down to the final.
 * The shuffle is not modelled: the caller passes some permutation of the
 * teams, `shuffled`.
 */
module Generation {
  import opened Wrappers
  import opened Brackets

  /** `shuffled[i] || null`: a position past the end, or an empty name
      (which JavaScript treats as false), gives an empty slot. */
  function Slot(shuffled: seq<Team>, i: nat): (slot: Option<Team>)
    ensures slot.Some? <==> i < |shuffled| && shuffled[i] != ""
    ensures slot.Some? ==> slot.value == shuffled[i]
  {
    if i < |shuffled| && shuffled[i] != "" then Some(shuffled[i]) else None
  }

  /** The match built for shuffled positions `2i` and `2i + 1` (lines
      63-69), before byes are resolved. */
  function PairedMatch(shuffled: seq<Team>, i: nat): Match
  {
    Match(Slot(shuffled, 2 * i), Slot(shuffled, 2 * i + 1), None, 0, 0)
  }

  /** The bye rule of lines 74-75: a match with exactly one team gets that
      team as winner; any other match is left as it is. */
  function ResolveBye(x: Match): (y: Match)
    ensures y.team1 == x.team1 && y.team2 == x.team2
    ensures y.score1 == x.score1 && y.score2 == x.score2
    ensures x.team1.Some? && x.team2.None? ==> y.winner == x.team1
    ensures x.team1.None? && x.team2.Some? ==> y.winner == x.team2
    ensures x.team1.Some? == x.team2.Some? ==> y.winner == x.winner
  {
    if x.team1.None? && x.team2.Some? then x.(winner := x.team2)
    else if x.team1.Some? && x.team2.None? then x.(winner := x.team1)
    else x
  }

  /** First-round match `i` as generation leaves it. */
  function SeedMatch(shuffled: seq<Team>, i: nat): Match
  {
    ResolveBye(PairedMatch(shuffled, i))
  }

  /** The first round for capacity `size`: `size / 2` seeded matches. */
  function FirstRound(shuffled: seq<Team>, size: nat): Round
  {
    seq(size / 2, i requires 0 <= i < size / 2 => SeedMatch(shuffled, i))
  }

  function EmptyRound(len: nat): Round
  {
    seq(len, _ => EmptyMatch)
  }

  /** The empty rounds allocated after a round of `len` matches: one match
      per pair (the inner `for` of lines 83-91 runs `ceil(len / 2)` times),
      until a round of one match. */
  function RoundsAfter(len: nat): seq<Round>
    decreases len
  {
    if len <= 1 then []
    else
      var next := (len + 1) / 2;
      [EmptyRound(next)] + RoundsAfter(next)
  }

  /** The bracket `generateBracket` builds from `shuffled`. */
  function Generated(shuffled: seq<Team>): Bracket
    requires |shuffled| >= 2
  {
    var first := FirstRound(shuffled, Capacity(|shuffled|));
    [first] + RoundsAfter(|first|)
  }

  /** Lines 61-70: one match per pair of shuffled positions, no winners. */
  method PairTeams(shuffled: seq<Team>, size: nat) returns (firstRound: Round)
    requires size % 2 == 0
    ensures |firstRound| == size / 2
    ensures forall x :: 0 <= x < |firstRound| ==> firstRound[x] == PairedMatch(shuffled, x)
  {
    firstRound := [];
    var i := 0;
    while i < size
      invariant 0 <= i <= size && i % 2 == 0
      invariant |firstRound| == i / 2
      invariant forall x :: 0 <= x < |firstRound| ==> firstRound[x] == PairedMatch(shuffled, x)
    {
      firstRound := firstRound + [Match(Slot(shuffled, i), Slot(shuffled, i + 1), None, 0, 0)];
      i := i + 2;
    }
  }

  /** Lines 73-76: every one-sided match gets its lone team as winner. */
  method ResolveByes(paired: Round) returns (firstRound: Round)
    ensures |firstRound| == |paired|
    ensures forall x :: 0 <= x < |paired| ==> firstRound[x] == ResolveBye(paired[x])
  {
    firstRound := paired;
    var j := 0;
    while j < |firstRound|
      invariant 0 <= j <= |firstRound| == |paired|
      invariant forall x :: 0 <= x < j ==> firstRound[x] == ResolveBye(paired[x])
      invariant forall x :: j <= x < |firstRound| ==> firstRound[x] == paired[x]
    {
      var seeded := firstRound[j];
      if seeded.team1.None? && seeded.team2.Some? {
        seeded := seeded.(winner := seeded.team2);
      }
      if seeded.team1.Some? && seeded.team2.None? {
        seeded := seeded.(winner := seeded.team1);
      }
      firstRound := firstRound[j := seeded];
      j := j + 1;
    }
  }

  /** Lines 78-94: below `firstRound`, empty rounds of half the length each
      until a round of one match. */
  method AllocateRounds(firstRound: Round) returns (rounds: Bracket)
    ensures rounds == [firstRound] + RoundsAfter(|firstRound|)
  {
    rounds := [firstRound];
    var currentRound := firstRound;
    while |currentRound| > 1
      invariant |rounds| >= 1 && currentRound == rounds[|rounds| - 1]
      invariant rounds + RoundsAfter(|currentRound|) == [firstRound] + RoundsAfter(|firstRound|)
      decreases |currentRound|
    {
      var nextRound := PairUp(|currentRound|);
      AppendRound(rounds, nextRound, |currentRound|);
      rounds := rounds + [nextRound];
      currentRound := nextRound;
    }
  }

  /** Lines 82-91: one empty match per pair of a round of `len` matches. */
  method PairUp(len: nat) returns (nextRound: Round)
    ensures nextRound == EmptyRound((len + 1) / 2)
  {
    nextRound := [];
    var k := 0;
    while k < len
      invariant 0 <= k <= len + 1 && k % 2 == 0
      invariant nextRound == EmptyRound(k / 2)
    {
      nextRound := nextRound + [EmptyMatch];
      k := k + 2;
    }
  }

  /** Appending the next round moves it from the rounds still to come to the
      rounds built. */
  lemma {:induction false} AppendRound(rounds: Bracket, nextRound: Round, len: nat)
    requires len > 1 && nextRound == EmptyRound((len + 1) / 2)
    ensures rounds + RoundsAfter(len) == (rounds + [nextRound]) + RoundsAfter(|nextRound|)
  {
    assert RoundsAfter(len) == [nextRound] + RoundsAfter(|nextRound|);
  }

  /** `generateBracket` itself: nothing for fewer than two teams, and
      otherwise the bracket built from the permutation `shuffled`. */
  method GenerateBracket(teams: seq<Team>, shuffled: seq<Team>) returns (result: Option<Bracket>)
    requires multiset(shuffled) == multiset(teams)
    ensures result.None? <==> |teams| < 2
    ensures result.Some? ==> |shuffled| >= 2 && result.value == Generated(shuffled)
  {
    if |teams| < 2 {
      return None;
    }
    assert |shuffled| == |teams| by {
      assert |multiset(shuffled)| == |multiset(teams)|;
    }
    var size := Capacity(|teams|);
    CapacityOfTwoOrMore(|teams|);
    var paired := PairTeams(shuffled, size);
    var firstRound := ResolveByes(paired);
    assert firstRound == FirstRound(shuffled, size);
    var rounds := AllocateRounds(firstRound);
    return Some(rounds);
  }

  /** The rounds allocated below a round of `2^e` matches: `e` empty rounds
      of `2^(e-1)`, ..., `2^0` matches. */
  lemma {:induction false} RoundsAfterPow2(e: nat)
    ensures |RoundsAfter(Pow2(e))| == e
    ensures forall i :: 0 <= i < e ==> RoundsAfter(Pow2(e))[i] == EmptyRound(Pow2(e - 1 - i))
  {
    if e > 0 {
      assert (Pow2(e) + 1) / 2 == Pow2(e - 1);
      RoundsAfterPow2(e - 1);
    }
  }

  /** For two or more teams the bracket has `log2(capacity)` rounds, the
      first of `capacity / 2` matches, each next round half as long as the
      one before, a final of one match; and every match after the first round
      is empty: no teams, no winner, scores 0. */
  lemma {:induction false} GeneratedShape(shuffled: seq<Team>)
    requires |shuffled| >= 2
    ensures var b := Generated(shuffled);
      && Shaped(b)
      && Pow2(|b|) == Capacity(|shuffled|)
      && |b| == CeilLog2(|shuffled|)
      && 2 * |b[0]| == Capacity(|shuffled|)
      && forall k, j :: 1 <= k < |b| && 0 <= j < |b[k]| ==> b[k][j] == EmptyMatch
  {
    var b := Generated(shuffled);
    var e := CeilLog2(|shuffled|);
    CapacityOfTwoOrMore(|shuffled|);
    RoundsAfterPow2(e - 1);
    var later := RoundsAfter(Pow2(e - 1));
    assert b == [b[0]] + later;
    assert |b| == e;
    forall k | 0 <= k < |b| - 1 ensures |b[k]| == 2 * |b[k + 1]| {
      assert b[k + 1] == later[k];
      if k > 0 { assert b[k] == later[k - 1]; }
    }
    if e > 1 {
      assert b[|b| - 1] == later[e - 2];
    }
  }

  /** The first round is the seeded matches, `capacity / 2` of them. */
  lemma {:induction false} GeneratedFirstRound(shuffled: seq<Team>)
    requires |shuffled| >= 2
    ensures var r := Generated(shuffled)[0];
      && 2 * |r| == Capacity(|shuffled|)
      && forall x :: 0 <= x < |r| ==> r[x] == SeedMatch(shuffled, x)
  {
    CapacityOfTwoOrMore(|shuffled|);
  }

  /** A generated bracket satisfies the advancement invariant. */
  lemma {:induction false} GeneratedConsistent(shuffled: seq<Team>)
    requires |shuffled| >= 2
    ensures Consistent(Generated(shuffled))
  {
    var b := Generated(shuffled);
    GeneratedShape(shuffled);
    forall k | 0 <= k < |b| - 1 ensures RoundFed(b[k], b[k + 1]) {
      var next := b[k + 1];
      assert forall j :: 0 <= j < |next| ==> next[j] == EmptyMatch;
    }
  }

  /** The bye rule as generation leaves the first round: a match with exactly
      one team has that team as winner, a match with two teams or with none
      has no winner, and no bye winner is placed into the second round. */
  lemma {:induction false} GeneratedByes(shuffled: seq<Team>)
    requires |shuffled| >= 2
    ensures var b := Generated(shuffled);
      && (forall i :: 0 <= i < |b[0]| && b[0][i].team1.Some? && b[0][i].team2.None? ==>
            b[0][i].winner == b[0][i].team1)
      && (forall i :: 0 <= i < |b[0]| && b[0][i].team1.None? && b[0][i].team2.Some? ==>
            b[0][i].winner == b[0][i].team2)
      && (forall i :: 0 <= i < |b[0]| && b[0][i].team1.Some? == b[0][i].team2.Some? ==>
            b[0][i].winner.None?)
      && (|b| > 1 ==> forall j :: 0 <= j < |b[1]| ==> b[1][j].team1.None? && b[1][j].team2.None?)
  {
    GeneratedShape(shuffled);
  }

  /** Every name in the list is a real (non-empty) one. */
  predicate AllNamed(teams: seq<Team>) {
    forall i :: 0 <= i < |teams| ==> teams[i] != ""
  }

  /** With non-empty names, first-round match `i` holds shuffled positions
      `2i` and `2i + 1`, each slot empty past the end of the list. */
  lemma {:induction false} SeedingLayout(shuffled: seq<Team>, i: nat)
    requires |shuffled| >= 2 && AllNamed(shuffled)
    requires i < Capacity(|shuffled|) / 2
    ensures var x := Generated(shuffled)[0][i];
      && x.team1 == (if 2 * i < |shuffled| then Some(shuffled[2 * i]) else None)
      && x.team2 == (if 2 * i + 1 < |shuffled| then Some(shuffled[2 * i + 1]) else None)
  {
  }

  /** With non-empty names the teams fill the first slots in order, so the
      first round has at most one bye, exactly when the count is odd, in
      match `(n - 1) / 2`, and its team is always in the first slot; the
      matches after it are fully empty and keep no winner. */
  lemma {:induction false} FirstRoundKinds(shuffled: seq<Team>, i: nat)
    requires |shuffled| >= 2 && AllNamed(shuffled)
    requires i < Capacity(|shuffled|) / 2
    ensures var x := Generated(shuffled)[0][i];
      && (x.team1.Some? && x.team2.None? <==> 2 * i + 1 == |shuffled|)
      && !(x.team1.None? && x.team2.Some?)
      && (x.team1.None? == x.team2.None? ==> (x.team1.None? <==> 2 * i >= |shuffled|))
      && (2 * i >= |shuffled| ==> x == EmptyMatch)
  {
  }

  /** The teams seated in a round: both slots of every match, counted with
      multiplicity. */
  function Seated(round: Round): multiset<Team>
  {
    if round == [] then multiset{}
    else Seated(round[..|round| - 1]) + Occupants(round[|round| - 1])
  }

  function Occupants(x: Match): multiset<Team>
  {
    (if x.team1.Some? then multiset{x.team1.value} else multiset{})
    + (if x.team2.Some? then multiset{x.team2.value} else multiset{})
  }

  /** The first shuffled position that first-round match `i` covers; match `i`
      covers `PairStart(n, i)..PairStart(n, i + 1)`. */
  function PairStart(n: nat, i: nat): nat { if 2 * i < n then 2 * i else n }

  lemma {:induction false} OccupantsOfSeed(shuffled: seq<Team>, i: nat)
    requires AllNamed(shuffled)
    ensures PairStart(|shuffled|, i) <= PairStart(|shuffled|, i + 1) <= |shuffled|
    ensures Occupants(SeedMatch(shuffled, i))
         == multiset(shuffled[PairStart(|shuffled|, i)..PairStart(|shuffled|, i + 1)])
  {
    var lo, hi := PairStart(|shuffled|, i), PairStart(|shuffled|, i + 1);
    if hi - lo == 2 {
      assert shuffled[lo..hi] == [shuffled[lo], shuffled[lo + 1]];
    } else if hi - lo == 1 {
      assert shuffled[lo..hi] == [shuffled[lo]];
    } else {
      assert shuffled[lo..hi] == [];
    }
  }

  lemma {:induction false} SeatedPrefix(shuffled: seq<Team>, r: Round, h: nat)
    requires AllNamed(shuffled) && h <= |r|
    requires forall x :: 0 <= x < |r| ==> r[x] == SeedMatch(shuffled, x)
    ensures PairStart(|shuffled|, h) <= |shuffled|
    ensures Seated(r[..h]) == multiset(shuffled[..PairStart(|shuffled|, h)])
  {
    if h > 0 {
      SeatedPrefix(shuffled, r, h - 1);
      OccupantsOfSeed(shuffled, h - 1);
      SeatedExtends(r, h);
      SplitMultiset(shuffled, PairStart(|shuffled|, h - 1), PairStart(|shuffled|, h));
    }
  }

  lemma {:induction false} SeatedExtends(r: Round, h: nat)
    requires 0 < h <= |r|
    ensures Seated(r[..h]) == Seated(r[..h - 1]) + Occupants(r[h - 1])
  {
    assert r[..h][..h - 1] == r[..h - 1];
  }

  lemma {:induction false} SplitMultiset(s: seq<Team>, lo: nat, hi: nat)
    requires lo <= hi <= |s|
    ensures multiset(s[..hi]) == multiset(s[..lo]) + multiset(s[lo..hi])
  {
    assert s[..hi] == s[..lo] + s[lo..hi];
  }

  /** Every team of the list sits in exactly one first-round slot: the
      first round seats precisely the multiset of the teams. */
  lemma {:induction false} SeatsEveryTeam(teams: seq<Team>, shuffled: seq<Team>)
    requires multiset(shuffled) == multiset(teams)
    requires |teams| >= 2 && AllNamed(shuffled)
    ensures |shuffled| == |teams|
    ensures Seated(Generated(shuffled)[0]) == multiset(teams)
  {
    assert |multiset(shuffled)| == |multiset(teams)|;
    var r := Generated(shuffled)[0];
    GeneratedFirstRound(shuffled);
    SeatedPrefix(shuffled, r, |r|);
    assert r[..|r|] == r;
    assert shuffled[..|shuffled|] == shuffled;
  }

  /** Five teams in a capacity of eight: the third match is a bye and the
      fourth has no team at all, and it keeps no winner. */
  lemma {:induction false} FiveTeamsLeaveEmptyMatch(shuffled: seq<Team>)
    requires |shuffled| == 5 && AllNamed(shuffled)
    ensures var b := Generated(shuffled);
      && |b| == 3 && |b[0]| == 4
      && b[0][2].team1 == Some(shuffled[4]) && b[0][2].team2.None?
      && b[0][2].winner == Some(shuffled[4])
      && b[0][3] == EmptyMatch
  {
    assert CeilLog2(5) == 3;
    GeneratedShape(shuffled);
  }
}
