/**
 * The component's state (src/App.jsx lines 6-20) as one object: each
 * `useState` pair becomes a field and each setter call an assignment. The
 * handlers are its methods. Rendering decides when a handler can run (the
 * setup screen with the team list, the score checkbox and the generate
 * button exists only without a bracket, lines 216-307; a winner button only
 * for a filled slot); those conditions are the methods' preconditions.
 */
module Sessions {
  import opened Wrappers
  import opened Text
  import opened Brackets
  import opened Generation
  import opened Advancement
  import opened Teams

  /** The horizontal distance a swipe must exceed (line 147). */
  const SwipeThreshold := 50

  /** `handleTouchEnd` (lines 144-157) on round `current` of rounds
      `0..last`: a swipe longer than the threshold to the left moves one
      round on, one to the right moves one round back, and the round stays
      within `0..last`. */
  function SwipeTarget(current: nat, last: nat, startX: int, endX: int): (next: nat)
    requires current <= last
    ensures next <= last
    ensures next == current + 1 <==> startX - endX > SwipeThreshold && current < last
    ensures next + 1 == current <==> endX - startX > SwipeThreshold && current > 0
    ensures next == current || next == current + 1 || next + 1 == current
  {
    var diff := startX - endX;
    if diff > SwipeThreshold || diff < -SwipeThreshold then
      if diff > 0 && current < last then current + 1
      else if diff < 0 && current > 0 then current - 1
      else current
    else current
  }

  class Session {
    var teams: seq<Team>
    var newTeam: string
    var bracket: Option<Bracket>
    var currentRound: nat
    var useScoring: bool
    var editingTeamIdx: Option<nat>
    var editingTeamValue: string
    var touchStartX: int
    var touchEndX: int

    /** Team names are never empty; an edit in progress is of an existing
        team; without a bracket the view is on round 0, and with one the
        bracket is consistent and the view is on one of its rounds. */
    ghost predicate Valid()
      reads this
    {
      && AllNamed(teams)
      && (editingTeamIdx.Some? ==> editingTeamIdx.value < |teams|)
      && (bracket.None? ==> currentRound == 0)
      && (bracket.Some? ==> Consistent(bracket.value) && currentRound < |bracket.value|)
    }

    /** The initial state (lines 6-20). */
    constructor ()
      ensures Valid()
      ensures teams == ["Team 1", "Team 2", "Team 3", "Team 4"] && newTeam == ""
      ensures bracket == None && currentRound == 0 && !useScoring
      ensures editingTeamIdx == None && editingTeamValue == ""
      ensures touchStartX == 0 && touchEndX == 0
    {
      teams := ["Team 1", "Team 2", "Team 3", "Team 4"];
      newTeam := "";
      bracket := None;
      currentRound := 0;
      useScoring := false;
      editingTeamIdx := None;
      editingTeamValue := "";
      touchStartX := 0;
      touchEndX := 0;
    }

    /** The team-name input (line 225). */
    method TypeNewTeam(value: string)
      requires Valid() && bracket.None?
      modifies this`newTeam
      ensures Valid() && newTeam == value
    {
      newTeam := value;
    }

    /** `addTeam` (lines 23-28): a non-blank name is appended trimmed and the
        input cleared; a blank one changes nothing. */
    method AddTeam()
      requires Valid() && bracket.None?
      modifies this`teams, this`newTeam
      ensures Valid()
      ensures Trim(old(newTeam)) != "" ==> teams == old(teams) + [Trim(old(newTeam))] && newTeam == ""
      ensures Trim(old(newTeam)) == "" ==> teams == old(teams) && newTeam == old(newTeam)
    {
      if Trim(newTeam) != "" {
        teams := teams + [Trim(newTeam)];
        newTeam := "";
      }
    }

    /** `removeTeam(idx)` (lines 30-32): exactly position `idx` goes, the
        others keep their order. Other rows keep their delete buttons during
        an edit; the method assumes the browser blurs the edit field before
        the click lands, so the field's `onBlur` (line 268) has already ended
        the edit. */
    method RemoveTeam(idx: int)
      requires Valid() && bracket.None? && editingTeamIdx.None?
      modifies this`teams
      ensures Valid()
      ensures 0 <= idx < |old(teams)| ==> teams == old(teams)[..idx] + old(teams)[idx + 1..]
      ensures !(0 <= idx < |old(teams)|) ==> teams == old(teams)
    {
      teams := Without(teams, idx);
    }

    /** `startEditingTeam(idx)` (lines 34-37). */
    method StartEditingTeam(idx: nat)
      requires Valid() && bracket.None? && idx < |teams|
      modifies this`editingTeamIdx, this`editingTeamValue
      ensures Valid() && editingTeamIdx == Some(idx) && editingTeamValue == teams[idx]
    {
      editingTeamIdx := Some(idx);
      editingTeamValue := teams[idx];
    }

    /** The edit field (line 263). */
    method TypeTeamEdit(value: string)
      requires Valid() && bracket.None?
      modifies this`editingTeamValue
      ensures Valid() && editingTeamValue == value
    {
      editingTeamValue := value;
    }

    /** `saveTeamEdit` (lines 39-47): only the edited position changes, and
        only to a non-blank trimmed name; the edit ends either way. */
    method SaveTeamEdit()
      requires Valid() && bracket.None?
      modifies this`teams, this`editingTeamIdx, this`editingTeamValue
      ensures Valid() && editingTeamIdx == None && editingTeamValue == ""
      ensures old(editingTeamIdx).Some? && Trim(old(editingTeamValue)) != "" ==>
        teams == old(teams)[old(editingTeamIdx).value := Trim(old(editingTeamValue))]
      ensures old(editingTeamIdx).None? || Trim(old(editingTeamValue)) == "" ==> teams == old(teams)
    {
      if Trim(editingTeamValue) != "" && editingTeamIdx.Some? {
        var newTeams := teams;
        newTeams := newTeams[editingTeamIdx.value := Trim(editingTeamValue)];
        teams := newTeams;
      }
      editingTeamIdx := None;
      editingTeamValue := "";
    }

    /** `cancelTeamEdit` (lines 49-52). */
    method CancelTeamEdit()
      requires Valid() && bracket.None?
      modifies this`editingTeamIdx, this`editingTeamValue
      ensures Valid() && editingTeamIdx == None && editingTeamValue == ""
    {
      editingTeamIdx := None;
      editingTeamValue := "";
    }

    /** The score-tracking checkbox (line 244). */
    method SetUseScoring(on: bool)
      requires Valid() && bracket.None?
      modifies this`useScoring
      ensures Valid() && useScoring == on
    {
      useScoring := on;
    }

    /** `generateBracket` as the setup screen runs it (lines 55-97, 301):
        with fewer than two teams nothing happens; otherwise the bracket of
        the shuffled teams replaces the absent one. */
    method GenerateBracket(shuffled: seq<Team>)
      requires Valid() && bracket.None?
      requires multiset(shuffled) == multiset(teams)
      modifies this`bracket
      ensures Valid()
      ensures |teams| < 2 ==> bracket == None
      ensures |teams| >= 2 ==> |shuffled| >= 2 && bracket == Some(Generated(shuffled))
    {
      var result := Generation.GenerateBracket(teams, shuffled);
      if result.Some? {
        GeneratedConsistent(shuffled);
        GeneratedShape(shuffled);
        bracket := result;
      }
    }

    /** `reset` (lines 130-133). */
    method Reset()
      requires Valid()
      modifies this`bracket, this`currentRound
      ensures Valid() && bracket == None && currentRound == 0
    {
      bracket := None;
      currentRound := 0;
    }

    /** The "previous round" button (line 339): `Math.max(0, currentRound - 1)`. */
    method PreviousRound()
      requires Valid() && bracket.Some?
      modifies this`currentRound
      ensures Valid()
      ensures currentRound == if old(currentRound) == 0 then 0 else old(currentRound) - 1
    {
      currentRound := if currentRound - 1 < 0 then 0 else currentRound - 1;
    }

    /** The "next round" button (line 356):
        `Math.min(bracket.length - 1, currentRound + 1)`. */
    method NextRound()
      requires Valid() && bracket.Some?
      modifies this`currentRound
      ensures Valid()
      ensures currentRound == if old(currentRound) + 1 < |bracket.value| then old(currentRound) + 1 else old(currentRound)
    {
      var last := |bracket.value| - 1;
      currentRound := if last < currentRound + 1 then last else currentRound + 1;
    }

    /** `handleTouchStart` and `handleTouchMove` (lines 136-142), with the
        touch's x coordinate as input. */
    method TouchStart(x: int)
      requires Valid()
      modifies this`touchStartX
      ensures Valid() && touchStartX == x
    {
      touchStartX := x;
    }

    method TouchMove(x: int)
      requires Valid()
      modifies this`touchEndX
      ensures Valid() && touchEndX == x
    {
      touchEndX := x;
    }

    /** `handleTouchEnd` (lines 144-157). */
    method TouchEnd()
      requires Valid()
      modifies this`currentRound
      ensures Valid()
      ensures old(bracket).None? ==> currentRound == old(currentRound)
      ensures old(bracket).Some? ==>
        currentRound == SwipeTarget(old(currentRound), |bracket.value| - 1, touchStartX, touchEndX)
    {
      if bracket.None? {
        return;
      }
      currentRound := SwipeTarget(currentRound, |bracket.value| - 1, touchStartX, touchEndX);
    }

    /** A winner button of the round view (lines 376, 406, 432, 462): for
        the team in slot 1 (`first`) or slot 2 of match `matchIdx` in the
        current round; it does nothing once the match has a winner. */
    method PickWinner(matchIdx: nat, first: bool)
      requires Valid() && bracket.Some? && matchIdx < |bracket.value[currentRound]|
      requires var x := bracket.value[currentRound][matchIdx];
        if first then x.team1.Some? else x.team2.Some?
      modifies this`bracket
      ensures Valid()
      ensures var x := old(bracket).value[currentRound][matchIdx];
        var t := if first then x.team1.value else x.team2.value;
        bracket == if x.winner.None? then Some(SelectWinner(old(bracket).value, currentRound, matchIdx, t))
                   else old(bracket)
    {
      var b: Bracket := bracket.value;
      var x: Match := b[currentRound][matchIdx];
      var t := if first then x.team1.value else x.team2.value;
      if x.winner.None? {
        SelectKeepsConsistent(b, currentRound, matchIdx, t);
        bracket := Some(SelectWinner(b, currentRound, matchIdx, t));
      }
    }

    /** A score field of the round view (lines 402 and 458), shown only with
        score tracking on, for the team in slot 1 (`first`) or slot 2. */
    method EnterScore(matchIdx: nat, first: bool, raw: string)
      requires Valid() && useScoring && bracket.Some? && matchIdx < |bracket.value[currentRound]|
      requires var x := bracket.value[currentRound][matchIdx];
        if first then x.team1.Some? else x.team2.Some?
      modifies this`bracket
      ensures Valid()
      ensures var x := old(bracket).value[currentRound][matchIdx];
        var t := if first then x.team1.value else x.team2.value;
        bracket == Some(UpdateScore(old(bracket).value, currentRound, matchIdx, t, raw))
    {
      var b: Bracket := bracket.value;
      var x: Match := b[currentRound][matchIdx];
      var t := if first then x.team1.value else x.team2.value;
      UpdateScoreKeepsConsistent(b, currentRound, matchIdx, t, raw);
      bracket := Some(UpdateScore(b, currentRound, matchIdx, t, raw));
    }

    /** The champion banner (lines 485-491) shows a name exactly when the
        final has a winner, and that team won a match in every round. */
    method ChampionShown() returns (champion: Option<Team>)
      requires Valid() && bracket.Some?
      ensures champion == bracket.value[|bracket.value| - 1][0].winner
      ensures champion.Some? ==> forall k :: 0 <= k < |bracket.value| ==> WonIn(bracket.value[k], champion.value)
    {
      champion := Champion(bracket.value);
      if champion.Some? {
        ChampionWonEveryRound(bracket.value, champion.value);
      }
    }
  }
}
