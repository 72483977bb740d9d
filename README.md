# Tourney bracket engine in Dafny

Tourney is a single-page React component (`src/App.jsx`) that runs a
single-elimination tournament. You enter a list of team names. The component
shuffles them and seats them in a first round whose size is the next power of
two, padding it with empty slots. Every one-sided match (a bye) is decided
for its lone team. Then it allocates empty later rounds, each half as long,
down to a one-match final. Clicking a team declares it the winner of its
match and copies it into the slot of the next round it feeds. Scores can be
typed per team. The winner of the final is shown as champion. A tree view
places each match halfway between the two matches that feed it. The round
view can be paged with buttons or swipes.

This project models that engine and proves properties of it:

- `wrappers.dfy`: the `Option` type. JavaScript's `null` is `None`.
- `text.dfy`: `String.prototype.trim` (with ECMAScript's white-space set) and
  the global `parseInt` with no radix (sign, `0x` prefix, longest digit
  prefix, `NaN` as `None`), with `parseInt(x) || 0` as `ScoreValue`.
- `brackets.dfy`: the match record, rounds and brackets, powers of two, the
  capacity, and the invariant `Consistent`. It says the bracket is shaped,
  every winner is one of its match's teams, and every filled slot holds the
  winner of the match feeding it.
- `generation.dfy`: `generateBracket`. It is written as three loop methods in
  the source's own shape, composed in `GenerateBracket`. They are proved
  equal to the specification function `Generated`, and the shape, seating
  and bye properties are proved about `Generated`.
- `advancement.dfy`: `selectWinner`, `updateScore` and the champion read, as
  functions on bracket values. Value semantics plays the part of the
  component's JSON deep copy: the old bracket is never changed. The copy is
  exact for names and winners; for scores it is exact only for finite
  numbers (see `Text.ParseInt` under "Left out").
- `layout.dfy`: the tree view's integer offset formula and column height.
- `teams.dfy`: the index filter behind `removeTeam`.
- `session.dfy`: the component's state as a class `Session`. There is one
  field per `useState`/`useRef` the engine uses, and one method per handler.
  Rendering decides when a handler can run. The setup screen (team list,
  score checkbox, generate button; lines 216-307) exists only without a
  bracket, and a winner button or score field only for a filled slot. Those
  conditions are the methods' preconditions. Every method keeps the class invariant
  `Valid()`.

The shuffle (`[...teams].sort(() => Math.random() - 0.5)`) is a parameter
`shuffled`. It is required to be a permutation of the teams
(`multiset(shuffled) == multiset(teams)`). The touch handlers take the touch
x coordinate as an integer parameter.

The first round can hold a match with no team at all: the pairing loop
(lines 61-70) pads with `null`, so five teams in a capacity of eight give
`(x, null), (null, null)` as the last two matches. Such a match keeps no
winner; `FiveTeamsLeaveEmptyMatch` and `FirstRoundKinds` state this.

## Model

| member | source | states |
|---|---|---|
| Text.Trim | src/App.jsx:24-25 | `trim` removes the leading and trailing white space; its properties are stated by `TrimBlank`, `TrimIsInfix`, `TrimEdges` and `TrimIdempotent` |
| Text.LeadingSpaces | src/App.jsx:24 | `trim` drops exactly the maximal run of white space at the start: every character before the cut is white space and the one at the cut is not |
| Text.TrailingStart | src/App.jsx:24 | `trim` drops exactly the maximal run of white space at the end: every character from the cut on is white space and the one before it is not |
| Text.TrimBlank | src/App.jsx:24 | a name trims to nothing exactly when it is all white space, which is when `addTeam` and `saveTeamEdit` refuse it |
| Text.TrimIsInfix | src/App.jsx:25 | a trimmed name is the infix of the input between its leading and its trailing white space |
| Text.TrimEdges | src/App.jsx:25 | a trimmed name neither starts nor ends with white space |
| Text.TrimIdempotent | src/App.jsx:42 | trimming a trimmed name changes nothing |
| Text.ParseInt | src/App.jsx:122 | `parseInt` with no radix: white space skipped, optional sign, `0x` selects hexadecimal, longest digit prefix, `NaN` as `None`; `ParseIntOfDecimal` and `ScoreWithoutDigits` state what it returns |
| Text.ScoreValue | src/App.jsx:122 | `parseInt(raw) \|\| 0`; `ScoreOfDecimal` and `ScoreWithoutDigits` state what it returns |
| Text.DigitPrefix | src/App.jsx:122 | `parseInt` reads the longest prefix of digits: all characters before the stop are digits, and the one at the stop is not |
| Text.NatToDecimal | src/App.jsx:400-402 | what a numeric input holds for a natural number is a non-empty digit string without a leading zero |
| Text.DecimalValue | src/App.jsx:122 | the digit string of `n` denotes `n` |
| Text.ReadDecimal | src/App.jsx:122 | reading the digits of `String(n)` back gives `n` |
| Text.ParseIntOfDecimal | src/App.jsx:122 | `parseInt(String(n)) == n` for every integer `n`, negative ones included, with `String(n)` the plain decimal form (JavaScript writes that form below 1e21) |
| Text.ScoreOfDecimal | src/App.jsx:122 | `parseInt(String(n)) \|\| 0` is `n`: a typed integer score is stored as that integer |
| Text.ScoreWithoutDigits | src/App.jsx:122 | input with no decimal digit makes `parseInt` give `NaN` (`None`), and `\|\| 0` turns it into a score of 0 |
| Brackets.CeilLog2 | src/App.jsx:58 | `ceil(log2 n)` is the least `k` with `2^k >= n` |
| Brackets.Capacity | src/App.jsx:58 | the capacity is a power of two that holds all `n` teams |
| Brackets.CapacityIsLeast | src/App.jsx:58 | no smaller power of two holds the `n` teams |
| Brackets.CapacityOfTwoOrMore | src/App.jsx:58 | from two teams on, the capacity is twice a power of two, so the first round has `capacity / 2` whole matches |
| Brackets.ShapedRoundLength | src/App.jsx:78-94 | in a shaped bracket round `k` has `2^(rounds - 1 - k)` matches |
| Generation.Slot | src/App.jsx:64-65 | `shuffled[i] \|\| null` holds a team exactly when position `i` exists and its name is non-empty, and then it is that name |
| Generation.ResolveBye | src/App.jsx:74-75 | a match with exactly one team gets that team as winner; any other match keeps its winner; teams and scores never change |
| Generation.Generated | src/App.jsx:55-97 | the bracket `generateBracket` builds from `shuffled`; `GeneratedShape`, `GeneratedFirstRound`, `GeneratedByes` and `SeatsEveryTeam` state what it is |
| Generation.PairTeams | src/App.jsx:61-70 | the pairing loop builds `size / 2` matches, match `i` seating shuffled positions `2i` and `2i + 1` (`null` past the end or for an empty name), no winner, scores 0 |
| Generation.ResolveByes | src/App.jsx:73-76 | the bye loop applies the bye rule to every match and to nothing else |
| Generation.PairUp | src/App.jsx:82-91 | the inner `for` loop builds one empty match per pair, `ceil(len / 2)` of them |
| Generation.AllocateRounds | src/App.jsx:78-94 | the `while` loop appends empty rounds of `ceil(len / 2)` matches until a round of one |
| Generation.GenerateBracket | src/App.jsx:55-97 | nothing is built exactly when there are fewer than two teams; otherwise the result is the bracket `Generated(shuffled)` |
| Generation.RoundsAfterPow2 | src/App.jsx:78-94 | below a round of `2^e` matches come exactly `e` empty rounds of `2^(e-1)`, ..., `1` matches |
| Generation.GeneratedShape | src/App.jsx:56-94 | the bracket has `ceil(log2 n)` rounds and `2^rounds` is the capacity; the first round has `capacity / 2` matches; each round is twice the next; the final has one match; every match after the first round is empty with scores 0 |
| Generation.GeneratedFirstRound | src/App.jsx:61-76 | the first round is the `capacity / 2` seeded matches in shuffled order |
| Generation.GeneratedConsistent | src/App.jsx:55-97 | a freshly generated bracket satisfies the advancement invariant |
| Generation.GeneratedByes | src/App.jsx:73-76 | a first-round match with exactly one team has that team as winner; one with two teams or none has no winner; no team is placed in the second round |
| Generation.SeedingLayout | src/App.jsx:62-68 | with non-empty names, first-round match `i` holds `shuffled[2i]` and `shuffled[2i+1]`, `null` past the end |
| Generation.FirstRoundKinds | src/App.jsx:61-76 | there is a bye exactly in match `(n - 1) / 2` when `n` is odd, always with its team in the first slot, and no `(null, team)` match at all; matches past the teams are fully empty and undecided |
| Generation.SeatsEveryTeam | src/App.jsx:59-70 | the first round seats exactly the multiset of the teams: every team in exactly one slot |
| Generation.FiveTeamsLeaveEmptyMatch | src/App.jsx:58-76 | five teams give three rounds, a bye in match 3 decided for the fifth team, and a fourth match with nobody in it |
| Advancement.SelectWinner | src/App.jsx:100-114 | the match gets winner `t`; below the final, `t` goes into `team1` of match `m / 2` of the next round for even `m` and `team2` for odd `m`; every other match and every length is unchanged |
| Advancement.SelectKeepsConsistent | src/App.jsx:100-114 | selecting an offered team of an undecided match keeps the bracket consistent |
| Advancement.SelectKeepsWinners | src/App.jsx:100-114 | after a selection every winner is still one of its match's teams |
| Advancement.SelectKeepsFed | src/App.jsx:100-114 | after a selection every filled slot still holds the winner of the match feeding it |
| Advancement.SelectOnlyFills | src/App.jsx:100-113 | in a consistent bracket a selection overwrites no filled slot, no decided winner and no score |
| Advancement.DecidedMatchIsFrozen | src/App.jsx:376 | with the `!match.winner` guard, no later selection changes a decided match's winner or the slot it feeds |
| Advancement.ThreeTeamsStrandBye | src/App.jsx:73-76 | with teams `x, y, z` the bye `(z, -)` is decided for `z`, but the final is empty and the slot `z` should fill is `null` |
| Advancement.AdvanceByes | src/App.jsx:73-76 | the corrected bye rule changes only the second round and keeps every length |
| Advancement.FillFromFeedersPlacesWinners | src/App.jsx:73-76 | filling a round's empty slots from its feeders keeps it fed, keeps its winners, and puts every decided feeder's winner in its slot |
| Advancement.AdvanceByesPlacesWinners | src/App.jsx:73-76 | with the corrected rule the bracket stays consistent and every decided first-round match, bye included, has its winner in the slot it feeds |
| Advancement.ThreeTeamsAdvanceBye | src/App.jsx:73-76 | with the corrected rule the bye team `z` of `x, y, z` is in the final |
| Advancement.UpdateScore | src/App.jsx:117-128 | `score1` takes the parsed value when `t` is `team1`, `score2` otherwise; teams, winner, the other score and every other match are unchanged |
| Advancement.UpdateScoreKeepsConsistent | src/App.jsx:117-128 | a score update keeps the bracket consistent |
| Advancement.ConsistentIgnoresScores | src/App.jsx:117-128 | consistency depends only on teams and winners, never on scores |
| Advancement.TypedScoreIsStored | src/App.jsx:121-125 | a typed integer lands on `t`'s side; when both slots hold the same name it lands in `score1` |
| Advancement.UnparsableScoreIsZero | src/App.jsx:122-125 | input with no digit stores a score of 0 on the side `t` selects |
| Brackets.Champion | src/App.jsx:485 | the champion is the winner of the final's single match; `ChampionWonEveryRound` states that it won a match in every round |
| Advancement.WinnerTracesBack | src/App.jsx:100-113 | a winner in round `r` of a consistent bracket won a match in every earlier round |
| Advancement.ChampionWonEveryRound | src/App.jsx:485-491 | the champion won a match in every round |
| Advancement.FourTeamTournament | src/App.jsx:55-113 | four teams give `(a, b), (c, d)` and an empty final; choosing `a` and `c` fills the final, and choosing `a` there makes `a` champion |
| Layout.TopOffset | src/App.jsx:517 | the offset is a whole number: twice it plus one unit is `(2m + 1) * 2^r` units, the centre of the match's span |
| Layout.OffsetIsMidpointOfFeeders | src/App.jsx:517 | a round-`r+1` match sits exactly halfway between its feeders `2m` and `2m + 1` |
| Layout.OffsetsAreSpaced | src/App.jsx:517 | neighbouring matches of round `r` are `2^r` units apart, so boxes of height 100 never overlap |
| Layout.MatchFitsColumn | src/App.jsx:572 | every match box of a round lies inside the round's column |
| Layout.ColumnHeight | src/App.jsx:572 | the column height of a round; `MatchFitsColumn` and `ColumnsAreEquallyTall` state what it bounds |
| Layout.ColumnsAreEquallyTall | src/App.jsx:572 | in a shaped bracket every round's column is as tall as the first's |
| Teams.Without | src/App.jsx:30-32 | the filter drops exactly position `idx` and keeps the rest in order; an index outside the list removes nothing |
| Sessions.SwipeTarget | src/App.jsx:144-157 | the round moves forward exactly for a leftward swipe longer than 50 with a round ahead, back exactly for a rightward one with a round behind, otherwise not at all, and stays in range |
| Sessions.Session.constructor | src/App.jsx:6-20 | the initial state: four default teams, no bracket, round 0, scoring off, no edit, touches at 0 |
| Sessions.Session.TypeNewTeam | src/App.jsx:225 | the name input holds what was typed |
| Sessions.Session.AddTeam | src/App.jsx:23-28 | a non-blank name is appended trimmed and the input cleared; a blank one changes nothing |
| Sessions.Session.RemoveTeam | src/App.jsx:30-32 | exactly position `idx` leaves the list, the rest keep their order |
| Sessions.Session.StartEditingTeam | src/App.jsx:34-37 | the edit is of team `idx` and starts from its current name |
| Sessions.Session.TypeTeamEdit | src/App.jsx:263 | the edit field holds what was typed |
| Sessions.Session.SaveTeamEdit | src/App.jsx:39-47 | only the edited position changes, and only to a non-blank trimmed name; the edit ends either way |
| Sessions.Session.CancelTeamEdit | src/App.jsx:49-52 | the edit ends with the list unchanged |
| Sessions.Session.SetUseScoring | src/App.jsx:244 | the checkbox sets score tracking |
| Sessions.Session.GenerateBracket | src/App.jsx:55-97 | with fewer than two teams there is still no bracket; otherwise the bracket is `Generated(shuffled)` and the session stays valid |
| Sessions.Session.Reset | src/App.jsx:130-133 | the bracket is dropped and the view returns to round 0 |
| Sessions.Session.PreviousRound | src/App.jsx:339 | the round goes down by one, but not below 0 |
| Sessions.Session.NextRound | src/App.jsx:356 | the round goes up by one, but not past the final |
| Sessions.Session.TouchStart | src/App.jsx:136-138 | the start x of the touch is recorded |
| Sessions.Session.TouchMove | src/App.jsx:140-142 | the latest x of the touch is recorded |
| Sessions.Session.TouchEnd | src/App.jsx:144-157 | without a bracket nothing moves; with one, the round becomes the swipe target, which stays within the bracket |
| Sessions.Session.PickWinner | src/App.jsx:376 | an undecided match's shown team becomes its winner by `selectWinner`, keeping the session valid; a decided match is left alone |
| Sessions.Session.EnterScore | src/App.jsx:402 | with scoring on, the score field of a shown team stores its value by `updateScore` and keeps the session valid |
| Sessions.Session.ChampionShown | src/App.jsx:485-491 | the banner shows the final's winner, and a champion shown won a match in every round |

## Left out

- Rendering, CSS classes, the dark-mode toggle and its `classList` effect (lines 160-166), the tournament-name editor and the round/tree view switch: they hold no engine logic.
- The shuffle's `Math.random` comparator and its bias: the model takes any permutation of the teams as input.
- `Math.log2` and `Math.pow` on floating point: capacity and `2^r` are exact integer powers of two (`CeilLog2`, `Pow2`).
- Text.ParseInt: scores are unbounded integers standing in for JavaScript numbers (doubles), which has three effects the model does not show. Digit strings longer than 53 bits of precision parse exactly here, where `parseInt` rounds them. From 1e21 on, `String(n)` writes exponent form such as `"1e+21"`, which is what the score field shows (`value={match.score1}`, line 401), so `ParseIntOfDecimal` and `ScoreOfDecimal` hold in JavaScript only below 1e21. An input of about 309 or more digits makes `parseInt` return `Infinity`, which `|| 0` keeps, and the next deep copy (`JSON.stringify`, line 101 or 118) stores it as `null`.
- Text.IsSpace: there is no Unicode general-category table beyond the characters listed, which are ECMAScript's white space and line terminators as of the current standard.
- Browser touch events: `e.touches[0].clientX` is a parameter of `TouchStart` and `TouchMove`.
- The `onKeyPress` (Enter and Escape) bindings and the `onBlur` of the edit field only choose which handler runs; the handlers themselves are modelled.
- Sessions.Session.RemoveTeam: it requires that no edit is in progress. While row `k` is being edited, every other row still shows its delete button (lines 258-292). The exclusion assumes that the browser blurs the edit field before the click, so that its `onBlur` (line 268) saves and ends the edit; the component does not enforce that order. If a delete did run during an edit, the remembered index would stay as it was while the list shrank. Rows are keyed by index (line 257), so the edit field would move to the team that shifts into position `k`, and the next save (lines 41-42) would overwrite that team: with `[A, B, C]`, editing `B` and deleting `A` gives `[B, B]` after the save, and `C` is lost. Once the index reaches the length, the edit field is gone and the edit stays pending: only row `editingTeamIdx` renders the field (line 258), and only that field calls the save (lines 265, 268). A team added later at that index opens in edit mode with the old value, and its save overwrites that team. The model covers none of these cases.
- Sessions.Session.GenerateBracket: it requires that no bracket exists, since the generate button is on the setup screen shown only then (line 301).
- Sessions.Session.GenerateBracket: it uses the as-written bye rule, to stay faithful to the component. The corrected rule is `Advancement.AdvanceByes`.

## Findings

| source | as written | input that shows it | evidently intended | confidence | as-written member | corrected member |
|---|---|---|---|---|---|---|
| src/App.jsx:73-76 | a bye match is given its lone team as winner, but that team is never written into the next round, and the `!match.winner` guard (lines 376, 406, 432, 462) then stops anyone from selecting it | teams `x, y, z`: round 1 is `(x, y)` and `(z, -)` with winner `z`, and the final stays `(-, -)`; after `x` beats `y` the final is `(x, -)`, and `z` can never enter it | a decided bye moves its winner into the slot it feeds, exactly as `selectWinner` does for a played match | not executed | Advancement.ThreeTeamsStrandBye | Advancement.AdvanceByesPlacesWinners |
