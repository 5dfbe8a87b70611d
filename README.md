# Tournament bookkeeping, modelled in Dafny

This project models the bookkeeping rules of a football tournament manager. Teams are placed in groups, and each group plays a double round robin. Results update the group standings. The two best teams of each group go into an eight-team knockout bracket, and winners move from the quarter-finals to the semi-finals and on to the final.

The model covers the following parts of the application:

- **Fixture generator:** `generateDoubleRoundRobin` uses the circle method with nested loops. The model also covers the per-group map of fixtures, the number of matchdays offered, and the fixtures of one matchday.
- **Tournament page:** adding, removing and renaming teams. Renaming also updates the team's name in the fixtures. The page also submits a group score, recomputes a team's record from its matches (`calculateTeamStats`), picks the qualifiers, draws the knockout bracket, and passes knockout winners on.
- **Local page (`Index`):** the same handlers with no validation at all.
- **Tournament store (`useTournament`):** the in-memory part of `addTeam`, `removeTeam`, `editTeam` and `submitScore`. `submitScore` updates its copied records field by field.
- **Administrator panel:** the rename dialog, the add-team form and the score form. The panel is a class whose fields are the form state.
- **Bracket view:** its sections by round, the score inputs per match, the submit guard, and the condition under which score entry is shown.
- **Group table:** it sorts the group's team array in place into standings order: points first, then goal difference, and the sort is stable.
- **Public views:** the qualifiers, fixtures bucketed by group, the largest matchday, a team's name by id, per-team match counts and their badge, win/draw/loss badges, and newest-first match lists.
- **Initial data:** a fresh team record, the generated initial groups, and the default group list.

How the source's forms map to Dafny:

- Pure pipelines (`map`, `filter`, `flatMap`, a sort on a copy) become functions, with lemmas about them.
- Loops that update counters or push onto arrays become methods with loop invariants. Each is proved equal to a specification function: the round robin, `calculateTeamStats`, `createInitialGroups`, the fixture buckets and the largest matchday.
- The in-place sort works on an `array`.
- The knockout matches are objects (`TournamentTypes.KnockoutMatch`), because `handleKnockoutScore` writes winners into match objects shared with the previous array.
- The panel's and the bracket view's form states are classes.
- Identifiers and timestamps (`Date.now()`, `crypto.randomUUID()`, `new Date()`) are parameters.
- `Number` and `parseInt` are a parameter of type `string -> Option<int>`, where `None` stands for NaN.

The model proves three properties of the round robin:

- With an even roster, every pair of teams meets exactly once per round, with home and away swapped in the second round, and no team plays twice on a matchday.
- With an odd roster no bye is inserted, so pairs of positions below `n - 1` whose difference is odd never meet.
- With three teams, the first two are never scheduled against each other. Groups are capped at four teams, so a group of three is reachable.

The store's `submitScore` adds points to whatever the record held, while both pages recompute points from the counts. The model proves that the two agree on every record whose points and goal difference are consistent. On an inconsistent record the store keeps the existing offset.

The store copies the two records it updates through `JSON.parse(JSON.stringify(...))` before `played++`. JSON writes a not-a-number as `null`, and `null++` gives 1. A team made by the tournament page's `createTeam` has no `played` field, so its first result writes not-a-number and its second writes 1. The model proves that such a team's `played` stays one behind the number of results the store has credited.

## Model

| member | source | states |
|---|---|---|
| RoundRobin.ScheduleSize | src/components/FixtureGenerator.tsx:28-36 | fewer than two teams give no fixtures; otherwise 2·(n−1)·⌊n/2⌋ fixtures, which is n·(n−1) for an even roster |
| RoundRobin.EntryWellFormed | src/components/FixtureGenerator.tsx:37-56 | every fixture pairs two distinct positions of the roster; the k-th fixture is on matchday k/⌊n/2⌋+1; round-1 matchdays lie in 1..n−1 and round-2 matchdays in n..2(n−1), so the rounds never overlap |
| RoundRobin.SlotValid | src/components/FixtureGenerator.tsx:37-42 | home and away positions are valid and distinct, and the last position plays exactly in slot 0 |
| RoundRobin.SecondRoundMirrorsFirst | src/components/FixtureGenerator.tsx:44-53 | fixture k + (fixtures per round) is fixture k with home and away swapped, round 2, and matchday moved on by n−1 |
| RoundRobin.NoDoubleBooking | src/components/FixtureGenerator.tsx:35-42 | for every roster size, two different fixtures on the same matchday share no position |
| RoundRobin.EvenMatchdayCoversEveryTeam | src/components/FixtureGenerator.tsx:35-42 | with an even roster, every position plays on every matchday of both rounds |
| RoundRobin.EvenRoundCoversEveryPair | src/components/FixtureGenerator.tsx:35-42 | with an even roster, every two distinct positions meet in round 1 |
| RoundRobin.EvenRoundMeetsOnce | src/components/FixtureGenerator.tsx:35-42 | with an even roster, two round-1 fixtures between the same pair are the same fixture |
| RoundRobin.EvenDoubleRoundRobin | src/components/FixtureGenerator.tsx:35-53 | with an even roster, each pair meets exactly twice: once in round 1 and once in round 2 with home and away reversed |
| RoundRobin.OddRosterSkipsOddDifferences | src/components/FixtureGenerator.tsx:35-42 | with an odd roster, two positions below n−1 whose difference is odd never meet |
| RoundRobin.ThreeTeamsNeverPairFirstTwo | src/components/FixtureGenerator.tsx:35-42 | three teams give four fixtures, none of them between positions 0 and 1 |
| FixtureGenerator.PushedFixture | src/components/FixtureGenerator.tsx:49-54 | the fixture pushed for day i, slot j of a round is teams[home] against teams[away] on matchday i+1+(round−1)(n−1), at the position the schedule gives it |
| FixtureGenerator.GenerateDoubleRoundRobin | src/components/FixtureGenerator.tsx:24-61 | the nested loops push exactly the named double round robin of the roster |
| FixtureGenerator.GeneratedSize | src/components/FixtureGenerator.tsx:28-36 | the generator's output size: empty below two teams, 2·(n−1)·⌊n/2⌋ otherwise, n·(n−1) for an even roster |
| FixtureGenerator.GeneratedFixtureWellFormed | src/components/FixtureGenerator.tsx:37-56 | each fixture names two roster members, which differ when names are distinct; its round is 1 or 2 and its matchday lies within that round's range |
| FixtureGenerator.GeneratedEvenDoubleRoundRobin | src/components/FixtureGenerator.tsx:35-53 | distinct names and an even roster: every two teams meet in exactly two fixtures, the second mirroring the first |
| FixtureGenerator.GeneratedNoDoubleBooking | src/components/FixtureGenerator.tsx:35-42 | distinct names: no team is in two fixtures of one matchday |
| FixtureGenerator.GeneratedThreeTeamsMissFirstPair | src/components/FixtureGenerator.tsx:35-42 | a group of three gets four fixtures and the first two teams never play each other |
| FixtureGenerator.AllFixtures | src/components/FixtureGenerator.tsx:63-74 | the loop over the groups builds the specified map of schedules |
| FixtureGenerator.FixturesByGroupEntries | src/components/FixtureGenerator.tsx:66-71 | a group id has an entry iff some group with that id has at least two teams; the entry is the schedule of the last such group |
| FixtureGenerator.FixturesByGroupSource | src/components/FixtureGenerator.tsx:66-71 | every entry is the double round robin of some group with at least two teams |
| FixtureGenerator.LargestGroup | src/components/FixtureGenerator.tsx:77 | the largest group size: absent only for no groups, attained by some group, and at least every group's size |
| FixtureGenerator.GeneratedMatchdaysOffered | src/components/FixtureGenerator.tsx:76-79 | every generated fixture's matchday lies between 1 and the offered number of matchdays |
| FixtureGenerator.FixturesForMatchday | src/components/FixtureGenerator.tsx:81-83 | an unknown group gets no fixtures; otherwise a fixture is listed iff it is in the group's entry and on that matchday, and as often as it occurs there |
| InitialTournamentData.CreateTeam | src/data/initialTournamentData.ts:3-13 | the new team has the given id and name, all seven statistics zero, a missing played field, and consistent points and goal difference |
| InitialTournamentData.GroupId | src/data/initialTournamentData.ts:21 | the i-th id is "group-" followed by the character with code 97+i |
| InitialTournamentData.CreateInitialGroups | src/data/initialTournamentData.ts:15-28 | the loop makes exactly k groups (none for negative k), each empty and carrying the i-th id |
| InitialTournamentData.GroupIdsDistinct | src/data/initialTournamentData.ts:21 | different indices give different group ids |
| InitialTournamentData.InitialGroupsShape | src/data/initialTournamentData.ts:15-28 | the groups made have distinct ids and no teams; the first four take their names from the list, and later ones have none |
| InitialTournamentData.InitialGroupsAreFourCreated | src/data/initialTournamentData.ts:30-51 | the default group list is exactly what creating four groups gives |
| TeamStats.CalculateTeamStats | src/pages/TournamentPage.tsx:42-71 | the two counting loops return the record that replaying the team's home results, then its away results, onto its cleared record produces |
| TeamStats.RecalculatedIsReplay | src/pages/TournamentPage.tsx:45-59 | counting the matches equals submitting them one by one to a team with every counter cleared |
| TeamStats.ReplayCounts | src/pages/TournamentPage.tsx:45-59 | each replayed result adds one decided match, keeps id, name and played, and keeps points and goal difference consistent |
| TeamStats.RecalculatedRecord | src/pages/Index.tsx:12-43 | wins + draws + losses is the number of matches passed; points = 3·wins + draws and GD = GF − GA; id, name and played are copied |
| Standings.OutcomeOf | src/pages/TournamentPage.tsx:195-197 | a side wins iff it scored more, draws iff equal, loses iff it scored less |
| Standings.OutcomesMirror | src/pages/TournamentPage.tsx:218-220 | a win for one side is a loss for the other, and a draw is a draw for both |
| Standings.RecordResult | src/pages/TournamentPage.tsx:188-208 | the goals are added; exactly one of win, draw and loss goes up, matching the outcome; points and goal difference are consistent afterwards; id, name and played are kept |
| Standings.ApplyScoreEffect | src/pages/TournamentPage.tsx:185-240 | only the scored group changes; in it only the home and away teams change, each by its own side of the result; ids, names and sizes are kept |
| Standings.ScoreCrosswise | src/pages/TournamentPage.tsx:189-213 | the home goals-for increase equals the away goals-against increase and vice versa; a home win is an away loss, and a draw is a draw for both |
| Standings.SameIdGetsHomeUpdate | src/pages/Index.tsx:83-106 | when home and away ids coincide, the team gets only the home update, which adds one decided match |
| TournamentPage.AddTeam | src/pages/TournamentPage.tsx:73-117 | rejected iff the group is missing, or holds four teams, or a team anywhere has the name up to case, with the first of these reasons; otherwise a fresh team is appended to the group |
| TournamentPage.AddTeamAccepted | src/pages/TournamentPage.tsx:108-114 | an accepted addition adds exactly one zero-stat team, at the end of the target group, keeps the group within four teams and leaves every other group alone |
| TournamentPage.RemoveTeam | src/pages/TournamentPage.tsx:119-128 | other groups are unchanged and ids and names of groups are kept; the target group keeps no team with the id and every other team as often as it was there |
| TournamentPage.RemoveTeamKeepsOrder | src/pages/TournamentPage.tsx:122 | the kept teams stay in their order: removing from a front and a back part gives the front's remainder followed by the back's |
| Roster.Without | src/pages/Index.tsx:58 | every team with the id is dropped and every other team is kept as often as it occurs |
| Roster.WithoutKeepsOrder | src/pages/Index.tsx:58 | removing from a list split in two is removing from each part, in the same order |
| Roster.RemoveFromGroupEffect | src/pages/Index.tsx:55-63 | a group with the id loses exactly its teams with that id and keeps every other team; other groups are unchanged |
| Roster.RemoveUndoesAdd | src/pages/Index.tsx:45-63 | removing a just-added team whose id was new gives back the original groups |
| TournamentPage.CurrentName | src/pages/TournamentPage.tsx:131-132 | the old name is known iff the group exists and holds the team |
| TournamentPage.RenameInFixturesEffect | src/pages/TournamentPage.tsx:162-169 | matchday, round and group are kept; no fixture names the old team any more; untouched fixtures are unchanged; renaming back restores fixtures that did not already name the new team |
| TournamentPage.EditTeam | src/pages/TournamentPage.tsx:130-170 | rejected iff another team (by id) anywhere has the new name up to case; otherwise the team is renamed in its group, and the fixtures are renamed only when the old name was found and non-empty |
| TournamentPage.EditTeamAccepted | src/pages/TournamentPage.tsx:134-146 | after an accepted rename no team of another id shares the new name up to case |
| TournamentPage.SubmitScore | src/pages/TournamentPage.tsx:172-242 | exactly one match is appended, carrying the submitted values, and the groups are updated by the score rule |
| Roster.FindGroup | src/pages/TournamentPage.tsx:74 | the index of the first group with the id, or none iff no group has it |
| Roster.FindTeam | src/hooks/useTournament.ts:213 | the index of the first team with the id, or none iff no team has it |
| Roster.AddToGroupEffect | src/pages/Index.tsx:45-53 | each group with the id gets the team appended after its existing teams; other groups are unchanged |
| Roster.AddToGroupCount | src/pages/Index.tsx:45-53 | the tournament gains one team per group carrying the id |
| Roster.RenameEffect | src/pages/Index.tsx:65-77 | only names change, and exactly the teams with the id in the group with the id take the new name; sizes and order are kept |
| Roster.RenameTwice | src/pages/TournamentPage.tsx:148-158 | a second rename of the same team overrides the first |
| Text.ToLower | src/pages/TournamentPage.tsx:96 | lower-casing keeps the length, leaves no capital letter, turns each capital into its own small letter and keeps every other character |
| Text.SameIgnoringCaseOfLetters | src/pages/TournamentPage.tsx:96 | names that differ only in letter case compare equal |
| Text.Trim | src/components/AdminPanel.tsx:76 | the trimmed text is a slice of the input with only white space cut on either side, and it neither starts nor ends with white space |
| Text.TrimEmptyIffBlank | src/components/AdminPanel.tsx:76 | a text trims to empty iff it is all white space |
| Text.TrimIdempotent | src/components/AdminPanel.tsx:84 | trimming twice is trimming once |
| Ranking.CompareSign | src/components/GroupTable.tsx:27 | the comparator is negative iff the first team ranks above (more points, or equal points and better goal difference), positive iff the second does, and zero iff they tie |
| Ranking.NotAboveTransitive | src/components/GroupTable.tsx:27 | "ranks no better than" is transitive |
| Ranking.StandingsSorted | src/components/GroupTable.tsx:26-27 | the standings are ordered by points, then goal difference |
| Ranking.StandingsPermutes | src/components/GroupTable.tsx:26-28 | the standings hold exactly the group's teams, each as often |
| Ranking.StandingsStable | src/components/GroupTable.tsx:27 | teams that tie keep their previous relative order |
| Ranking.StandingsOfSorted | src/components/GroupTable.tsx:27 | an already ordered list is left as it is |
| GroupTable.SortStandings | src/components/GroupTable.tsx:26-27 | the group's array is reordered in place into exactly the standings of its old contents |
| Ranking.TopTwo | src/pages/PublicTournamentView.tsx:34-37 | a group gives min(2, size) qualifiers |
| Ranking.TopTwoChosen | src/pages/TournamentPage.tsx:246-249 | qualifiers and non-qualifiers together are the group's teams; no non-qualifier ranks above a qualifier; the first qualifier is not below the second |
| Ranking.QualifiersByGroup | src/pages/PublicTournamentView.tsx:33 | each group contributes min(2, size) qualifiers, concatenated in group order |
| Ranking.QualifiedIds | src/pages/PublicTournamentView.tsx:33-38 | one id per qualifier: the i-th id is the i-th qualifier's |
| Ranking.QualifierSeeds | src/pages/TournamentPage.tsx:255-265 | with every group holding two or more teams there are two qualifiers per group, and seeds 2g and 2g+1 are group g's first and second |
| Knockout.KnockoutTabOpensOnDraw | src/pages/PublicTournamentView.tsx:40 | the knockout tab is enabled exactly when the draw succeeded: a drawn bracket has matches and an empty list has none |
| Knockout.GenerateKnockoutBracket | src/pages/TournamentPage.tsx:255-301 | refused iff the qualifiers are not exactly twice the number of groups; otherwise seven matches with unset scores and the ids q1..q4, s1, s2, f1: quarter-finals numbered 1 to 4, semi-finals numbered 1 and 2 and a final numbered 1, the later ones with empty names |
| Knockout.ScoringKeepsLayout | src/pages/TournamentPage.tsx:304-309 | scoring a drawn bracket keeps its seven ids in order |
| Knockout.QuarterWinnerAdvances | src/pages/TournamentPage.tsx:317-328 | in a drawn bracket, the winner of quarter-final k is written into semi-final (k+1)/2, in the home slot for odd k and the away slot for even k |
| Knockout.SemiWinnerAdvances | src/pages/TournamentPage.tsx:329-338 | in a drawn bracket, the winner of semi-final 1 is written into the final's home slot and the winner of semi-final 2 into its away slot |
| Knockout.BracketSeeding | src/pages/TournamentPage.tsx:276-281 | four groups of two or more teams are drawn as A1 v C2, B1 v D2, C1 v B2, D1 v A2 |
| Knockout.BracketNeedsFullGroups | src/pages/TournamentPage.tsx:267-274 | a group with fewer than two teams makes the draw be refused |
| Knockout.FindEntry | src/pages/TournamentPage.tsx:311 | the index of the first match with the id, or none iff no match has it |
| Knockout.Winner | src/pages/TournamentPage.tsx:313-315 | the home team goes through iff it scored more, so a draw sends the away team through |
| Knockout.RoutingTable | src/pages/TournamentPage.tsx:317-340 | quarter-finals 1 and 2 feed s1 and 3 and 4 feed s2, odd numbers into the home slot; s1 feeds the final's home slot, any other semi-final its away slot; a final routes nowhere |
| Knockout.UnparsedQuarterGoesToSecondSemiAway | src/pages/TournamentPage.tsx:318-327 | a quarter-final number that is not a number sends the winner to the away slot of s2 |
| Knockout.ScoreBracketEffect | src/pages/TournamentPage.tsx:303-344 | only matches with the id get scores, exactly the submitted ones; ids, rounds and numbers are kept; names change only in the one slot of the match the route names |
| Knockout.PlaceEffect | src/pages/TournamentPage.tsx:322-338 | placing a winner changes one slot of the first match with the target id and nothing else |
| Knockout.SameIdsAfterScores | src/pages/TournamentPage.tsx:304-311 | setting scores keeps ids, so every lookup finds the same match |
| Knockout.WinnerIsPlaced | src/pages/TournamentPage.tsx:311-340 | the winner of the scored match is written into the slot the route names |
| Knockout.FindMatch | src/pages/TournamentPage.tsx:311 | the search over the match objects returns the specified first index |
| Knockout.WithScores | src/pages/TournamentPage.tsx:304-309 | matches with the id become new objects holding the scores, the others are the same objects, and the values are those of setting the scores |
| Knockout.PlaceWinner | src/pages/TournamentPage.tsx:322-338 | writing the winner into a match object changes exactly that slot of that match |
| Knockout.PropagateWinner | src/pages/TournamentPage.tsx:311-341 | the in-place propagation leaves the matches holding the specified propagated values |
| Knockout.HandleKnockoutScore | src/pages/TournamentPage.tsx:303-344 | unscored matches keep their objects, scored ones are fresh while their old objects keep their values, and the resulting values are the specified scoring of the old values |
| TournamentTypes.KnockoutMatch.constructor | src/pages/TournamentPage.tsx:276-296 | a knockout match holds the given id, names, scores, round and number |
| KnockoutBracket.FinalMatch | src/components/KnockoutBracket.tsx:17 | the first match of round final: absent iff there is none |
| KnockoutBracket.DrawnBracketSections | src/components/KnockoutBracket.tsx:15-17 | for a drawn bracket the quarter-finals, semi-finals and final sections are matches 1-4, 5-6 and 7 |
| KnockoutBracket.SectionsOfLayout | src/components/KnockoutBracket.tsx:15-17 | any seven matches laid out by round split into those three sections |
| KnockoutBracket.DrawnBracketOffers | src/components/KnockoutBracket.tsx:48 | a fresh bracket offers score entry exactly for the quarter-finals with both teams named |
| KnockoutBracket.RecordedNotOffered | src/components/KnockoutBracket.tsx:48 | a match whose result was recorded no longer offers entry |
| KnockoutBracket.Shown | src/components/KnockoutBracket.tsx:53 | a match with no inputs shows two empty fields |
| KnockoutBracket.ParsedScores | src/components/KnockoutBracket.tsx:19-26 | scores are submitted iff the match has both inputs and both parse, and they are the parsed values |
| KnockoutBracket.ClearedInputsDoNotSubmit | src/components/KnockoutBracket.tsx:29 | after a submission clears the inputs, they show empty and a second submission does nothing |
| KnockoutBracket.ScoreForm.constructor | src/components/KnockoutBracket.tsx:13 | the inputs start empty |
| KnockoutBracket.ScoreForm.SetHome | src/components/KnockoutBracket.tsx:54-57 | typing sets the home input of that match and keeps its away input |
| KnockoutBracket.ScoreForm.SetAway | src/components/KnockoutBracket.tsx:63-66 | typing sets the away input of that match and keeps its home input |
| KnockoutBracket.ScoreForm.HandleSubmitScore | src/components/KnockoutBracket.tsx:19-30 | the update is called with the parsed scores exactly when both parse, and only then is that match's entry cleared; otherwise nothing changes |
| AdminPanel.SavedName | src/components/AdminPanel.tsx:75-86 | a refused save is an empty-name error; a saved team differs from the edited one only in its name |
| AdminPanel.SavedNameAccepts | src/components/AdminPanel.tsx:76-84 | the dialog refuses exactly the all-white-space names and otherwise saves the trimmed name, which is non-empty and already trimmed |
| AdminPanel.AddTeamRequest | src/components/AdminPanel.tsx:145-171 | missing fields iff the name is blank or no group is chosen; already in the group iff the chosen group has the trimmed name up to case; otherwise the request carries the group and the trimmed name |
| AdminPanel.PanelCheckWithinPageCheck | src/components/AdminPanel.tsx:155-160 | a name the panel refuses as a duplicate is also taken in the page's tournament-wide sense |
| AdminPanel.ScoreRequestOf | src/components/AdminPanel.tsx:184-216 | missing fields iff any input is empty; same teams iff all are filled and the ids coincide; accepted iff all filled, distinct and both scores are numbers, carrying the parsed scores |
| AdminPanel.GroupChangeNeedsTeams | src/components/AdminPanel.tsx:371-377 | after the group changes, the form cannot be submitted until both teams are chosen again |
| AdminPanel.EmptyEntryRefused | src/components/AdminPanel.tsx:217-223 | the emptied score form is refused for missing fields |
| AdminPanel.Panel.constructor | src/components/AdminPanel.tsx:133-142 | the forms start empty and no team is being edited |
| AdminPanel.Panel.HandleAddTeam | src/components/AdminPanel.tsx:145-177 | the request is the validated one; the two inputs are cleared iff it was accepted and the page's handler reported success; nothing else changes |
| AdminPanel.Panel.StartEdit | src/components/AdminPanel.tsx:328-332 | the dialog opens on the team showing its name; the forms are kept |
| AdminPanel.Panel.SaveEdit | src/components/AdminPanel.tsx:75-86 | the save request is the dialog's check of its name; a refused save keeps the dialog open, an accepted one closes it |
| AdminPanel.Panel.SelectScoreGroup | src/components/AdminPanel.tsx:371-377 | choosing the group clears both team choices and keeps the score strings |
| AdminPanel.Panel.HandleSubmitScore | src/components/AdminPanel.tsx:184-225 | the request is the validated one; an accepted request empties the form, and a refused one leaves it |
| TournamentStore.JsonPlayed | src/hooks/useTournament.ts:272-273 | the JSON copy turns a not-a-number into null and keeps every other played value |
| TournamentStore.JsonCopy | src/hooks/useTournament.ts:272-273 | the JSON copy changes nothing but played, and played as JsonPlayed says |
| TournamentStore.PlusPlus | src/hooks/useTournament.ts:279-280 | a number goes up by one, null gives 1, and a missing field or not-a-number gives not-a-number |
| TournamentStore.Inc | src/hooks/useTournament.ts:272-280 | what the store writes for played: a number plus one, 1 for a stored not-a-number or null, and not-a-number for a missing field |
| TournamentStore.CountedTimes | src/hooks/useTournament.ts:272-280 | a numeric played count rises by exactly the number of results credited |
| TournamentStore.MissingCountLagsByOne | src/hooks/useTournament.ts:272-280 | a team made without played is not-a-number after one result and k−1 after k ≥ 2 results |
| TournamentStore.NewTeam | src/hooks/useTournament.ts:171-183 | the new team has the given id and name and every count zero, played included |
| TournamentStore.AddTeam | src/hooks/useTournament.ts:161-206 | refused iff there is no tournament, or the group has the name up to case, or the group is missing, in that order; otherwise the zero-stat team is appended to the group |
| TournamentStore.AddTeamAdds | src/hooks/useTournament.ts:171-191 | an accepted addition appends exactly the new team after the group's teams, adds one team to the tournament, and no team of the group had the name up to case |
| TournamentStore.RemoveTeam | src/hooks/useTournament.ts:208-231 | refused iff there is no tournament, or the team is not in the group as held locally |
| TournamentStore.RemoveByRecordIsById | src/hooks/useTournament.ts:211-225 | with distinct ids, removing the found record equals removing the team by id |
| TournamentStore.EditTeam | src/hooks/useTournament.ts:233-254 | refused iff there is no tournament or the group is missing; otherwise only the team with the id is renamed, in order |
| TournamentStore.Credited | src/hooks/useTournament.ts:272-301 | one side's update: played as Inc gives it, goals added, GD = GF − GA, one more decided match, points raised by 3 per win and 1 per draw added |
| TournamentStore.CreditedAgreesWithRecord | src/hooks/useTournament.ts:288-301 | on a consistent record the store's update equals the pages' recomputation apart from played, and stays consistent |
| TournamentStore.CreditedKeepsOffset | src/hooks/useTournament.ts:288-301 | on an inconsistent record, points stay off 3·wins + draws by the same amount |
| TournamentStore.UpdateStats | src/hooks/useTournament.ts:272-301 | the JSON copies of the two found records, updated field by field, give each side's specified update |
| TournamentStore.ReplaceTeams | src/hooks/useTournament.ts:304-306 | only the home and away entries are replaced, the home test first, and order is kept |
| TournamentStore.SubmitScore | src/hooks/useTournament.ts:256-330 | refused iff there is no tournament, the group is missing, or either team is missing from it; otherwise the groups and the match log are written as specified |
| TournamentStore.StoreScore | src/hooks/useTournament.ts:303-322 | other groups are unchanged, and the match log holds the submitted values |
| TournamentStore.StoreScoreAgreesWithPage | src/hooks/useTournament.ts:272-306 | with distinct ids and consistent records, each team of the scored group ends as on the pages apart from played, which the two sides get from Inc; other teams are unchanged |
| IndexPage.TeamIdsDistinct | src/pages/Index.tsx:48 | an id gives back the clock reading after its "team-" prefix, so different readings give different ids |
| IndexPage.AddTeam | src/pages/Index.tsx:45-53 | no group is added or dropped and ids and names of groups are kept |
| IndexPage.AddsWhatThePageRefuses | src/pages/Index.tsx:45-53 | a request the tournament page refuses for a full group or a taken name still adds one team here |
| IndexPage.AddToUnknownGroup | src/pages/Index.tsx:45-53 | with no group of that id nothing changes |
| PublicFixturesView.GroupFixtures | src/components/PublicFixturesView.tsx:14-25 | the loop builds one bucket per group id present, each holding that group's fixtures in order |
| PublicFixturesView.BucketsPartition | src/components/PublicFixturesView.tsx:17-22 | each fixture is in its own group's bucket exactly as often as in the input and in no other bucket |
| PublicFixturesView.BucketsHoldEveryFixture | src/components/PublicFixturesView.tsx:17-22 | every fixture is in its group's bucket, and there are no buckets iff there are no fixtures |
| PublicFixturesView.MaxIn | src/components/PublicFixturesView.tsx:30-32 | the running maximum is at least the start value and every matchday seen, and is one of them or the start |
| PublicFixturesView.MaxMatchday | src/components/PublicFixturesView.tsx:27-35 | the result is at least 0 and every bucketed matchday, and is 0 or one of those matchdays |
| PublicFixturesView.MatchdayFixtures | src/components/PublicFixturesView.tsx:37-39 | a matchday's fixtures are exactly the group's fixtures on that day, in order; none for an unknown group |
| MatchTracker.TeamName | src/components/MatchTracker.tsx:12-18 | the name of the first team with the id in the first group holding one, else "Unknown Team" |
| MatchTracker.MatchesForGroup | src/components/MatchTracker.tsx:20-22 | only the group's matches are listed and every one of them is |
| MatchTracker.GroupMatchesComplete | src/components/MatchTracker.tsx:20-22 | each of the group's matches is listed as often as it was recorded |
| MatchTracker.GroupMatchesAfterRecord | src/components/MatchTracker.tsx:20-22 | a newly recorded match joins the end of its group's list |
| MatchTracker.TeamMatchCountBounded | src/components/MatchTracker.tsx:24-29 | a team's count is the number of the group's matches it played in, so it never exceeds the group's count |
| MatchTracker.TeamMatchCountAfterRecord | src/components/MatchTracker.tsx:24-29 | recording a match adds one to the count of each team that played in it and nothing to others |
| MatchTracker.BadgeFor | src/components/MatchTracker.tsx:61 | destructive iff no matches, secondary for one or two, default from three on |
| MatchTracker.BadgeMonotone | src/components/MatchTracker.tsx:61 | as the count grows the badge never steps back |
| MatchTracker.RecentFirst | src/components/MatchTracker.tsx:79-81 | the recent list is as long as the group's list |
| MatchTracker.RecentFirstAfterRecord | src/components/MatchTracker.tsx:79-81 | a newly recorded match comes first ahead of the previous listing, which holds the group's matches each as often as recorded |
| PublicMatchHistory.ResultBadgeFor | src/components/PublicMatchHistory.tsx:25-31 | D iff the scores are equal; W iff the side shown scored more; L otherwise |
| PublicMatchHistory.BadgesOpposite | src/components/PublicMatchHistory.tsx:25-31 | outside a draw one side shows W and the other L |
| PublicMatchHistory.BadgeIsOutcome | src/components/PublicMatchHistory.tsx:26-30 | each side's badge is the outcome the standings credit to it |
| PublicMatchHistory.TeamNameOfMember | src/components/PublicMatchHistory.tsx:13-19 | with unique ids the name shown for a team's id is that team's name |
| PublicMatchHistory.HistoryReversesRecordOrder | src/components/PublicMatchHistory.tsx:75-77 | read from the end, the history is the group's matches in recording order |

## Left out

- Firestore persistence, live listeners, batches and their failures (`getDoc`, `updateDoc`, `writeBatch`, `onSnapshot`): the store operations return the new groups instead of writing them, and a failed write is not modelled.
- TournamentStore: the store reads the group from the remote document. The model reads it from the groups held in memory and takes the two to be the same. The `groupData.teams || []` default for a missing team list is not modelled.
- TournamentStore.SubmitScore: a missing team makes `JSON.parse` of `undefined` throw before the explicit "Team not found" check runs. Both paths end in the same refusal, so the model has one refusal and does not tell the error messages apart.
- TournamentStore.RemoveTeam: `arrayRemove` is modelled as dropping every record equal to the one found locally. The model does not capture what Firestore does when the stored record differs from the local copy.
- Authentication, rendering, toasts, dialogs, clipboard and file download are left out: they are presentation or foreign calls.
- The caller wiring is left out. The tournament page destructures `updateGroups` and `updateMatches`, which the hook does not return. Each handler is modelled as a function from the old state to the new state.
- AdminPanel.Panel.HandleAddTeam: whether the page's handler succeeded is a parameter. The tournament page's `handleAddTeam` returns nothing, so with that page the panel's add-team fields are never cleared.
- FixtureGenerator ignores its `fixtures` and `setFixtures` props, so the generated fixtures are not stored; the model has no stored-fixture state for it.
- Identifiers and timestamps (`Date.now()`, `crypto.randomUUID()`, `new Date()`) are parameters. Their uniqueness is assumed only where a lemma says so.
- `Number` and `parseInt` are an abstract parameter returning an optional integer. Fractional scores, infinities and numeric strings with exponents are not modelled. A caller choosing `None` for the empty string matches `parseInt`, not `Number`, which gives 0 for "".
- Text.ToLower: only the ASCII letters A to Z are lower-cased; full Unicode case mapping is not modelled.
- Text.Trim: the white-space set is the ASCII white space, no-break space, byte-order mark and the two Unicode line and paragraph separators. The other Unicode space separators are not included.
- `played` takes four values: missing, `null`, not-a-number, or a number. Firestore's own encoding of these values is not modelled; the store is taken to give back what it was given.
- `calculateTeamStats` is written on both pages, and neither page calls it. The model still proves its meaning.
- Knockout.GenerateKnockoutBracket: only four groups are modelled (`numberOfGroups == 4` is required). With other group counts the source reads seed indices that may not exist.
- Knockout.HandleKnockoutScore: the match objects in the list must be pairwise distinct. The source creates them distinct, and the model does not cover aliased match objects.
- InitialTournamentData.CreateInitialGroups: the group count is bounded so that `97 + i` stays a valid character code below the surrogate range.
- The public fixtures view visits buckets in `Object.values` order. Order does not affect the maximum, so the model visits them in an arbitrary order.
- Sorting the list of groups by name with `localeCompare` when it loads from the store is not modelled, because it belongs to the listener.
