# TI4 score tracker — a Dafny model

This project models the scoring core of a Twilight Imperium 4 game tracker. The tracker has a Go backend that keeps its data in a relational store through GORM, and a React frontend.

The backend keeps a score ledger: one row per scored point, with its round, player, objective, points, type and the agenda or relic that produced it. Services add rows to the ledger and check them first:

- public, secret and Custodians ("mecatol") scores;
- Support for the Throne;
- agendas: Mutiny, Classified Document Leaks, Incentive Program, Seed of an Empire, Political Censure, Imperial Rider;
- relics: Shard of the Throne, Crown of Emphidia, The Obsidian.

The checks are caps per player and per game, the finish line, and the finished-game lock. Other services create games and rounds, draw the speaker, project a game's detail view, and compute achievement badges and all-time records. A search parser reads the game-search query language. Statistics helpers tally factions, victory paths, points, spreads and game lengths.

The frontend reads the same ledger back as JSON. It normalises field spellings, derives the page's flags (Custodians scorer, Obsidian holder, Support buttons, secret slots), groups secret scores, merges the player list and sorts chart data.

The model follows the program's structure:

- The persistent store is a `class Db` whose fields are the tables. Each service is a method that `modifies` it. Each method's new state is tied to a pure function of the old state, and a `Valid()` invariant is preserved.
- Pure helpers are functions with named results, and the promised properties are lemmas about them.
- Loops in the source (aggregation, map building, the search tokeniser, the grouping hooks) are methods with loop invariants, each proved against the function that specifies it.
- JavaScript values are the `JsValue` datatype, whose truthiness, `||`, `??` and `===` follow the language.
- The `UiVsLedger` module compares what the page shows with what the backend enforces, for the same ledger. It proves where the two agree, and gives concrete ledgers where they do not.

## Model

| member | source | states |
|---|---|---|
| ScoringHelpers.SumPointsAppend | helpers/scoring.go:8-17 | a sum over selected rows splits over a concatenation of ledgers |
| ScoringHelpers.SumPointsSnoc | helpers/scoring.go:11-17 | one appended row moves a selected sum by its points exactly when it is selected |
| ScoringHelpers.SumPointsUpdate | services/agenda_service.go:202-206 | rewriting a row without changing its selection or points leaves the sum unchanged (the CDL retype) |
| ScoringHelpers.CountWhereSnoc | backend/services/score_validation.go:46-51 | one appended row moves a count by one exactly when it is selected |
| ScoringHelpers.CountWhereUpdate | services/agenda_service.go:202-206 | rewriting one row moves a count by that row's change of selection |
| ScoringHelpers.CountWherePositive | backend/services/score_validation.go:56-67 | a count is positive exactly when some row is selected |
| ScoringHelpers.PlayerTotalSnoc | helpers/scoring.go:93-95 | appending a row changes only its own player's total, by its points |
| ScoringHelpers.PlayerTotalLast | helpers/scoring.go:93-95 | a total is the total before the last row plus that row's share |
| ScoringHelpers.TotalSnoc | helpers/scoring.go:93-95 | the ledger total grows by an appended row's points |
| ScoringHelpers.PlayerIdsSnoc | helpers/scoring.go:11-16 | the set of players with rows grows by the appended row's player |
| ScoringHelpers.FindObjective | helpers/scoring.go:101-104 | the catalog row with the id exists exactly when some catalog entry has that id, and is that entry |
| ScoringHelpers.ObjectiveScore | helpers/scoring.go:100-120 | fails exactly for an unknown objective; otherwise the row is typed "secret" exactly when the stage is "Secret", else "public", and carries player, round, objective and points |
| ScoringHelpers.AggregatePlayerScores | helpers/scoring.go:8-25 | one entry per player that has a row, each holding that player's summed points |
| ScoringHelpers.PlayerTotalAbsent | helpers/scoring.go:8-17 | a player with no row has total zero |
| ScoringHelpers.GetPlayerScoresMap | helpers/scoring.go:74-98 | keys are the seated players plus every player with a row; each maps to that player's summed points (seated players without rows at 0) |
| ScoringHelpers.SumOfTotalsEmpty | helpers/scoring.go:19-24 | per-player totals over an empty ledger sum to zero |
| ScoringHelpers.SumOfTotalsSnoc | helpers/scoring.go:11-17 | the sum of listed players' totals grows by a row's points when its player is listed |
| ScoringHelpers.TotalsConserve | helpers/scoring.go:8-25 | listing each player with a row once, the summary points add up to the sum of all row points |
| Store.InertRowKeepsInvariant | backend/services/score_submission.go:189-195 | an appended row that is not an objective, Custodians, Support or relic row keeps the ledger invariant |
| Store.RelicRowKeepsInvariant | backend/services/relic_service.go:50-61 | an appended relic row keeps the ledger invariant (it only raises secret caps) |
| Store.SupportRowKeepsInvariant | backend/services/score_submission.go:222-242 | a Support row that keeps the game-wide sum within seats − 1 keeps the invariant, and moves the sum by its points |
| Store.MecatolRowKeepsInvariant | backend/services/score_submission.go:138-166 | with no Custodians row yet, appending one keeps the invariant and makes the count exactly one |
| Store.UniqueAfterNonObjectiveRow | backend/services/score_validation.go:76-90 | a row that is not an objective row keeps (player, objective) objective rows unique |
| Store.AgendaRowInert | helpers/scoring.go:61-72 | an agenda row is inert for every ledger rule |
| Store.RetypeKeepsUnique | services/agenda_service.go:202-206 | retyping an objective row into another objective row of the same player and objective keeps uniqueness |
| Store.RoundIdByNumber | helpers/helper.go:22-27 | a round id is found exactly when some round has that number, and is that round's id |
| Store.CurrentRoundId | helpers/helper.go:16-30 | succeeds exactly when a round numbered `CurrentRound` exists; otherwise fails with "current round not found" |
| Store.FreshRoundId | backend/services/game_rounds.go:12-25 | the id given to an inserted round is positive and exceeds every existing round id |
| Store.FreshSeatId | helpers/helper.go:64-70 | the id given to an inserted seat is positive and exceeds every existing seat id |
| Store.MarkWon | backend/services/score_finish.go:28-30 | exactly the seats of the given player are marked won; every other field and seat is unchanged |
| Store.AppendInertRows | services/agenda_service.go:84-96 | appends the rows in order, one insert at a time, keeping the invariant and changing nothing else |
| Store.Db.constructor | services/game_creation.go:64-84 | a new game at round 1 with `CurrentRound` 1, the given winning points and deck mode, and an empty ledger |
| Store.Db.AddGamePlayer | helpers/helper.go:64-70 | seats the player with the faction under a fresh seat id, not won, changing nothing else |
| ScoreSubmission.SubmitScoreRow | backend/services/score_submission.go:15-45 | a finished game fails with "game is already finished"; an already scored (player, objective) always fails; success implies an unfinished game, a known objective, a current round and passed secret rules, and the row is the objective's row worth its points |
| ScoreSubmission.FreshPairKeepsUnique | backend/services/score_submission.go:35-43 | an objective row for a (player, objective) pair with no row keeps objective rows unique |
| ScoreSubmission.SubmitScore | backend/services/score_submission.go:15-69 | fails exactly when the guards fail, with their message, leaving the store unchanged; on success appends exactly one row worth the objective's points, then runs the victory check, and reports whether the game finished and who won; the victory-path cache is refreshed on a win as MaybeFinishGameFromScore states, and kept on failure |
| ScoreSubmission.ScoreMecatolPoint | backend/services/score_submission.go:131-173 | succeeds exactly when a current round exists and no Custodians row exists for anyone; then appends one 1-point "mecatol" row and runs the victory check; afterwards at most one Custodians row exists; a finished game is not refused; the victory-path cache is refreshed on a win as MaybeFinishGameFromScore states, and kept on failure |
| ScoreSubmission.AppendPointAndCheck | backend/services/score_submission.go:188-201 | appends one 1-point row of the given type and leaves the store as the victory check makes it; the victory-path cache follows MaybeFinishGameFromScore |
| ScoreSubmission.ScoreImperialPoint | backend/services/score_submission.go:175-202 | succeeds exactly when a current round exists and the game is unfinished, with no Custodians prerequisite; on success one 1-point "imperial" row plus the victory check, otherwise no change; the victory-path cache is refreshed on a win as MaybeFinishGameFromScore states, and kept on failure |
| ScoreSubmission.ScoreSupportPoint | backend/services/score_submission.go:204-243 | refuses, unchanged, once the game-wide net Support sum (reversals included) reaches seats − 1; otherwise appends one +1 "Support" row and never runs the victory check |
| ScoreSubmission.LoseOneSupportPoint | backend/services/score_submission.go:245-265 | with a current round and an unfinished game always appends one −1 "Support" row, with no floor on the player's Support |
| ScoreSubmission.HandleSupportForTheThrone | backend/services/score_submission.go:267-276 | "score" succeeds exactly with a current round, an unfinished game and a game-wide Support sum below seats − 1; "unscore" exactly with a current round and an unfinished game; success appends only that player's +1 or −1 "support" row in the current round, failure leaves the store unchanged; any other action fails unchanged |
| ScoreSubmission.ScoreImperialRiderPoint | backend/services/score_submission.go:278-304 | round id 0 means the current round; succeeds exactly when a round is known and the game is unfinished, appending one 1-point "imperial_rider" row and running the victory check; the victory-path cache is refreshed on a win as MaybeFinishGameFromScore states, and kept on failure |
| ScoreValidation.SecretCap | backend/services/score_validation.go:55-67 | the cap is 4 exactly when the player has a relic row titled "the obsidian" (both compared lower-cased), otherwise 3 |
| ScoreValidation.ValidateSecretScoringRules | backend/services/score_validation.go:14-74 | unknown objective fails; non-secret passes; a secret fails when the player has a secret of the same phase in this round, or already holds as many secrets as the cap; the failure messages are the source's |
| ScoreValidation.CheckIfScoreExists | backend/services/score_validation.go:76-90 | true exactly when some row of the player names the objective, whatever its type |
| ScoreValidation.NeutralRowKeepsCaps | backend/services/score_validation.go:46-67 | a row neither secret- nor relic-typed changes no secret count and no cap |
| ScoreValidation.CapMonotone | backend/services/score_validation.go:56-67 | appending any row never lowers a cap |
| ScoreValidation.NeutralRowKeepsWithinCap | backend/services/score_validation.go:46-71 | a neutral row keeps every player within the cap |
| ScoreValidation.RelicRowKeepsWithinCap | backend/services/score_validation.go:56-67 | a relic row keeps every player within the cap |
| ScoreValidation.AcceptedScoreKeepsWithinCap | backend/services/score_validation.go:69-71 | after a passed validation the appended objective row leaves every player with at most cap secrets |
| ScoreValidation.MistypedSecretStageBreaksCap | backend/services/score_validation.go:14-23 | with a "Secret"-stage objective typed "public", a player holding three secrets and no Obsidian passes the guard and the stored row is a fourth secret |
| ScoreValidation.RetypeKeepsWithinCap | backend/services/score_validation.go:46-53 | retyping a non-relic row away from "secret" keeps every player within the cap |
| ScoreFinish.VictoryCheck | backend/services/score_finish.go:12-41 | only the scoring player's total is examined; at or above the winning points the game is finished with that player as winner and exactly that player's seats become won, every other seat unchanged; below it nothing changes |
| ScoreFinish.MaybeFinishGameFromScore | backend/services/score_finish.go:12-52 | the new store is the victory check of the old one; on a win the victory-path cache is replaced by the recount over every stored game, this one with its seats already marked won, and otherwise the cache is kept |
| ScoreFinish.FirstWinPath | backend/helpers/stats/points.go:54-71 | on a game's first win the game adds exactly the winner's path to the recount |
| ScoreFinish.FirstWinPaths | backend/services/score_finish.go:35-49 | on a game's first win the recount reads the other games' winning paths with this game's winner path between them, in record order |
| ScoreFinish.FirstWinCountedOnce | backend/services/score_finish.go:35-49 | after a game's first win the refreshed cache holds the winner's path key, counted once for this game on top of the other games' count |
| ScoreFinish.BestPlayer | backend/services/score_finish.go:75-82 | the chosen candidate has a total at least every other candidate's |
| ScoreFinish.TopScorer | backend/services/score_finish.go:75-86 | none exactly for an empty ledger; otherwise a player with rows whose total is maximal |
| ScoreFinish.WinnerByScoreState | backend/services/score_finish.go:69-102 | when the top scorer exists and is not player 0 it becomes the winner and exactly its seats are marked won; otherwise nothing changes; finished flag, ledger and the other tables are kept |
| ScoreFinish.UniqueLeaderWinsByScore | backend/services/score_finish.go:69-102 | a player other than 0 who outscores every other scorer becomes the winner, and the won flags change for that player's seats only |
| ScoreFinish.WinnerByScore | backend/services/score_finish.go:69-102 | the new store is the winner-by-score state of the old one |
| ScoreFinish.MaybeFinishGameFromExhaustion | backend/services/score_finish.go:54-67 | the game is always finished, and the winner is then set by score as WinnerByScoreState states |
| AgendaService.ApplyPoliticalCensure | services/agenda_service.go:13-33 | appends one agenda row titled "Political Censure", +1 when gained and −1 otherwise; the player's total moves by exactly that |
| AgendaService.WithTotal | services/agenda_service.go:63-80 | a player is listed exactly when it is in the iteration order and has the given total |
| AgendaService.WithTotalNone | services/agenda_service.go:63-80 | nobody at the total gives an empty list |
| AgendaService.HighestTotal | services/agenda_service.go:61-70 | the value the "for" scan settles on: at least −1, no listed total above it, and reached by a listed player unless it is −1 |
| AgendaService.LowestTotal | services/agenda_service.go:71-80 | the value the "against" scan settles on: at most 999, no listed total below it, and reached by a listed player unless it is 999 |
| AgendaService.HighestTotalIs | services/agenda_service.go:61-70 | any bound with those three properties is the highest total |
| AgendaService.LowestTotalIs | services/agenda_service.go:71-80 | any bound with those three properties is the lowest total |
| AgendaService.WithTotalDistinct | services/agenda_service.go:61-80 | from a duplicate-free key order each tied player is listed once |
| AgendaService.HighestTotals | services/agenda_service.go:61-70 | the "for" scan selects exactly the players tied at the highest total (that total being at least −1), in iteration order: it is WithTotal at HighestTotal |
| AgendaService.LowestTotals | services/agenda_service.go:71-80 | the "against" scan selects exactly the players tied at the lowest total (that total being at most 999), in iteration order: it is WithTotal at LowestTotal |
| AgendaService.SeedRows | services/agenda_service.go:84-96 | one +1 "Seed of an Empire" agenda row per target, in target order |
| AgendaService.SeedRowsTotal | services/agenda_service.go:84-96 | the rows of duplicate-free targets give each target exactly one point and every other player none |
| AgendaService.SeedTargets | services/agenda_service.go:57-82 | "for" selects the players at the highest total, "against" those at the lowest, anything else nobody; each target once |
| AgendaService.SeedRowsTotals | services/agenda_service.go:84-96 | the same for every player at once |
| AgendaService.ApplySeedOfEmpire | services/agenda_service.go:35-99 | seated players start at 0 and rows add their points; "for" targets every player tied for the highest total, "against" every player tied for the lowest, any other result nobody; each target appears once, and every player's total moves by exactly 1 if targeted and 0 otherwise |
| AgendaService.MutinyForRows | services/agenda_service.go:113-129 | one +1 Mutiny row per for-voter, in vote order |
| AgendaService.MutinyForRowsInert | services/agenda_service.go:113-129 | Mutiny rows are inert for the ledger rules |
| AgendaService.MutinyAgainstNext | services/agenda_service.go:131-157 | one more voter's deduction is appended after the earlier ones and is read against them |
| AgendaService.AwardVoters | services/agenda_service.go:113-129 | appends exactly the "for" rows |
| AgendaService.RecordMutinyUse | services/agenda_service.go:158-171 | appends exactly the 0-point Mutiny row of player 0 |
| AgendaService.DeductIfPositive | services/agenda_service.go:133-155 | appends a −1 Mutiny row for the voter exactly when the voter's current total is positive |
| AgendaService.FirstRowless | services/agenda_service.go:133-140 | finds the first for-voter with no row (whose `SUM` scan fails), or reports that every voter has rows |
| AgendaService.ReachedVoters | services/agenda_service.go:133-140 | the voters the "against" loop gets through are a prefix, all of them exactly when no voter lacks rows |
| AgendaService.RowlessTotalZero | services/agenda_service.go:142 | a player with no rows has a zero total |
| AgendaService.AgainstKeepsRows | services/agenda_service.go:142-155 | deductions give no player a first row |
| AgendaService.DeductFromVoters | services/agenda_service.go:131-157 | each reached for-voter with a positive total loses one point; the loop fails with the scan error exactly when some voter has no rows, keeping the earlier deductions |
| AgendaService.ApplyMutinyAgenda | services/agenda_service.go:101-174 | refused, unchanged, once any Mutiny row exists; otherwise appends the "for" awards, the "against" deductions, and the 0-point marker when the result is neither or there are no for-votes |
| AgendaService.MutinyAgainstTotals | services/agenda_service.go:131-157 | listing each voter once, a voter with a positive total loses exactly one point and every other player is unchanged |
| AgendaService.MutinyAgainstEmpty | services/agenda_service.go:142 | the "against" loop writes nothing exactly when no for-voter has a positive total |
| AgendaService.MutinyLeavesTrace | services/agenda_service.go:101-174 | a resolution leaves a Mutiny row, blocking a second one, except "against" with for-voters none of whom has a positive total |
| AgendaService.MutinyAgainstTitled | services/agenda_service.go:143-150 | every deduction row is titled "Mutiny" |
| AgendaService.FirstSecretRow | services/agenda_service.go:191-200 | the first row typed exactly "secret" of that player and objective, or none exactly when no such row exists |
| AgendaService.ApplyClassifiedDocumentLeaks | services/agenda_service.go:176-222 | refused once resolved in the game, or when no "secret" row exists for the player and objective, with no change; otherwise that row becomes "public" with its points kept and a 0-point agenda marker carrying the objective id is appended |
| AgendaService.RetypeKeepsWithinCapFromSecret | services/agenda_service.go:202-206 | retyping a secret row to public keeps every player within the secret cap |
| AgendaService.CdlKeepsTotals | services/agenda_service.go:202-219 | Classified Document Leaks changes no player's total |
| AgendaService.LowestUnassigned | services/agenda_service.go:252-256 | the lowest-id catalog objective of the stage that the game does not hold, or none exactly when every one of the stage is held |
| AgendaService.ApplyIncentiveProgramEffect | services/agenda_service.go:224-280 | no-op without objective decks; "for" reveals Stage I and "against" Stage II, anything else fails unchanged; the revealed objective is the chosen candidate, with a 0-point marker row |
| AgendaService.IncentiveCandidateMeaning | services/agenda_service.go:243-259 | the candidate is the lowest-id objective of the stage the game lacks; "none remain" exactly when the game holds no objectives (the empty `NOT IN` list matches nothing) or holds every one of the stage |
| RelicService.LastShardHolder | backend/services/relic_service.go:17-21 | none exactly when there is no Shard row; otherwise the player of the latest Shard row |
| RelicService.ShardTransferConserves | backend/services/relic_service.go:23-31 | a transfer from a different holder is a −1/+1 pair: ledger total and Shard total unchanged, the old holder loses one point, the new holder gains one, everyone else unchanged |
| RelicService.ShardRegrantOnlyAdds | backend/services/relic_service.go:23-31 | a first award, or a re-award to the latest holder, appends only +1, raising the Shard total by one |
| RelicService.ShardNewHolderIsLatest | backend/services/relic_service.go:17-31 | after an award the new holder is the latest Shard holder |
| RelicService.AppendRelicRow | helpers/scoring.go:27-36 | appends exactly the relic row and changes nothing else |
| RelicService.ApplyShardOfTheThrone | backend/services/relic_service.go:11-34 | appends the Shard rows, then runs the victory check for the new holder; the victory-path cache follows MaybeFinishGameFromScore |
| RelicService.ApplyCrownOfEmphidia | backend/services/relic_service.go:36-48 | appends one +1 Crown relic row, then runs the victory check; the victory-path cache follows MaybeFinishGameFromScore |
| RelicService.ApplyObsidian | backend/services/relic_service.go:50-61 | appends one 0-point "The Obsidian" relic row: no total moves and the player's secret cap becomes 4 |
| RelicService.ObsidianLiftsCap | backend/services/score_validation.go:55-67 | an Obsidian row gives its player the fourth secret slot |
| RelicService.ApplyBookOfLatvina | backend/services/relic_service.go:63-73 | appends one +1 Book of Latvina relic row, with no victory check |
| GameRounds.CountObjectivesUpdate | backend/services/game_rounds.go:48-51 | rewriting one game objective moves a count by that row's change of selection |
| GameRounds.DetermineStageToReveal | backend/services/game_rounds.go:28-37 | "II" exactly when at least five Stage I objectives have a round id above 0, else "I" |
| GameRounds.FirstRevealable | backend/services/game_rounds.go:41-44 | the first objective of the stage with round id 0 and not revealed, or none exactly when there is none |
| GameRounds.RevealNextObjective | backend/services/game_rounds.go:40-52 | with none waiting, fails unchanged with the lookup error; otherwise exactly that objective gets the round id and is marked revealed |
| GameRounds.RevealCounts | backend/services/game_rounds.go:54-61 | a reveal into a round with id above 0 adds one to the revealed count, and one to the Stage I count exactly for stage "I" |
| GameRounds.CreateNewRound | backend/services/game_rounds.go:12-25 | inserts round `CurrentRound + 1` under a fresh id and moves the game to it, changing nothing else |
| GameRounds.AdvanceGameRound | backend/services/game_rounds.go:63-95 | refused for a finished game; at round 9 or later finishes by exhaustion without a new round; otherwise creates the round, picks the stage and tries one reveal, ignoring its failure |
| GameCreation.Directory.CreatePlayer | services/player_service.go:8-12 | inserts one player with the given name under an id above every existing id, changing nothing else |
| GameCreation.MapEntry | services/game_creation.go:25-29 | a key is in the lookup map exactly when some filed entry has it, and it maps to the player of the last such entry (later writes win) |
| GameCreation.PlayerMapEntry | services/game_creation.go:25-29 | a key is in the players lookup map exactly when some player's decimal id or lower-cased name is that key, and maps to the last such player |
| GameCreation.BuildPlayerMap | services/game_creation.go:25-29 | the loop builds exactly the lookup map of the players table |
| GameCreation.LookupKey | services/game_creation.go:36-39 | the given id when it is non-empty, else the lower-cased name |
| GameCreation.InputError | services/game_creation.go:33-35 | no error exactly when the name is not blank and the faction is valid; a blank name is reported before an invalid faction |
| GameCreation.FirstInvalid | services/game_creation.go:32-58 | none exactly when every input is acceptable, else the index of a refused input |
| GameCreation.FirstInvalidAt | services/game_creation.go:32-58 | an index whose input is refused, with every earlier input accepted, is the first refused one |
| GameCreation.ParseOne | services/game_creation.go:33-57 | fails exactly when the input is refused, with its message; a blank name or a known key creates no player |
| GameCreation.ParseAndValidatePlayers | services/game_creation.go:19-61 | only appends to the players table; fails exactly when some input is refused, with the first refused input's message; on success returns one selection per input |
| GameCreation.NormaliseWinningPoints | services/game_creation.go:136-147 | always 10 or 14; 10 and 14 are kept and anything else becomes 10 |
| GameCreation.NormaliseIdempotent | services/game_creation.go:145-147 | normalising the winning points twice is normalising once |
| GameCreation.UseDecksSetting | services/game_creation.go:141-144 | decks are on unless the request explicitly turns them off |
| GameCreation.InitialLayout | services/game_creation.go:98-131 | ten rows: five Stage I at positions 0..4 with the first two revealed in round 1, then five waiting Stage II at positions 0..4 |
| GameCreation.AssignObjectivesToGame | services/game_creation.go:88-133 | with fewer than five objectives in either stage fails before inserting anything; otherwise appends exactly the initial layout |
| GameCreation.InitialLayoutCounts | services/game_creation.go:101-118 | a fresh layout has two objectives in rounds, both Stage I, so Stage I is revealed next |
| GameCreation.ManuallyAssignObjective | services/game_creation.go:205-247 | refused in order for a missing round, a missing objective and an objective already in the game, each leaving the store unchanged; otherwise appends one revealed row after the stage's existing objectives |
| GameCreation.ManualAssignKeepsDistinct | services/game_creation.go:219-230 | the duplicate check keeps the game's objective ids distinct |
| GameCreation.InRounds | services/game_creation.go:195-199 | exactly the objectives whose round id names a round of the game |
| GameCreation.SeatPlayers | helpers/helper.go:64-70 | appends one seat per selection, in order, with its player and faction, changing nothing else |
| GameCreation.NewSeatedGame | services/game_creation.go:64-84 | a fresh game in round 1 with the given settings, one round numbered 1, and no scores, objectives or speakers |
| GameCreation.SetUpGame | services/game_creation.go:154-202 | the game starts in round 1, unfinished and without a winner, with the normalised settings, the seats in order, and the deck layout exactly when decks are on |
| GameCreation.DrawSpeaker | services/game_creation.go:176-182 | the game's speaker becomes the seat at `pick` modulo the number of seats; nothing else changes |
| GameCreation.DealObjectives | services/game_creation.go:190-200 | with decks too short fails and changes nothing; otherwise lays out the deck and returns the objectives placed in a round |
| GameCreation.CreateNewGameWithPlayers | services/game_creation.go:135-203 | fails exactly when an input is refused (its message) or the decks are too short; otherwise returns a valid fresh game set up as SetUpGame states |
| SpeakerService.FirstAssignment | backend/services/speaker_service.go:30-31 | the first assignment row of the round, none exactly when the round has none |
| SpeakerService.SpeakerFor | backend/services/speaker_service.go:30-35 | a round has a speaker exactly when some assignment names it |
| SpeakerService.UpsertMeaning | backend/services/speaker_service.go:30-42 | the update-or-create keeps one assignment per round, makes the given seat the round's speaker and leaves every other round's speaker as it was |
| SpeakerService.SameRoundsAgree | backend/services/speaker_service.go:30-31 | the speaker of a round depends only on that round's assignment rows |
| SpeakerService.AssignSpeaker | backend/services/speaker_service.go:14-43 | refused, store unchanged, for a missing round or a seat of another game; otherwise the round's speaker becomes the seat |
| SpeakerService.LowestRound | backend/services/speaker_service.go:62-66 | none exactly when the game has no round; else a round of the game with the smallest number |
| SpeakerService.RandomisedState | backend/services/speaker_service.go:62-89 | creates round 1 only when missing, always appends one assignment for the lowest round, and sets the game's speaker to the drawn id; scores, seats and objectives unchanged |
| SpeakerService.RandomiseSpeaker | backend/services/speaker_service.go:45-92 | a failed fetch or an empty result is refused with its message and the store unchanged; otherwise the store becomes RandomisedState for the drawn row's id |
| SpeakerService.RandomiseSeat | backend/services/speaker_service.go:45-92 | the corrected draw: refused exactly when the game has no seat, otherwise returns the seat at `pick` modulo the seat count |
| SpeakerService.SeatDrawIsSeat | backend/services/speaker_service.go:77-89 | the corrected draw leaves a seat of the game as the game's speaker and as the lowest round's newest assignment |
| SpeakerService.PlayerIdStoredAsSeat | backend/services/speaker_service.go:55-89 | as written, a player id that is no seat of the game can be stored as the speaker |
| SpeakerService.RandomiseCanDuplicate | backend/services/speaker_service.go:77-84 | drawing again for a round that already has a speaker leaves two assignments for it |
| GameRetrieval.Uniqueness | backend/services/game_retrieval.go:71-74 | 100 for a path seen at most once, else 100 divided by the frequency, rounded down, always within 0..100 |
| GameRetrieval.WinnerVictoryPath | backend/services/game_retrieval.go:60-87 | no summary and the cache untouched without a winner; otherwise the winner's path, its key's count after a refresh on a missing key, and the matching uniqueness |
| GameRetrieval.FrequencyIsPathCount | backend/services/score_finish.go:43-52 | read from the refreshed counts, a path's frequency is the number of won games whose winner took exactly that path |
| GameRetrieval.RecountedPathIsCounted | backend/services/game_retrieval.go:65-70 | after a refresh the winner's own key is present with a count of at least 1 |
| GameRetrieval.LastMecatol | backend/services/game_retrieval.go:92-95 | none exactly when no row is typed "mecatol"; otherwise the player of such a row |
| GameRetrieval.SingleMecatolRow | backend/services/score_submission.go:175-202 | under the one-Custodians rule no two rows are typed "mecatol" |
| GameRetrieval.CustodiansHolderUnique | backend/services/game_retrieval.go:92-95 | under that rule the reported holder is the player of every "mecatol" row |
| GameRetrieval.SumPerPlayer | backend/services/game_retrieval.go:89-101 | the loop notes the last "mecatol" player and sums exactly each listed player's points |
| GameRetrieval.ListSummaries | backend/services/game_retrieval.go:103-106 | one line per player of the map, no player twice, each with the player's total; the order is left open |
| GameRetrieval.SummaryIdsSnoc | backend/services/game_retrieval.go:104-105 | appending a line for a player not yet listed keeps the list free of duplicates |
| GameRetrieval.SummariseScores | backend/services/game_retrieval.go:89-106 | the Custodians holder and a duplicate-free summary of every player's total |
| GameRetrieval.SummaryPointsAreTotals | backend/services/game_retrieval.go:96-100 | the summary's points add up to the totals of the players it lists |
| GameRetrieval.SummaryConservesPoints | backend/services/game_retrieval.go:89-106 | the summary's points add up to the ledger total |
| GameRetrieval.RowsFor | backend/services/game_retrieval.go:125-129 | the rows of one objective, in ledger order, and only those |
| GameRetrieval.GroupByObjective | backend/services/game_retrieval.go:124-129 | keyed exactly by the non-zero objective ids, each holding that objective's rows in ledger order |
| GameRetrieval.GroupsPartitionObjectiveRows | backend/services/game_retrieval.go:124-129 | every row with an objective is listed under it, and only there |
| GameRetrieval.CurrentSpeakerSource | backend/services/game_retrieval.go:130-167 | the shown speaker is an assignment of the current round or the game's speaker, and none only when the game has none |
| GameRetrieval.FallsBackToGameSpeaker | backend/services/game_retrieval.go:159-167 | without an assignment for the current round the game's speaker is shown |
| GameRetrieval.UpsertSetsSpeaker | backend/services/speaker_service.go:30-42 | after the upsert the round's speaker is the seat whatever was stored before |
| GameRetrieval.AssignedSpeakerShown | backend/services/game_retrieval.go:133-157 | once a seat is assigned to the current round the detail shows it as speaker |
| GameRetrieval.RandomisedSpeakerShown | backend/services/game_retrieval.go:159-160 | on a game without rounds, the id RandomiseSpeaker stores is the speaker shown |
| GameRetrieval.BuildGameDetailResponse | backend/services/game_retrieval.go:22-48 | another game id is "game not found"; the response carries the game, the CDL injection, the summary, the whole ledger, the grouping, the Custodians holder, the speaker and a path summary exactly when there is a winner |
| Cdl.CollectCdlIds | helpers/cdl.go:9-14 | exactly the objective ids of the rows under Classified Document Leaks |
| Cdl.CollectListedIds | helpers/cdl.go:16-19 | exactly the ids already listed |
| Cdl.AppendMissing | helpers/cdl.go:21-33 | appends one flagged entry for each CDL id not listed, and nothing else |
| Cdl.FlagAll | helpers/cdl.go:35-39 | each entry, in place, flagged when its objective is CDL-referenced |
| Cdl.InjectCDLObjectives | helpers/cdl.go:8-42 | the listed objectives plus the missing CDL ones, with the CDL flag set on every referenced entry |
| Cdl.CdlObjectivesListed | helpers/cdl.go:21-39 | every CDL-referenced objective is listed afterwards, and flagged |
| Cdl.FlagsMeaning | helpers/cdl.go:35-39 | an entry is flagged exactly when referenced or flagged before; the rest of each existing entry is unchanged |
| Cdl.InjectionIdempotent | helpers/cdl.go:8-42 | injecting again into the result changes nothing |
| Cdl.OtherRowsIgnored | helpers/cdl.go:10-14 | rows not under Classified Document Leaks do not change the result |
| AchievementHelper.RoundCount | helpers/achievements/achievement_helper.go:38-65 | the number of round rows; failing that the current round; failing that the number of distinct scored rounds; 0 exactly when all three are empty |
| AchievementHelper.WonPlayerIds | helpers/achievements/achievement_helper.go:83-92 | exactly the players of the seats marked won |
| AchievementHelper.HoldersFor | helpers/achievements/achievement_helper.go:90-92 | one holder per player, all tied to the game |
| AchievementHelper.WinnerHolders | helpers/achievements/achievement_helper.go:67-94 | the recorded winner alone when there is one; otherwise exactly the players of the won seats |
| AchievementHelper.GetWinnerHolders | helpers/achievements/achievement_helper.go:67-94 | the loop returns WinnerHolders |
| AchievementHelper.CompareMinRecord | helpers/achievements/achievement_helper.go:96-104 | "new" exactly for the first value or one below the record, "tied" exactly for an equal one, "" exactly for a larger one |
| AchievementHelper.CompareMaxRecord | helpers/achievements/achievement_helper.go:106-114 | "new" exactly for the first value or one above the record, "tied" exactly for an equal one, "" exactly for a smaller one |
| AchievementHelper.CompareMirror | helpers/achievements/achievement_helper.go:96-114 | the minimum comparison of a value is the maximum comparison of its negation |
| GameCompute.FindGame | helpers/achievements/achievement_helper.go:24-36 | the stored game with the id, none exactly when no game has it |
| GameCompute.MinRounds | backend/services/achievements/game_compute.go:96-110 | NULL exactly when no finished, complete game counts; otherwise the round count of some counted game, no larger than any other's |
| GameCompute.FastestWinAgainst | backend/services/achievements/game_compute.go:37-61 | no badge exactly when the game's round count is 0 |
| GameCompute.FastestWinNeverNew | backend/services/achievements/game_compute.go:43-47 | as written, a stored finished game with rounds always gets a badge, and it is never "new" |
| GameCompute.FastestWinStatus | backend/services/achievements/game_compute.go:37-61 | the corrected badge carries the round count and the winners; "new" exactly when every other counted game took more rounds; "tied" exactly when the fewest rounds among them equal this game's |
| GameCompute.LeadingRun | backend/services/achievements/game_compute.go:77-85 | the longest prefix of rows whose total is the given value |
| GameCompute.RoundHolders | backend/services/achievements/game_compute.go:81-84 | one holder per row, naming the game and the row's round |
| GameCompute.MostPointsInRound | backend/services/achievements/game_compute.go:63-94 | no badge without rows; otherwise the first row's total, compared with the record, held by the leading rows sharing that total |
| GameCompute.LeadingRunIs | backend/services/achievements/game_compute.go:77-80 | the run stops exactly at the first row whose total differs |
| GameCompute.LeadingRunCovers | backend/services/achievements/game_compute.go:77-85 | the run takes in every leading row with the value |
| GameCompute.MostPointsHoldersAreTop | backend/services/achievements/game_compute.go:112-126 | in `total DESC` order the holders are exactly the rows with the game's highest round total |
| GameCompute.RunRowsAreTop | backend/services/achievements/game_compute.go:77-85 | every holder row has the highest total |
| GameCompute.TopRowsInRun | backend/services/achievements/game_compute.go:77-85 | every row with the highest total is a holder |
| GameCompute.TopRowInRun | backend/services/achievements/game_compute.go:77-85 | a row with the highest total lies within the run |
| GameCompute.MaxRoundTotal | backend/services/achievements/game_compute.go:128-143 | `MAX(total)`: NULL exactly without rows, otherwise a row's total that no row exceeds |
| GameCompute.MostPointsNeverNew | backend/services/achievements/game_compute.go:63-74 | as written, once the all-time rows hold the game's own round totals, its most points in a round is never "new" |
| GameCompute.OtherGameRounds | backend/services/achievements/game_compute.go:128-143 | exactly the inner query's rows of the other games |
| GameCompute.MostPointsStatus | backend/services/achievements/game_compute.go:63-74 | with the record over the other games, "new" exactly when no other game's round total reaches the game's, "tied" exactly when the highest of them equals it |
| GameCompute.FinalTotals | backend/services/achievements/game_compute.go:182-195 | the players' totals, as a permutation, in descending order |
| GameCompute.WinMarginIsLead | backend/services/achievements/game_compute.go:145-155 | no margin exactly when nobody scored; the only total with one scorer; the leader's lead over the runner-up with two or more |
| GameCompute.SortedMargin | backend/services/achievements/game_compute.go:150-155 | first minus second of any descending permutation is the lead |
| GameCompute.LargestWinMargin | backend/services/achievements/game_compute.go:145-175 | a badge exactly when there is a margin, carrying it and the winners |
| GameCompute.Combine | backend/services/achievements/game_compute.go:226-228 | the running maximum: at least the new margin and the old record, and equal to one of them |
| GameCompute.MaxMarginMeaning | backend/services/achievements/game_compute.go:197-253 | NULL exactly without rows; otherwise some game's margin, and no game's margin exceeds it |
| GameCompute.SkipInsideGroup | backend/services/achievements/game_compute.go:239-247 | rows after a game's first two leave the record alone |
| GameCompute.BumpCloses | backend/services/achievements/game_compute.go:218-230 | closing a game folds its margin into the record |
| GameCompute.AllTimeMaxWinningMargin | backend/services/achievements/game_compute.go:197-253 | the loop returns the largest per-game margin |
| GameCompute.GroupMarginIsWinMargin | backend/services/achievements/game_compute.go:197-253 | the game's own group in the margin rows has the game's winning margin |
| GameCompute.MarginNeverNew | backend/services/achievements/game_compute.go:145-160 | as written, once the margin rows hold the game's group, its margin badge exists and is never "new" |
| GameCompute.OtherGameTotals | backend/services/achievements/game_compute.go:197-212 | exactly the margin query's rows of the other games |
| GameCompute.MarginStatus | backend/services/achievements/game_compute.go:145-160 | with the record over the other games' rows, "new" exactly when every other game's margin is smaller |
| GameCompute.ComputeGameAchievements | backend/services/achievements/game_compute.go:9-35 | no badge for a missing, unfinished or partial game; otherwise the fastest-win, most-points and margin badges that apply, in that order, each compared with the all-time record as written (the round record being MaxRoundTotal of the all-time round rows) |
| GlobalCompute.BestOf | backend/services/achievements/global_compute.go:403-413 | the best value is at least the start and every offered value, and is the start or one of them |
| GlobalCompute.HoldersAt | backend/services/achievements/global_compute.go:403-413 | exactly the holders of the offers with the value |
| GlobalCompute.HoldersAtBelow | backend/services/achievements/global_compute.go:403-413 | no offer reaches a value above every offer |
| GlobalCompute.Offer | backend/services/achievements/global_compute.go:405-412 | a larger value replaces the holders, an equal one joins them, so the holders stay those of the best value |
| GlobalCompute.BestOfMap | backend/services/achievements/global_compute.go:402-413 | from -1, the largest streak of the map and exactly the players reaching it |
| GlobalCompute.StreakBadge | backend/services/achievements/global_compute.go:415-425 | a badge exactly when the best streak is above 0 |
| GlobalCompute.WinsOfAppend | backend/services/achievements/global_compute.go:378-388 | a player's results over joined rows are the results of each part in turn |
| GlobalCompute.LeadingWins | backend/services/achievements/global_compute.go:390-397 | the wins before the first loss |
| GlobalCompute.CountLeadingWins | backend/services/achievements/global_compute.go:390-397 | the inner loop counts exactly the wins before the first loss |
| GlobalCompute.CurrentStreaks | backend/services/achievements/global_compute.go:370-399 | a streak for exactly the players with a row, each the wins before their latest loss |
| GlobalCompute.CurrentRow | backend/services/achievements/global_compute.go:371-398 | one row keeps the loop's state |
| GlobalCompute.FirstPlayLeads | backend/services/achievements/global_compute.go:370-377 | a player's first row newest first is the first of their results |
| GlobalCompute.CurrentStreakZeroAfterLoss | backend/services/achievements/global_compute.go:374-377 | a player whose newest game was lost has a current streak of 0 |
| GlobalCompute.CurrentWinningStreak | backend/services/achievements/global_compute.go:351-426 | a "record" badge exactly when some player's current streak is positive, carrying the largest and every player reaching it |
| GlobalCompute.StreakRow | backend/services/achievements/global_compute.go:447-456 | one row keeps the longest-streak loop's state |
| GlobalCompute.LongestStreaks | backend/services/achievements/global_compute.go:447-456 | a best streak for exactly the players with a win, each their longest run of wins |
| GlobalCompute.StreakStep | backend/services/achievements/global_compute.go:448-455 | a win extends the player's run and may raise the best, a loss resets the run |
| GlobalCompute.RunStep | backend/services/achievements/global_compute.go:448-455 | one more result grows or resets the current run, and the longest run follows |
| GlobalCompute.NoWinNoRun | backend/services/achievements/global_compute.go:448-455 | without a win the longest run is 0 |
| GlobalCompute.LongestWinningStreak | backend/services/achievements/global_compute.go:428-482 | a "record" badge exactly when some player has a win, carrying the largest run and every player reaching it |
| GlobalCompute.LongestRunMeaning | backend/services/achievements/global_compute.go:447-456 | the longest run is the length of some run of consecutive wins, and no run is longer |
| GlobalCompute.TrailingWinsMeaning | backend/services/achievements/global_compute.go:447-456 | the trailing wins form the run ending at the last result, and no run ending there is longer |
| GlobalCompute.Reverse | backend/services/achievements/global_compute.go:363-364 | the results read newest first |
| GlobalCompute.CurrentWithinLongest | backend/services/achievements/global_compute.go:351-482 | the current streak is the trailing run and never exceeds the longest |
| GlobalCompute.MarginsMeaning | backend/services/achievements/global_compute.go:174-206 | a margin for exactly the games of the rows, each that game's leader minus runner-up (or its only total) |
| GlobalCompute.SkipInsideGroupMargins | backend/services/achievements/global_compute.go:188-204 | rows after a game's first two change no margin |
| GlobalCompute.MarginBumpCloses | backend/services/achievements/global_compute.go:177-187 | closing a game stores its margin |
| GlobalCompute.GameMargins | backend/services/achievements/global_compute.go:174-206 | the first loop builds exactly the per-game margins |
| GlobalCompute.MaxOfMap | backend/services/achievements/global_compute.go:209-218 | NULL exactly for no games; otherwise a margin of some game that no game exceeds |
| GlobalCompute.GamesAt | backend/services/achievements/global_compute.go:220-225 | exactly the games at the maximum, each once |
| GlobalCompute.HoldersStep | backend/services/achievements/global_compute.go:227-234 | appending one more game's winners to the holders keeps them exactly the winners of the listed games |
| GlobalCompute.HoldersOfGames | backend/services/achievements/global_compute.go:227-234 | the holders are exactly the winners of the listed games: every holder is a winner of a listed game, and every winner of a listed game is a holder |
| GlobalCompute.CollectWinners | backend/services/achievements/global_compute.go:227-234 | the loop appends each listed game's winners in turn |
| GlobalCompute.GlobalLargestWinMargin | backend/services/achievements/global_compute.go:153-243 | no badge exactly without rows; otherwise the largest per-game margin, held by exactly the winners of the games reaching it |
| ComebackKid.SortedRounds | backend/services/achievements/global_compute.go:259-264 | the game's rounds reordered, none lost or added, by number then id |
| ComebackKid.Standings | backend/services/achievements/global_compute.go:292-295 | one running total per scorer of the game |
| ComebackKid.Comeback | backend/services/achievements/global_compute.go:310-313 | at most one comeback, never negative: when the player's total is the lowest, the gap to the highest |
| ComebackKid.RoundComebackOf | backend/services/achievements/global_compute.go:292-313 | at most one comeback per round, never negative, and none after the last round |
| ComebackKid.ComebacksUpTo | backend/services/achievements/global_compute.go:292-335 | at most one comeback per round scanned, none negative |
| ComebackKid.RoundComebackMeaning | backend/services/achievements/global_compute.go:296-313 | a round's comeback names the top scorer, comes from a round before the last in which that player was at the bottom, and is the gap to the top |
| ComebackKid.BestIsNegativeOnlyWithoutComebacks | backend/services/achievements/global_compute.go:338-340 | the best stays -1 exactly when no comeback was recorded |
| ComebackKid.AllComebacksNonNegative | backend/services/achievements/global_compute.go:312-333 | every recorded comeback is non-negative |
| ComebackKid.MinMatches | backend/services/achievements/global_compute.go:299-308 | the minimum found over the running map is the minimum of the standings |
| ComebackKid.MaxMatches | backend/services/achievements/global_compute.go:299-308 | likewise the maximum |
| ComebackKid.AddOne | backend/services/achievements/global_compute.go:272 | one `+=` adds the row's points to its player's total, a missing key reading as 0 |
| ComebackKid.AddRows | backend/services/achievements/global_compute.go:270-274 | the keys gain the rows' players and each total grows by that player's points in the rows |
| ComebackKid.FinalTotals | backend/services/achievements/global_compute.go:269-274 | keyed exactly by the scorers, each holding the player's total over all rounds |
| ComebackKid.PickTop | backend/services/achievements/global_compute.go:279-286 | some player with the largest final total |
| ComebackKid.Extremes | backend/services/achievements/global_compute.go:299-308 | the smallest and the largest running total, each held by some player |
| ComebackKid.AdvanceRound | backend/services/achievements/global_compute.go:293-295 | the running totals after one more round, over the same players |
| ComebackKid.ComebackIs | backend/services/achievements/global_compute.go:310-313 | with the extremes known, a comeback exactly when the player's total is the minimum |
| ComebackKid.RoundComeback | backend/services/achievements/global_compute.go:299-313 | the check after a round before the last gives that round's comeback |
| ComebackKid.ComebacksAtEnd | backend/services/achievements/global_compute.go:296-298 | the last round adds no comeback |
| ComebackKid.ComebacksUpToNext | backend/services/achievements/global_compute.go:292-335 | before the last round, the check appends the round's comeback, if any |
| ComebackKid.ScanStep | backend/services/achievements/global_compute.go:292-335 | one pass adds the round's rows and records its comeback unless it is the last round |
| ComebackKid.RoundScan | backend/services/achievements/global_compute.go:287-335 | the scan records exactly the comebacks of the rounds before the last |
| ComebackKid.QualifiesIs | backend/services/achievements/global_compute.go:266-277 | a game counts exactly when it has rounds, at least two seats and at least two scorers |
| ComebackKid.TopScorerIs | backend/services/achievements/global_compute.go:279-286 | the picked player is a top scorer |
| ComebackKid.GameComebacks | backend/services/achievements/global_compute.go:258-336 | no comebacks for a skipped game; otherwise those of the picked top scorer |
| ComebackKid.OfferAll | backend/services/achievements/global_compute.go:314-333 | a larger deficit replaces the holders and an equal one joins them, so the holders are those of the best deficit |
| ComebackKid.ComebackBadgeMeaning | backend/services/achievements/global_compute.go:338-348 | the record is the largest comeback of any game, held by every top scorer who made one that large, with the game and round number |
| ComebackKid.GlobalComebackKid | backend/services/achievements/global_compute.go:245-349 | each counted game's picked player is a top scorer, and the badge is the record over all their comebacks |
| RecordHolders.FindAchievement | helpers/acheivements.go:18-22 | the first achievement with the key, none exactly when no achievement has it |
| RecordHolders.RowsOf | helpers/acheivements.go:32 | exactly the rows of one achievement |
| RecordHolders.Without | helpers/acheivements.go:32 | exactly the rows of every other achievement |
| RecordHolders.Awards | helpers/acheivements.go:35-46 | one row per holder, in order, with its game, round and value |
| RecordHolders.PlainAwards | helpers/acheivements.go:86-95 | one row per holder, in order, without game or round |
| RecordHolders.AddMissing | helpers/acheivements.go:50-71 | only appends, and only rows of the achievement |
| RecordHolders.AchievementStore.UpsertRecordHolders | helpers/acheivements.go:24-74 | an unknown key fails with the rows unchanged; a new record replaces the achievement's rows by the holders'; an equal record adds the missing holders; otherwise nothing changes |
| RecordHolders.AchievementStore.ReplaceRecordHolders | helpers/acheivements.go:76-98 | an unknown key fails with the rows unchanged; otherwise the achievement's holders become exactly the given ones |
| RecordHolders.KeepOthers | helpers/acheivements.go:32 | the delete keeps exactly the other achievements' rows, in order |
| RecordHolders.CountRows | helpers/acheivements.go:52-57 | the count is 0 exactly when the player has no row for the achievement |
| RecordHolders.NewRecordReplacesHolders | helpers/acheivements.go:31-48 | after a new record the achievement's rows are exactly the holders', in order, and every other achievement keeps its rows |
| RecordHolders.ReplaceSetsHolders | helpers/acheivements.go:82-97 | the same for ReplaceRecordHolders |
| RecordHolders.AddMissingKeepsOneRow | helpers/acheivements.go:50-71 | the equal-record pass never gives a player a second row, and every holder has a row afterwards |
| RecordHolders.AddMissingLeavesOthers | helpers/acheivements.go:50-71 | other achievements' rows are untouched by the equal-record pass |
| GameRecords.RoundScores | backend/helpers/stats/points.go:14-17 | exactly the rows reachable through the game's rounds, each equal row as often as in the ledger, so no duplicate row is lost from a sum |
| GameRecords.RoundScoresSnoc | backend/helpers/stats/points.go:14-17 | one more row is appended after the earlier reachable rows exactly when its round is the game's, so the ledger's order is kept |
| GameRecords.Players | backend/helpers/stats/points.go:24-29 | each scoring player once |
| GameRecords.TotalsOf | backend/helpers/stats/points.go:24-29 | each listed player's total, in list order |
| GameRecords.TotalsOfPermutation | backend/helpers/stats/points.go:31-34 | reordering the players reorders their totals |
| GameRecords.CollectTotals | backend/helpers/stats/points.go:31-34 | whatever the map order, the collected values are the per-player totals as a bag |
| GameRecords.MaxOf | backend/helpers/stats/points.go:39 | an element no smaller than any other |
| GameRecords.MinOf | backend/helpers/stats/points.go:39 | an element no larger than any other |
| GameRecords.MaxMinPermutation | backend/helpers/stats/points.go:31-39 | reordering does not change the largest or smallest total |
| GameRecords.SortAscending | backend/helpers/stats/points.go:38 | `sort.Ints` orders the totals ascending |
| GameRecords.AscendingEnds | backend/helpers/stats/points.go:38-39 | in ascending order the smallest comes first and the largest last |
| GameRecords.PlayersCount | backend/helpers/stats/points.go:31-37 | one total per scoring player |
| Tally.Bump | backend/helpers/stats/points.go:40 | `m[k]++`: the key's count goes up by one from 0 or its old value, the other keys are unchanged |
| Tally.BumpCounts | backend/helpers/stats/points.go:71 | bumping keeps the map an exact count of the keys seen |
| Tally.CountsTotal | backend/helpers/stats/points.go:22-43 | the counts of a counting map add up to the number of keys counted |
| VictoryPathKey.IntToStringNoSpace | helpers/stats/key.go:10 | a `%d` field holds no space |
| VictoryPathKey.FieldNoSpace | helpers/stats/key.go:10 | a labelled field holds no space |
| VictoryPathKey.FieldInjective | helpers/stats/key.go:10 | a field's value can be read back from its text |
| VictoryPathKey.Peel | helpers/stats/key.go:10-13 | two equal keys agree on their leading field and on the rest |
| VictoryPathKey.KeyInjective | helpers/stats/key.go:9-14 | two paths share a key only when they are the same path |
| VictoryPoints.SpreadOf | backend/helpers/stats/points.go:35-39 | never negative, and nothing for fewer than two totals |
| VictoryPoints.Spread | backend/helpers/stats/points.go:22-39 | a game's spread over the rows reached through its rounds, never negative |
| VictoryPoints.SpreadIsLargestGap | backend/helpers/stats/points.go:22-39 | a game has a spread exactly when at least two players scored in its rounds, and it is then the largest difference between two of their totals |
| VictoryPoints.GameSpread | backend/helpers/stats/points.go:24-39 | the loop body, whatever the map order, computes the game's spread |
| VictoryPoints.SpreadOfSorted | backend/helpers/stats/points.go:38-39 | any ascending permutation of the totals has the spread between its ends |
| VictoryPoints.SpreadList | backend/helpers/stats/points.go:23-41 | only non-negative spreads |
| VictoryPoints.CalculateVictoryPointSpreads | backend/helpers/stats/points.go:12-44 | the map counts exactly the games' spreads, all non-negative |
| VictoryPoints.SpreadListLength | backend/helpers/stats/points.go:35-37 | one spread per game with two scorers |
| VictoryPoints.BucketsCountContestedGames | backend/helpers/stats/points.go:12-44 | the bucket counts add up to the number of games with at least two scorers |
| VictoryPoints.CategoryOfMeaning | backend/helpers/stats/points.go:91-117 | which lower-cased row types land in which path field, with Stage I only for public rows not originally secret |
| VictoryPoints.CalculateVictoryPath | backend/helpers/stats/points.go:79-120 | the loop adds each of the player's rows to the field of its category |
| VictoryPoints.PathAccountsForTotal | backend/helpers/stats/points.go:89-118 | every point of the player is in the path or in a row the path does not record |
| VictoryPoints.CategoriesPartition | backend/helpers/stats/points.go:91-117 | the player's total splits into the unrecorded points and one sum per summed category |
| VictoryPoints.AmongEvery | backend/helpers/stats/points.go:91-117 | over every category the player's rows are all of the player's rows |
| VictoryPoints.FirstWinner | backend/helpers/stats/points.go:56-62 | the first seat marked won, none exactly when no seat is |
| VictoryPoints.CalculateCommonVictoryPaths | backend/helpers/stats/points.go:45-77 | the map counts exactly the path keys of the games with a winner |
| VictoryPoints.WinnerPathsAppend | backend/helpers/stats/points.go:54-74 | the winners' paths of two runs of games joined are those of each run in turn |
| Tally.OccurrencesAppend | backend/helpers/stats/points.go:71 | occurrences over two joined lists add up |
| VictoryPoints.KeyCountIsPathCount | backend/helpers/stats/points.go:69-71 | the count of a key is the number of games whose winner took exactly that path |
| TopTwoSpreads.RemoveOne | helpers/stats/points.go:36-37 | the totals with one copy of the value set aside |
| TopTwoSpreads.RunnerUp | helpers/stats/points.go:36-37 | a total no larger than the leader's: the largest once one copy of the largest is set aside |
| TopTwoSpreads.LeadOf | helpers/stats/points.go:33-37 | never negative, and nothing for fewer than two totals |
| TopTwoSpreads.DescendingFirst | helpers/stats/points.go:36 | in descending order the largest comes first |
| TopTwoSpreads.LeadOfSorted | helpers/stats/points.go:36-37 | any descending permutation has the leader first and the runner-up second |
| TopTwoSpreads.TailIsRest | helpers/stats/points.go:36-37 | behind the largest come the other totals |
| TopTwoSpreads.GameLead | helpers/stats/points.go:22-37 | the loop body, whatever the map order, computes the game's lead |
| TopTwoSpreads.CalculateVictoryPointSpreads | helpers/stats/points.go:10-42 | the map counts exactly the games' leads |
| TopTwoSpreads.LeadWithinSpread | helpers/stats/points.go:33-37 | the older and newer statistic count the same games; the lead never exceeds the spread and equals it with two players |
| TopTwoSpreads.TwoTotals | helpers/stats/points.go:36-37 | with two totals the runner-up is the smaller |
| TopTwoSpreads.LeadIffContested | helpers/stats/points.go:33-35 | a game has a lead exactly when at least two players scored |
| TopTwoSpreads.LeadListLength | helpers/stats/points.go:21-39 | one lead per contested game |
| TopTwoSpreads.BucketsCountContestedGames | helpers/stats/points.go:10-42 | the bucket counts add up to the number of contested games |
| Factions.FindFactionMeaning | database/factions/factions.go:34-39 | the scan from a position finds exactly a later listed faction equal to the name up to case |
| Factions.ValidFactionMeaning | database/factions/factions.go:33-41 | a name is valid exactly when it equals a listed faction up to case |
| Factions.ValidUpperCase | database/factions/factions.go:35 | upper-casing a name does not change whether it is valid |
| Factions.FactionEnds | database/factions/factions.go:5-31 | every listed faction begins and ends with a letter or digit |
| Factions.EmptyNotValid | database/factions/factions.go:33-41 | the empty name is not a faction |
| Factions.PaddedNotValid | database/factions/factions.go:33-41 | there is no trimming: a name with a leading or trailing space is never valid |
| FactionStats.Leader | helpers/stats/factions.go:43-62 | the running maximum from ("", 0): never negative, "" when nothing is positive, no key counts more, and a positive maximum belongs to a visited key |
| FactionStats.LeaderIsMaximal | helpers/stats/factions.go:49-54 | whichever order the map is visited in, no key counts more than the leader, and a named leader is a key |
| FactionStats.MostCounted | helpers/stats/factions.go:49-54 | one loop computes exactly the leader in the visiting order |
| FactionStats.DetermineMostPlayedAndVictoriousFactions | helpers/stats/factions.go:43-62 | the played leader depends on the plays alone and the victorious leader on the wins alone |
| FactionStats.NoPositiveCountNoLeader | helpers/stats/factions.go:44-47 | without a positive count the result is "" |
| FactionStats.TieGoesToFirstVisited | helpers/stats/factions.go:50 | two keys tied at the top: each wins in the order that visits it first |
| GameSearch.RunLength | backend/controllers/game_search.go:15 | `\S+`: the longest prefix without a whitespace character |
| GameSearch.NextQuote | backend/controllers/game_search.go:15 | the first `"` at or after a position, none exactly when there is none |
| GameSearch.QuotedEnd | backend/controllers/game_search.go:15 | where `"([^"]+)"` ends when it matches: a closing quote with at least one non-quote character before it; no match only for the cases the pattern rejects |
| GameSearch.TokensNonEmpty | backend/controllers/game_search.go:38-46 | no match is empty, so the empty-token skip never fires |
| GameSearch.UnquotedTokensHaveNoSpace | backend/controllers/game_search.go:38-43 | without quotes every token is a run of non-space characters |
| GameSearch.WordIsToken | backend/controllers/game_search.go:38-43 | a word that does not open a quote is one whole token |
| GameSearch.KeyInFirst | backend/controllers/game_search.go:49-95 | the switch takes the first case whose prefix the lower-cased token starts with |
| GameSearch.KeyInNone | backend/controllers/game_search.go:93-94 | a token that starts with no prefix is free text |
| GameSearch.KeyOfMeaning | backend/controllers/game_search.go:49-92 | a text, date or Custodians key is given only to a token starting with that key's prefix |
| GameSearch.CapitalisedKeyKept | backend/controllers/game_search.go:50-51 | "Winner:Alice" is a winner filter; as written its value is the whole token "Winner:Alice", while the intended reading gives "Alice" |
| GameSearch.AsWrittenAgreesOnLowerKey | backend/controllers/game_search.go:50-59 | on a key written in lower case both readings agree |
| GameSearch.PrefixValueIgnoresKeyCase | backend/controllers/game_search.go:50-59 | the intended value after a key does not depend on the key's capitalisation |
| GameSearch.AfterOp | backend/controllers/game_search.go:78-79 | the part after the operator, none exactly when the token does not contain it |
| GameSearch.ParseDate | backend/controllers/game_search.go:86-91 | a date only for the `2006-01-02` layout with a real month and day |
| GameSearch.CustodiansStep | backend/controllers/game_search.go:60-69 | changes at most the Custodians filter |
| GameSearch.RoundsStep | backend/controllers/game_search.go:78-84 | changes at most the rounds operator and value |
| GameSearch.ParseTokensNext | backend/controllers/game_search.go:39-96 | reading one more token is one more step |
| GameSearch.ParseSearchQuery | backend/controllers/game_search.go:31-98 | the loop yields the filters the as-written reading of the trimmed query's tokens gives; it never fails |
| GameSearch.ReadToken | backend/controllers/game_search.go:48-95 | the switch body is one as-written step |
| GameSearch.ReadRounds | backend/controllers/game_search.go:70-84 | the operator choice, the single split and the integer read |
| GameSearch.BlankQuerySetsNothing | backend/controllers/game_search.go:32-36 | an empty or all-space query sets no filter |
| GameSearch.StepChangesOnlyItsKey | backend/controllers/game_search.go:49-95 | a token sets its own key's filter to its value and changes no other text filter; a keyed token adds no free text |
| GameSearch.IntendedValueIgnoresKeyCase | backend/controllers/game_search.go:50-59 | under the intended reading a text filter gets the value after its key however the key is capitalised |
| GameSearch.LastOf | backend/controllers/game_search.go:39-96 | the last token with the key, none exactly when there is none |
| GameSearch.LastTokenWins | backend/controllers/game_search.go:50-59 | a text filter holds the value of the last token with its key, and stays empty without one |
| GameSearch.FreeTextInOrder | backend/controllers/game_search.go:93-94 | free text collects exactly the unrecognised tokens, unquoted, in order |
| GameSearch.CustodiansValues | backend/controllers/game_search.go:60-69 | true for true/1/yes, false for false/0/no, unchanged otherwise |
| GameSearch.RoundsTokenSplits | backend/controllers/game_search.go:70-79 | a rounds token always contains its chosen operator, so the split yields a value part |
| GameLength.Quot | helpers/stats/games.go:18-19 | Go's truncating division: the remainder has the dividend's sign and is smaller than the divisor |
| GameLength.Rem | helpers/stats/games.go:19 | Go's `%`: the remainder takes the dividend's sign and completes the truncating division |
| GameLength.Pad2 | helpers/stats/games.go:21 | `%02d`: two digits |
| GameLength.FormatDuration | helpers/stats/games.go:17-24 | the text ends in "m" |
| GameLength.HoursAndMinutes | helpers/stats/games.go:18-19 | whole hours and the minutes past them add back up to the whole minutes |
| GameLength.ReadHoursForm | helpers/stats/games.go:21 | the "Hh MMm" form reads back as hours times sixty plus the minutes |
| GameLength.ReadMinutesForm | helpers/stats/games.go:23 | the "Mm" form reads back as the minutes |
| GameLength.FormatDurationKeepsMinutes | helpers/stats/games.go:17-24 | for a non-negative duration the text keeps exactly its whole minutes |
| GameLength.FormatDurationSameMinutes | helpers/stats/games.go:17-24 | two non-negative durations print alike exactly when they hold the same whole minutes |
| GameLength.FormatDurationPadsMinutes | helpers/stats/games.go:20-21 | sixty-five minutes and some seconds print as "1h 05m" |
| GameLength.StatOf | helpers/stats/games.go:31-45 | the entry carries the game's id and start, and a round count exactly for a complete game with rounds |
| GameLength.DurationsMeaning | helpers/stats/games.go:30-51 | the entries are exactly those of the kept games: a complete game without rounds is skipped |
| GameLength.TotalRounds | helpers/stats/games.go:40-48 | 0 exactly when no complete game has a round |
| GameLength.WithRounds | helpers/stats/games.go:65-69 | exactly the entries with a positive round count |
| GameLength.MeasureGame | helpers/stats/games.go:31-50 | one iteration: the entry, whether it is kept, and its share of the round totals |
| GameLength.CollectDurations | helpers/stats/games.go:26-51 | the first loop yields the kept entries and the round totals of the complete games |
| GameLength.TotalSeconds | helpers/stats/games.go:57-60 | the second loop sums the entries' seconds |
| GameLength.KeepWithRounds | helpers/stats/games.go:64-69 | the third loop keeps the entries with rounds |
| GameLength.ComputeStats | helpers/stats/games.go:25-99 | the three loops and the sorts give the summary StatsOf states |
| GameLength.BySecondsOrders | helpers/stats/games.go:72-74 | the seconds comparison is a total preorder |
| GameLength.ByRoundsOrders | helpers/stats/games.go:78-80 | the round-count comparison is a total preorder |
| GameLength.NothingKeptNoStats | helpers/stats/games.go:53-55 | with no game kept every field is the zero value |
| GameLength.TimeEndsBound | helpers/stats/games.go:70-74 | sorting by seconds puts an entry with the fewest seconds first and one with the most last |
| GameLength.RoundEndsBound | helpers/stats/games.go:76-83 | the round ends hold the fewest and most rounds among the entries with rounds, and are zero without them |
| GameLength.TimeExtremes | helpers/stats/games.go:94-95 | the shortest and longest by time are kept entries with the least and most seconds |
| GameLength.RoundExtremes | helpers/stats/games.go:92-93 | the round extremes come only from complete games with rounds, with the fewest and most rounds |
| GameLength.AverageRoundEmpty | helpers/stats/games.go:85-89 | the average round time is empty exactly when no complete game has a round |
| GameLength.Bucket | helpers/stats/games.go:116-129 | exactly the finished games with a start, of the given seat count when one is given, in order |
| GameLength.SplitGames | helpers/stats/games.go:116-129 | the loop fills `all` and the three- and four-player buckets as Bucket states |
| GameLength.GetGameLengthStats | helpers/stats/games.go:101-136 | a failed load returns its error; otherwise each bucket's summary |
| GameLength.SizeBucketsInAll | helpers/stats/games.go:120-128 | every game of a size bucket is also in `all` |
| JsValues.Get | frontend/src/utils/selectors.js:2 | an object's own field, and `undefined` otherwise |
| JsValues.Or | frontend/src/utils/selectors.js:2 | JS `or`: `a` when truthy, else `b` |
| JsValues.Coalesce | frontend/src/utils/selectors.js:17-18 | `a ?? b`: `a` unless it is null or undefined |
| JsValues.CoalesceAbsorbs | frontend/src/utils/normalise.js:5-11 | `??` never changes a value already set |
| JsValues.Any | frontend/src/utils/selectors.js:5 | `some`: true exactly when some element passes |
| JsValues.FindIndex | src/hooks/useGroupedScoredSecrets.js:12-15 | where `find` stops: the first passing element, none exactly when none passes |
| JsValues.Filter | frontend/src/utils/selectors.js:2 | `filter`: exactly the passing elements, each as often as in the input |
| JsValues.FilterSnoc | frontend/src/utils/selectors.js:2 | one more element is appended after the earlier result exactly when it passes, so the input's order is kept |
| JsValues.Elements | frontend/src/utils/selectors.js:2 | an array's items, and nothing for a missing (falsy) value |
| JsValues.ParseInt | src/hooks/useGroupedScoredSecrets.js:11-13 | `parseInt` of a number is the number; of undefined, null, a boolean or an object is NaN |
| JsValues.ParseDigits | src/hooks/useGroupedScoredSecrets.js:11-13 | a run of decimal digits parses to its value |
| JsValues.ParseNegativeDigits | src/hooks/useGroupedScoredSecrets.js:11-13 | a minus sign and digits parse to the negated value |
| JsValues.ParseIntOfIntToString | src/hooks/useGroupedScoredSecrets.js:11-14 | `parseInt` reads back the decimal text of any integer |
| JsValues.NumberKeyIsItsText | src/hooks/useGroupedScoredSecrets.js:18-21 | a number and its decimal text name the same object key |
| Selectors.KindOf | frontend/src/utils/selectors.js:2 | the lower-cased `Type` or `type`, "" when there is none |
| Selectors.OfKind | frontend/src/utils/selectors.js:1-2 | exactly the scores of the kind, in order |
| Selectors.OfKindFirst | frontend/src/utils/selectors.js:1-2 | the first of them is the list's first score of that kind |
| Selectors.ByType | frontend/src/utils/selectors.js:1-2 | `byType`: exactly the scores of the kind |
| Selectors.IsAgendaUsed | frontend/src/utils/selectors.js:4-5 | true exactly when some agenda score carries the title under either key |
| Selectors.IsRelicUsed | frontend/src/utils/selectors.js:7-8 | true exactly when some relic score carries the title under either key |
| Selectors.CustodiansScorerId | frontend/src/utils/selectors.js:10-13 | null without a "mecatol" score, never undefined |
| Selectors.CustodiansScorerIdFirst | frontend/src/utils/selectors.js:10-13 | with a "mecatol" score, the player of the first one |
| Selectors.FirstMecatol | frontend/src/utils/selectors.js:11 | the position of the first "mecatol" score |
| Selectors.CustodiansByReads | frontend/src/utils/selectors.js:10-13 | two lists agreeing on each score's type and player name the same scorer |
| Selectors.HasScoredObjective | frontend/src/utils/selectors.js:15-19 | true exactly when some score pairs the player and the objective |
| Selectors.ClaimsByReads | frontend/src/utils/selectors.js:15-19 | two lists agreeing on each score's player and objective find the same claims |
| Selectors.PointsSumBounds | frontend/src/utils/selectors.js:21-24 | a player without scores has 0 points; never-negative points give a non-negative total |
| Selectors.WinnerPlayerId | frontend/src/utils/selectors.js:26-27 | `winner_id`, else `WinnerID`, else null; never undefined |
| Selectors.MecatolTestMeaning | frontend/src/utils/selectors.js:29-31 | the Custodians test matches the type without case and the player under either key |
| Selectors.AgendaTestMeaning | frontend/src/utils/selectors.js:37-40 | without a title the plain agenda test for the player; with one, also the title |
| Selectors.KindsExclusive | frontend/src/utils/selectors.js:42-48 | a relic score is neither an agenda nor a Custodians score |
| Selectors.KindIgnoresCase | frontend/src/utils/selectors.js:2 | "Mecatol", "MECATOL" and "mecatol" are one kind under either key |
| Normalise.Spread | frontend/src/utils/normalise.js:2 | `{...v}` copies an object's own fields, and nothing from other values |
| Normalise.NormalizeScore | frontend/src/hooks/useGameData.js:8-17 | a copy of the score with each canonical key set to the either-spelling read, every other own key kept |
| Normalise.SnakeKeyNotCanonical | frontend/src/utils/normalise.js:5-11 | the snake-case spellings are never canonical keys |
| Normalise.NormalizedField | frontend/src/utils/normalise.js:4-11 | the canonical key holds the either-spelling read, the snake-case key keeps its value |
| Normalise.NormalizeScoreKeepsReads | frontend/src/utils/normalise.js:3-12 | after normalising, the selectors read player, objective and type as before |
| Normalise.NormalizeScoreIdempotent | frontend/src/utils/normalise.js:3-12 | normalising a normalised score changes nothing |
| Normalise.NormalizeAll | frontend/src/utils/normalise.js:3 | `map(normalizeScore)`: one normalised score per score |
| Normalise.NormalizeGame | frontend/src/utils/normalise.js:1-16 | the copy's `AllScores` are the normalised scores, `game_players` is the first truthy of `players`, `game_players` and `[]`, every other own key kept |
| Normalise.NormalizeGameKeeps | frontend/src/utils/normalise.js:1-16 | the keys read but not set keep their values |
| Normalise.NormalizeGameScores | frontend/src/utils/normalise.js:3-13 | the score list is the normalised raw list, and a players list is always there |
| Normalise.NormalizeAllIdempotent | frontend/src/utils/normalise.js:3-12 | normalising a normalised list changes nothing |
| Normalise.RenormalizedScores | frontend/src/utils/normalise.js:3 | a second pass reads back a list that normalises to the same scores |
| Normalise.NormalizeGameIdempotent | frontend/src/utils/normalise.js:1-16 | a normalised game normalises again to itself |
| Normalise.NormalizeGameKeepsScoreReads | frontend/src/utils/normalise.js:3-12 | a game whose scores are under `AllScores` alone keeps every selector read |
| Normalise.NormalizeGameKeepsCustodians | frontend/src/utils/normalise.js:3-12 | and names the same Custodians scorer |
| Normalise.NormalizeGameKeepsClaims | frontend/src/utils/normalise.js:3-12 | and finds the same objective claims |
| Normalise.NormalizeGameKeepsWinner | frontend/src/utils/normalise.js:14 | the winner reads the same before and after |
| Normalise.PhaseOf | frontend/src/hooks/useGameData.js:20-24 | a phase without capitals |
| Normalise.NormalizeObjective | frontend/src/hooks/useGameData.js:19-27 | `id`, `name` and `phase` filled in from either spelling, then every own key copied over them |
| Normalise.ObjectivePhaseAsSent | frontend/src/hooks/useGameData.js:20-25 | a `phase` sent in lower-case key keeps its capitals; only `Phase` alone is lower-cased |
| Normalise.ObjectivePhaseLowered | frontend/src/hooks/useGameData.js:20-24 | without an own `phase` key the phase is free of capitals |
| Normalise.RenormalizedPlayersAndWinner | frontend/src/utils/normalise.js:13-14 | a second pass finds `game_players` and `winner_id` already settled |
| GameData.NormalizedScores | frontend/src/hooks/useGameData.js:55 | one normalised score per row of `all_scores`, in order, and none when the payload has no such list |
| GameData.LoadedGame | frontend/src/hooks/useGameData.js:97-101 | the stored game keeps every payload field except `AllScores` and `game_players`, which hold the normalised scores and `players` or an empty list |
| GameData.RefreshedGame | frontend/src/hooks/useGameData.js:65-70 | as after the first load, and `winner_id` is the payload's `winner_id` unless that is null or missing, then `WinnerID` |
| GameData.LoadedGamesKeepWinner | frontend/src/hooks/useGameData.js:65-70 | both stored games name the same winner the payload names |
| GameData.NormalizedObjectives | frontend/src/hooks/useGameData.js:56-58 | an array payload is normalised entry by entry; anything else yields its `value` field or an empty list |
| GameData.NormalizeObjectives | frontend/src/hooks/useGameData.js:57 | one normalised objective per entry, in order |
| GameData.ClaimMap | frontend/src/hooks/useGameData.js:60-63 | the claim map has a key exactly for each objective id that some entry names |
| GameData.ClaimMapLastWins | frontend/src/hooks/useGameData.js:61-62 | for each objective the claim list kept is the last entry's `scored_by`, or an empty list when that is falsy |
| GameData.BuildClaimMap | frontend/src/hooks/useGameData.js:92-95 | the loop over the entries builds the claim map defined above |
| GameData.MutinyUsed | frontend/src/hooks/useGameData.js:106 | true exactly when some score has the agenda title "Mutiny" |
| GameData.CdlUsed | frontend/src/hooks/useGameData.js:107 | true exactly when some score has the agenda title "Classified Document Leaks" |
| GameData.CrownUsed | frontend/src/hooks/useGameData.js:108 | true exactly when some score is a relic score for "The Crown of Emphidia" |
| GameData.FirstPlayer | frontend/src/hooks/useGameData.js:109 | null when no score passes the test; otherwise the first passing score's player id, or null when that id is falsy |
| GameData.ObsidianHolderMeaning | frontend/src/hooks/useGameData.js:109 | the Obsidian holder is null without an Obsidian score and otherwise comes from the first such score |
| GameData.CensureHolderMeaning | frontend/src/hooks/useGameData.js:117-118 | the Political Censure holder is null without a Censure score and otherwise comes from the first such score |
| GameData.InitialSecretCounts | frontend/src/hooks/useGameData.js:111-115 | the initial secret counts have a key exactly for each player (`PlayerID`, else `id`) and every count is zero |
| Sidebar.MecatolScored | frontend/src/components/players/PlayerSidebar.js:29 | true exactly when some score of any player has the Custodians type "mecatol" |
| Sidebar.ShowImperial | frontend/src/components/players/PlayerSidebar.js:30 | a boolean prop decides; otherwise whether a Custodians score exists |
| Sidebar.ImperialFollowsCustodians | frontend/src/components/players/PlayerSidebar.js:29-30 | without the prop, Imperial shows exactly when the Custodians button at line 302 is disabled |
| Sidebar.CdlRevealed | frontend/src/components/players/PlayerSidebar.js:33-37 | an objective is revealed exactly when some score titled "Classified Document Leaks" carries its id |
| Sidebar.LeakRevealsForEveryone | frontend/src/components/players/PlayerSidebar.js:40-43 | a leak recorded by any player makes every secret score on that objective public |
| Sidebar.SupportMinusDisabled | frontend/src/components/players/PlayerSidebar.js:139-143 | the Support minus button is disabled exactly when the player has no Support score |
| Sidebar.SupportSumBounds | frontend/src/components/players/PlayerSidebar.js:151-154 | a player with no Support score has zero Support points, and non-negative rows give a non-negative total |
| Sidebar.MinusDisabledMeansNoSupport | frontend/src/components/players/PlayerSidebar.js:139-154 | when minus is disabled, the shown Support total is zero |
| Sidebar.MinusEnabledAtZeroNet | frontend/src/components/players/PlayerSidebar.js:139-154 | the converse fails: a +1 row and a -1 row total zero but keep minus enabled |
| Sidebar.PlayerCount | frontend/src/components/players/PlayerSidebar.js:162 | the length of the players array, or zero when it is not an array |
| Sidebar.SupportPlusDisabled | frontend/src/components/players/PlayerSidebar.js:161-168 | plus is disabled exactly when the player's own Support points reach the larger of zero and players minus one |
| Sidebar.FirstSupportAllowed | frontend/src/components/players/PlayerSidebar.js:161-168 | a player with no Support score can add one in a game of two or more players |
| Sidebar.ExtraSecret | frontend/src/components/players/PlayerSidebar.js:220-221 | one extra slot exactly when the player id and the Obsidian holder id parse to the same integer |
| Sidebar.MaxSecrets | frontend/src/components/players/PlayerSidebar.js:220-223 | three or four slots, four exactly for the Obsidian holder |
| Sidebar.NoHolderThreeSlots | frontend/src/components/players/PlayerSidebar.js:220-223 | with no Obsidian holder every player gets three slots |
| Sidebar.ScoredSecrets | frontend/src/components/players/PlayerSidebar.js:225-230 | exactly the player's secret scores not revealed by a leak, each as often as in the list, so the length is the number of such scores |
| Sidebar.SecretSlots | frontend/src/components/players/PlayerSidebar.js:232-243 | one slot per allowed secret, and slot i shows as scored exactly when the player has more than i still-secret scores |
| Sidebar.ScoredSlotsShown | frontend/src/components/players/PlayerSidebar.js:232-243 | the slots show as many scored secrets as the player has, capped at the slot count |
| Sidebar.OptionDisabled | frontend/src/components/players/PlayerSidebar.js:275-281 | an option is disabled exactly when the player has a secret score or a leak record on that objective |
| Sidebar.FilledSlotDisablesOption | frontend/src/components/players/PlayerSidebar.js:225-281 | a secret filling one of the player's slots disables the option for its objective |
| Sidebar.NextSecretCount | frontend/src/components/players/PlayerSidebar.js:257-260 | scoring a secret raises the local count by one, never above three |
| Sidebar.PrevSecretCount | frontend/src/components/players/PlayerSidebar.js:201-204 | unscoring a secret lowers the local count by one, never below zero |
| Sidebar.SecretCountRoundTrip | frontend/src/components/players/PlayerSidebar.js:201-260 | scoring then unscoring restores any count from zero to two, and the count never reaches the Obsidian's fourth slot |
| GroupedSecrets.SecretKindOf | src/hooks/useGroupedScoredSecrets.js:9 | the lower-cased `Type` string, or empty when `Type` is not a string |
| GroupedSecrets.MatchOf | src/hooks/useGroupedScoredSecrets.js:11-15 | the match is a catalog object whose parsed id equals the score's parsed objective id; none means no catalog entry matches |
| GroupedSecrets.GroupOf | src/hooks/useGroupedScoredSecrets.js:17-22 | one player's list never has more entries than there are scores |
| GroupedSecrets.GroupedIsPerPlayer | src/hooks/useGroupedScoredSecrets.js:4-27 | a player key is present exactly when that player has a matched secret, and holds their matches in score order |
| GroupedSecrets.MatchedCount | src/hooks/useGroupedScoredSecrets.js:9-17 | the scores that add an entry are never more than the secret-typed scores |
| GroupedSecrets.EntriesTotalRemove | src/hooks/useGroupedScoredSecrets.js:6 | the number of entries over all lists does not depend on the order the players are visited in |
| GroupedSecrets.EntriesTotalPush | src/hooks/useGroupedScoredSecrets.js:17-20 | appending one score to a player's list, created when missing, adds exactly one entry to the total |
| GroupedSecrets.GroupedTotal | src/hooks/useGroupedScoredSecrets.js:8-23 | summed over all players, the grouping holds exactly one entry per matched score, and so at most one per secret-typed score |
| GroupedSecrets.GroupedFromCatalog | src/hooks/useGroupedScoredSecrets.js:12-21 | every grouped entry is an entry of the secret catalog |
| GroupedSecrets.UnmatchedScoreIgnored | src/hooks/useGroupedScoredSecrets.js:9-17 | a score that is not a secret, or matches no catalog entry, leaves the grouping unchanged |
| GroupedSecrets.GroupedSnoc | src/hooks/useGroupedScoredSecrets.js:17-22 | one more score appends its match, if any, under its player's key |
| GroupedSecrets.GroupScoredSecrets | src/hooks/useGroupedScoredSecrets.js:4-27 | the loop over the scores builds the grouping defined above |
| MergedPlayers.ScoreMap | src/hooks/useMergedPlayerData.js:2 | the score map has a key exactly for each `player_id` some row names |
| MergedPlayers.ScoreMapLastWins | src/hooks/useMergedPlayerData.js:2 | a player's entry is their last row |
| MergedPlayers.PointsFor | src/hooks/useMergedPlayerData.js:22 | zero for a player with no row; the row's points when they are truthy; zero whenever the result is falsy |
| MergedPlayers.StripThe | src/hooks/useMergedPlayerData.js:10 | a leading "The" in any case followed by white space is dropped with all of that white space; otherwise the name is unchanged |
| MergedPlayers.RemoveJsSpace | src/hooks/useMergedPlayerData.js:11 | the result has no white space and is no longer than the input; a name without white space is unchanged |
| MergedPlayers.KeepAlnum | src/hooks/useMergedPlayerData.js:12 | the result is only ASCII letters and digits; an all-alphanumeric name is unchanged |
| MergedPlayers.IconBase | src/hooks/useMergedPlayerData.js:10-12 | the icon base is only ASCII letters and digits |
| MergedPlayers.FactionKey | src/hooks/useMergedPlayerData.js:9-13 | the key is only letters and digits and begins with the icon base |
| MergedPlayers.FactionKeySuffix | src/hooks/useMergedPlayerData.js:13 | "FactionSymbol" is appended exactly for a name that mentions "keleres" in any case |
| MergedPlayers.FactionKeyStable | src/hooks/useMergedPlayerData.js:9-13 | re-keying a key that does not spell "keleres" gives the same key |
| MergedPlayers.MergeOne | src/hooks/useMergedPlayerData.js:5-23 | the row takes the player and game-player ids; a truthy `Name`, `Faction` and `color` pass through unchanged, and a falsy one becomes "Unknown", "Unknown Faction" or "#000"; the icon key is that of its faction, and name and colour are always truthy |
| MergedPlayers.MergeAll | src/hooks/useMergedPlayerData.js:4-24 | one merged row per game player, in game order |
| MergedPlayers.MorePointsIsTotalPreorder | src/hooks/useMergedPlayerData.js:26 | the points comparator is a total preorder, so the sort is well defined |
| MergedPlayers.MergedPlayerData | src/hooks/useMergedPlayerData.js:1-27 | unsorted, the merged rows in game order; sorted, a permutation of them |
| MergedPlayers.SortedByPoints | src/hooks/useMergedPlayerData.js:26 | sorted rows run from the most points to the fewest |
| MergedPlayers.PointsOfPlayer | src/hooks/useMergedPlayerData.js:2-22 | a player with no score row shows 0 points; otherwise their last row's points, or 0 when those are falsy |
| ChartUtils.KeyLeIsTotalPreorder | src/components/graphs/shared/chartUtils.js:17-26 | comparing by key is a total preorder over numbers and strings |
| ChartUtils.RowLe | src/components/graphs/shared/chartUtils.js:17-26 | the row order for either direction is a total preorder |
| ChartUtils.SortData | src/components/graphs/shared/chartUtils.js:16-27 | the result is a permutation of the rows, sorted by the key in the chosen direction |
| ChartUtils.NumbersInOrder | src/components/graphs/shared/chartUtils.js:25 | numeric keys come smallest first when ascending and largest first when descending |
| ChartUtils.StringsInOrder | src/components/graphs/shared/chartUtils.js:20-24 | string keys come in text order when ascending and in reverse when descending |
| UiVsLedger.Encode | backend/services/game_retrieval.go:109-123 | an encoded ledger row is a JSON object keyed by the round, player, objective, points, type and title fields the page reads (the row's id, game, secrecy flag and timestamp are not modelled) |
| UiVsLedger.EncodedListReadsAsLedger | backend/services/game_retrieval.go:107-123 | the rows the backend sends read back on the page as the ledger rows they encode |
| UiVsLedger.PageSupportIsLedgerSupport | frontend/src/components/players/PlayerSidebar.js:151-154 | the page's Support total for a player equals that player's ledger Support sum |
| UiVsLedger.PlayerSupportWithinTotal | backend/services/score_submission.go:232 | without negative Support rows, one player's Support lies between zero and the game total |
| UiVsLedger.UiSupportRefusalIsBackendRefusal | frontend/src/components/players/PlayerSidebar.js:161-168 | when the page disables plus, the backend's game-wide cap at score_submission.go line 232 would refuse the point too |
| UiVsLedger.SupportCapsDisagree | backend/services/score_submission.go:232 | the converse fails: with three players, two holding one point each, the backend refuses yet the page keeps plus enabled |
| UiVsLedger.CustodiansAgree | frontend/src/utils/selectors.js:10-13 | with at most one "mecatol" row, the page's first row and the backend's last row name the same Custodians scorer |
| UiVsLedger.CustodiansDisagreeOnTwoRows | backend/services/game_retrieval.go:92-95 | with two "mecatol" rows the page names the first player and the backend the second |
| UiVsLedger.BackendCapOfSingleObsidian | backend/services/score_validation.go:56-67 | with a single Obsidian row, the backend allows a fourth secret to that row's player only |
| UiVsLedger.ObsidianSlotsAgree | frontend/src/hooks/useGameData.js:74-75 | with a single Obsidian row the page's slot count equals the backend's secret cap for every player |
| UiVsLedger.ObsidianSlotsDisagree | backend/services/score_validation.go:56-67 | with two Obsidian rows the backend allows both players a fourth secret, but the page gives the second player three slots |
| UiVsLedger.ImperialGateIsUiOnly | frontend/src/components/players/PlayerSidebar.js:29-30 | the backend's Imperial answer ignores the ledger, while the page hides Imperial until some row is a Custodians score |

## Left out

- Randomness: `rand.Intn` in the speaker draws is the parameter `pick`. The `rand.Shuffle` of the objective deck is left out, because the deal takes the already shuffled Stage I and Stage II lists as parameters. Every value of these parameters is covered, but no distribution is claimed.
- Go map iteration order: loops over Go maps take an explicit `order` parameter listing the keys. Results that the source leaves order-dependent are stated for every order.
- Timestamps: `created_at` ordering is read as ledger row order, and `time.Now` is a parameter.
- Case folding: `strings.ToLower` and JavaScript `toLowerCase` are modelled on ASCII letters only (`Text.ToLower`). Unicode folds such as the Kelvin sign are not captured, so a faction name spelling "keleres" with such letters is not modelled.
- Database failures: connection, constraint and scan errors other than the ones modelled explicitly are left out. Failures the source ignores (a discarded `Error`) are ignored in the model too.
- ScoringHelpers.AggregatePlayerScores: the summary's `PlayerName` (the preloaded player's name, repeated from each row) is not modelled; the model keeps the player id and the summed points, and returns them as a map keyed by player rather than as the list built from a map in Go's iteration order.
- WinnerByScore: SQL leaves the order of tied totals unspecified; the model picks the player of the first ledger row among the tied maxima.
- CalculateVictoryPath: its database error return is not modelled.
- ScoreFinish.MaybeFinishGameFromScore: a failed recount in RefreshVictoryPathCache (the query error is logged and the cache kept) is not modelled, like the other database failures; a win always installs the recount. The recount reads the game with its `partial` flag as false, which the recount does not consult.
- ScoreValidation.SecretStagesTyped: the store's invariant assumes the catalog types every "Secret"-stage objective as secret, which is how the seeded catalog is meant to be written (the seeding code, backend/init_db.go, is not part of this model); no code in the model's scope enforces it. The secret cap (`ScoreValidation.AcceptedScoreKeepsWithinCap`) rests on it, because the guard reads the objective's type while the stored row's type follows its stage. `ScoreValidation.MistypedSecretStageBreaksCap` shows a fourth secret accepted when the premise fails.
- The JSON names and GORM tags of the Go structs (the `Score` model, DTOs) are not modelled beyond the fields the page reads.
- HTTP handlers, routing, logging and the request-binding layer are not modelled; the services take their inputs as parameters.
- Panics are modelled as an error result carrying the runtime message. In `AssignObjectivesToGame` and `DealObjectives` the slice panic comes before any insert, so that store is unchanged.
- CreateNewGameWithPlayers: the short-deck panic in the source comes after the game, round 1, the seats and the drawn speaker are saved, so a half-created game without objectives persists. `GameCreation.SetUpGame` returns that half-created store (no objectives, nothing revealed). `CreateNewGameWithPlayers` returns only the error and does not pass the half-created store on.
- GameRetrieval.LastMecatol: the summary loop in backend/services/game_retrieval.go keeps the address of the range variable's player id; the model reads it with Go 1.22 per-iteration loop variables, so the pointer keeps the last "mecatol" row's player. Under earlier Go versions the range variable is shared and the pointer would end on the last row's player. The Go version is not fixed by the files modelled here.
- formatDuration: durations are integers in nanoseconds. `int(d.Hours())` and `int(d.Minutes())` are modelled as exact division truncating toward zero, so float64 rounding of very long durations is not captured.
- Go's `sort.Slice` is not stable. Sorted results are stated as sorted permutations, and the order among ties is not fixed.
- JavaScript `Array.prototype.sort` stability is not modelled: sorted results are sorted permutations.
- JavaScript numbers are modelled as integers. Fractions, `NaN` and `Infinity` are not modelled. `localeCompare` is modelled as code-point order (`ChartUtils.StrLe` compares Dafny characters); locale collation is not modelled.
- Fetches, `useState`, `useEffect`, `useMemo` and component rendering are left out. The hooks' results are functions of the fetched payloads, which are parameters.
- JavaScript calls that throw on `undefined` or `null` (for example `.map` on a non-array) are outside the model. The affected functions require the argument shapes under which the page does not throw.
- GameData.RelicTitled, GameData.AgendaScoreTitled: a score whose `Type` is neither a string nor nullish makes the page throw on `.toLowerCase()`; these two tests read such a score as not matching instead of requiring a readable type.
- Normalise.Spread: `{...v}` of a string or an array copies its index keys in JavaScript; the model copies nothing from a value that is not an object. The page only spreads objects or missing values.
- Object identity and aliasing between JavaScript objects are not modelled: objects are values.
- Prototype keys (`toString`, `__proto__`) and object keys holding `undefined` are not distinguished from missing keys.
- Badges and icons that only render (agenda bonus badges, the speaker icon, the Custodians icon) are left out.
- UiVsLedger: the comparison lemmas require a ledger with canonical spellings, at most one Obsidian row where stated, and player ids of at least 1. Ids of 0 are falsy in JavaScript, so the page treats them as missing.
- ComputeGameAchievements: uses the three record badges as written, each record taken over every finished, complete game including the badged one (see Findings). The corrected records (`GameCompute.FastestWin`, `GameCompute.OtherGameRounds`, `GameCompute.OtherGameTotals`) are proved about separately and are not used by the aggregate, so that the model keeps the source's behaviour. The round and margin query rows are parameters; that they hold the badged game's own rows is stated as `GameCompute.IncludesGameRounds` and `GameCompute.GameGroupAt`, the premises of the "never new" lemmas.
- ParseSearchQuery: uses the as-written prefix cut (see Findings). The intended reading is the separate `Reading` value `AnyCaseKey`, and lemmas are proved about it.
- SpeakerService.RandomiseSpeaker: models the source's draw over the fetched player rows and stores the drawn row's id. The corrected draw over seats is `SpeakerService.RandomiseSeat` (see Findings).

## Findings

| source | as written | input that shows it | evidently intended | confidence | as-written member | corrected member |
|---|---|---|---|---|---|---|
| backend/controllers/game_search.go:50-59 | the key is matched on the lower-cased token but cut from the original token with a case-sensitive prefix | the query `Winner:Alice` sets the winner filter to `Winner:Alice` | the value after the key, `Alice`, whatever the key's case | not executed | GameSearch.CapitalisedKeyKept | GameSearch.IntendedValueIgnoresKeyCase |
| backend/services/achievements/game_compute.go:37-61 | the all-time fewest-rounds record includes the game being badged | any finished game with rounds gets status "tied" or "" (no status), never "new" | a new record when the game beats every other finished game | not executed | GameCompute.FastestWinNeverNew | GameCompute.FastestWinStatus |
| backend/services/achievements/game_compute.go:63-74 | the all-time highest round total (lines 128-143) includes the badged game's own round totals | any finished game with scored rounds gets status "tied" or "" for most points in a round, never "new" | a new record when no other game's round total reaches it | not executed | GameCompute.MostPointsNeverNew | GameCompute.MostPointsStatus |
| backend/services/achievements/game_compute.go:145-160 | the all-time largest margin (lines 197-253) includes the badged game's own margin | any finished game with scores gets status "tied" or "" for the largest win margin, never "new" | a new record when every other game's margin is smaller | not executed | GameCompute.MarginNeverNew | GameCompute.MarginStatus |
| backend/services/speaker_service.go:45-92 | the speaker is drawn from player rows and their id is stored where a seat id is expected | a game whose player row ids differ from its seat ids stores a non-seat id as the speaker; a second draw for the same round adds a second assignment | draw one of the game's seats and store its id | not executed | SpeakerService.PlayerIdStoredAsSeat | SpeakerService.SeatDrawIsSeat |
