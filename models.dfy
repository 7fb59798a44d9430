/** The records the scoring core stores and exchanges, one per table row or request. Go `uint`
    ids are `nat`; 0 is GORM's "unset" id. Each store holds a single game, so the `game_id`
    column of a row is implicit. */
module Models {
  import opened Wrappers

  /** A ledger row: one scoring event. `kind` is the row's `type` column. */
  datatype Score = Score(
    roundId: nat,
    playerId: nat,
    objectiveId: nat,
    points: int,
    kind: string,
    agendaTitle: string,
    relicTitle: string,
    originallySecret: bool)

  /** A row of the objective catalog. `kind` is the objective's `type` column, `stage` is
      "I", "II" or "Secret". */
  datatype Objective = Objective(id: nat, name: string, kind: string, phase: string, stage: string, points: int)

  /** The game row. `finished` stands for `FinishedAt != nil`. */
  datatype Game = Game(
    id: nat,
    currentRound: int,
    winningPoints: int,
    finished: bool,
    winner: Option<nat>,
    useObjectiveDecks: bool,
    speakerId: Option<nat>)

  /** A seat in the game: `id` is the game-player row id, `playerId` the player's id. */
  datatype GamePlayer = GamePlayer(id: nat, playerId: nat, faction: string, won: bool)

  datatype Round = Round(id: nat, number: int)

  /** A row of the players table (shared by all games). */
  datatype Player = Player(id: nat, name: string)

  /** An objective placed in the game; `roundId == 0` means "not revealed in any round". */
  datatype GameObjective = GameObjective(
    objectiveId: nat,
    roundId: nat,
    stage: string,
    revealed: bool,
    position: int,
    isCdl: bool)

  datatype SpeakerAssignment = SpeakerAssignment(roundId: nat, playerId: nat)

  // Values of the `type` column.
  const TypeSecret := "secret"
  const TypePublic := "public"
  const TypeMecatol := "mecatol"
  const TypeImperial := "imperial"
  const TypeImperialRider := "imperial_rider"
  const TypeSupport := "Support"
  const TypeAgenda := "agenda"
  const TypeRelic := "relic"

  // Agenda and relic titles.
  const PoliticalCensure := "Political Censure"
  const SeedOfAnEmpire := "Seed of an Empire"
  const Mutiny := "Mutiny"
  const ClassifiedDocumentLeaks := "Classified Document Leaks"
  const IncentiveProgram := "Incentive Program"
  const ShardOfTheThrone := "Shard of the Throne"
  const CrownOfEmphidia := "The Crown of Emphidia"
  const TheObsidian := "The Obsidian"
  const BookOfLatvina := "Book Of Latvina"

  /** How a winner's points were made up: points per category, except `stage2Scored`, which
      counts stage II rows. */
  datatype VictoryPath = VictoryPath(
    stage1Points: int,
    stage2Scored: int,
    secretPoints: int,
    custodians: int,
    imperial: int,
    relics: int,
    agenda: int,
    actionCard: int,
    support: int)
}
