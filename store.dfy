/** The database rows of one game, held in memory, and the ledger invariants that the
    scoring services keep. The Go services work on a global GORM handle; here they take the
    store as a parameter. Row order in `scores` is creation order (`created_at`). */
module Store {
  import opened Wrappers
  import opened Text
  import opened Models
  import opened ScoringHelpers
  import opened ScoreValidation

  /** Every mutable table of the store, for stating what a method leaves unchanged. */
  datatype State = State(
    scores: seq<Score>,
    game: Game,
    players: seq<GamePlayer>,
    rounds: seq<Round>,
    objectives: seq<GameObjective>,
    speakers: seq<SpeakerAssignment>)

  /** Catalog ids are positive and distinct, and every "Secret"-stage objective is typed secret. */
  predicate CatalogWellFormed(catalog: seq<Objective>)
  {
    (forall i :: 0 <= i < |catalog| ==> catalog[i].id > 0)
    && (forall i, j :: 0 <= i < j < |catalog| ==> catalog[i].id != catalog[j].id)
    && SecretStagesTyped(catalog)
  }

  /** Rows typed exactly "mecatol" (the Custodians point). */
  function MecatolCount(scores: seq<Score>): nat
  {
    CountWhere(scores, (x: Score) => x.kind == TypeMecatol)
  }

  /** The game-wide net sum of "Support" points, reversals included. */
  function SupportTotal(scores: seq<Score>): int
  {
    SumPoints(scores, (x: Score) => x.kind == TypeSupport)
  }

  /** The backend Support cap: the game-wide sum may reach, but not pass, seats − 1. */
  function SupportCap(seats: nat): int
  {
    if seats == 0 then 0 else seats - 1
  }

  /** A row that records a scored objective. */
  predicate IsObjectiveRow(x: Score)
  {
    x.kind == TypeSecret || x.kind == TypePublic
  }

  /** No player has two objective rows for the same objective. */
  predicate UniqueObjectiveRows(scores: seq<Score>)
  {
    forall i, j :: 0 <= i < j < |scores| && IsObjectiveRow(scores[i]) && IsObjectiveRow(scores[j]) ==>
      scores[i].playerId != scores[j].playerId || scores[i].objectiveId != scores[j].objectiveId
  }

  /** What the scoring services keep true of the ledger: at most one Custodians row, every
      player within the secret cap, the Support sum within its cap, and no objective scored
      twice by one player. */
  ghost predicate LedgerInvariant(scores: seq<Score>, catalog: seq<Objective>, seats: nat)
  {
    MecatolCount(scores) <= 1
    && WithinCaps(scores, catalog)
    && SupportTotal(scores) <= SupportCap(seats)
    && UniqueObjectiveRows(scores)
  }

  /** A row no ledger invariant looks at. */
  predicate Inert(x: Score)
  {
    x.kind != TypeMecatol && x.kind != TypeSupport && !IsObjectiveRow(x)
    && !IsSecretKind(x.kind) && ToLower(x.kind) != TypeRelic
  }

  lemma InertRowKeepsInvariant(scores: seq<Score>, catalog: seq<Objective>, seats: nat, x: Score)
    requires LedgerInvariant(scores, catalog, seats) && Inert(x)
    ensures LedgerInvariant(scores + [x], catalog, seats)
  {
    CountWhereSnoc(scores, x, (y: Score) => y.kind == TypeMecatol);
    SumPointsSnoc(scores, x, (y: Score) => y.kind == TypeSupport);
    NeutralRowKeepsWithinCap(scores, catalog, x);
    UniqueAfterNonObjectiveRow(scores, x);
  }

  lemma RelicRowKeepsInvariant(scores: seq<Score>, catalog: seq<Objective>, seats: nat, x: Score)
    requires LedgerInvariant(scores, catalog, seats) && x.kind == TypeRelic
    ensures LedgerInvariant(scores + [x], catalog, seats)
  {
    CountWhereSnoc(scores, x, (y: Score) => y.kind == TypeMecatol);
    SumPointsSnoc(scores, x, (y: Score) => y.kind == TypeSupport);
    RelicRowKeepsWithinCap(scores, catalog, x);
    UniqueAfterNonObjectiveRow(scores, x);
  }

  /** A Support row keeps the invariant when the game-wide sum stays within the cap. */
  lemma SupportRowKeepsInvariant(scores: seq<Score>, catalog: seq<Objective>, seats: nat, x: Score)
    requires LedgerInvariant(scores, catalog, seats) && x.kind == TypeSupport
    requires SupportTotal(scores) + x.points <= SupportCap(seats)
    ensures LedgerInvariant(scores + [x], catalog, seats)
    ensures SupportTotal(scores + [x]) == SupportTotal(scores) + x.points
  {
    CountWhereSnoc(scores, x, (y: Score) => y.kind == TypeMecatol);
    SumPointsSnoc(scores, x, (y: Score) => y.kind == TypeSupport);
    assert ToLower(x.kind)[0] == 's' && ToLower(x.kind)[1] == 'u';
    NeutralRowKeepsWithinCap(scores, catalog, x);
    UniqueAfterNonObjectiveRow(scores, x);
  }

  /** The first Custodians row keeps the invariant. */
  lemma MecatolRowKeepsInvariant(scores: seq<Score>, catalog: seq<Objective>, seats: nat, x: Score)
    requires LedgerInvariant(scores, catalog, seats) && x.kind == TypeMecatol
    requires MecatolCount(scores) == 0
    ensures LedgerInvariant(scores + [x], catalog, seats)
    ensures MecatolCount(scores + [x]) == 1
  {
    CountWhereSnoc(scores, x, (y: Score) => y.kind == TypeMecatol);
    SumPointsSnoc(scores, x, (y: Score) => y.kind == TypeSupport);
    assert ToLower(x.kind)[0] == 'm';
    NeutralRowKeepsWithinCap(scores, catalog, x);
    UniqueAfterNonObjectiveRow(scores, x);
  }

  lemma UniqueAfterNonObjectiveRow(scores: seq<Score>, x: Score)
    requires UniqueObjectiveRows(scores) && !IsObjectiveRow(x)
    ensures UniqueObjectiveRows(scores + [x])
  {
    var t := scores + [x];
    forall i, j | 0 <= i < j < |t| && IsObjectiveRow(t[i]) && IsObjectiveRow(t[j])
      ensures t[i].playerId != t[j].playerId || t[i].objectiveId != t[j].objectiveId
    {
      assert t[i] == scores[i] && t[j] == scores[j];
    }
  }

  /** Agenda rows are inert. */
  lemma AgendaRowInert(x: Score)
    requires x.kind == TypeAgenda
    ensures Inert(x)
  {
    assert ToLower(x.kind)[0] == 'a';
  }

  /** Retyping an objective row into another objective row of the same player and
      objective keeps objective rows unique. */
  lemma RetypeKeepsUnique(scores: seq<Score>, k: nat, y: Score)
    requires k < |scores| && UniqueObjectiveRows(scores)
    requires IsObjectiveRow(scores[k]) && IsObjectiveRow(y)
    requires y.playerId == scores[k].playerId && y.objectiveId == scores[k].objectiveId
    ensures UniqueObjectiveRows(scores[k := y])
  {
    var t := scores[k := y];
    forall i, j | 0 <= i < j < |t| && IsObjectiveRow(t[i]) && IsObjectiveRow(t[j])
      ensures t[i].playerId != t[j].playerId || t[i].objectiveId != t[j].objectiveId
    {
      assert IsObjectiveRow(scores[i]) && IsObjectiveRow(scores[j]);
    }
  }

  /** The first round with the given number (`WHERE number = ? ... First`). */
  function RoundIdByNumber(rounds: seq<Round>, number: int): (r: Option<nat>)
    ensures r.Some? <==> exists i :: 0 <= i < |rounds| && rounds[i].number == number
    ensures r.Some? ==> exists i :: 0 <= i < |rounds| && rounds[i].number == number && rounds[i].id == r.value
                                    && forall k :: 0 <= k < i ==> rounds[k].number != number
  {
    if |rounds| == 0 then None
    else if rounds[0].number == number then Some(rounds[0].id)
    else
      var r := RoundIdByNumber(rounds[1..], number);
      if r.Some? then
        var i :| 0 <= i < |rounds[1..]| && rounds[1..][i].number == number && rounds[1..][i].id == r.value
                 && forall k :: 0 <= k < i ==> rounds[1..][k].number != number;
        assert rounds[i + 1] == rounds[1..][i];
        assert forall k :: 1 <= k < i + 1 ==> rounds[k] == rounds[1..][k - 1];
        r
      else r
  }

  const MsgNoCurrentRound := "current round not found"
  const MsgGameFinished := "game is already finished"

  /** GetCurrentRoundID: the id of the round numbered `game.currentRound`. */
  function CurrentRoundId(st: State): (r: Result<nat>)
    ensures r.Ok? <==> RoundIdByNumber(st.rounds, st.game.currentRound).Some?
    ensures r.Err? ==> r.msg == MsgNoCurrentRound
  {
    match RoundIdByNumber(st.rounds, st.game.currentRound)
    case None => Err(MsgNoCurrentRound)
    case Some(id) => Ok(id)
  }

  /** A round id larger than every existing one (the auto-increment key of the next insert). */
  function FreshRoundId(rounds: seq<Round>): (id: nat)
    ensures id > 0
    ensures forall i :: 0 <= i < |rounds| ==> rounds[i].id < id
  {
    if |rounds| == 0 then 1
    else
      var rest := FreshRoundId(rounds[1..]);
      assert forall i :: 1 <= i < |rounds| ==> rounds[i] == rounds[1..][i - 1];
      if rounds[0].id < rest then rest else rounds[0].id + 1
  }

  /** A game-player id larger than every existing one. */
  function FreshSeatId(players: seq<GamePlayer>): (id: nat)
    ensures id > 0
    ensures forall i :: 0 <= i < |players| ==> players[i].id < id
  {
    if |players| == 0 then 1
    else
      var rest := FreshSeatId(players[1..]);
      assert forall i :: 1 <= i < |players| ==> players[i] == players[1..][i - 1];
      if players[0].id < rest then rest else players[0].id + 1
  }

  /** `UPDATE game_players SET won = true WHERE player_id = ?`. */
  function MarkWon(players: seq<GamePlayer>, player: nat): (r: seq<GamePlayer>)
    ensures |r| == |players|
    ensures forall i :: 0 <= i < |players| ==>
              r[i] == if players[i].playerId == player then players[i].(won := true) else players[i]
  {
    seq(|players|, i requires 0 <= i < |players| =>
      if players[i].playerId == player then players[i].(won := true) else players[i])
  }

  /** Appends rows one insert at a time, as the services' loops over `Create` do. */
  method AppendInertRows(db: Db, rows: seq<Score>)
    requires db.Valid()
    requires forall k :: 0 <= k < |rows| ==> Inert(rows[k])
    modifies db
    ensures db.Valid()
    ensures db.Snapshot() == old(db.Snapshot()).(scores := old(db.scores) + rows)
  {
    var i := 0;
    while i < |rows|
      invariant 0 <= i <= |rows|
      invariant db.Valid()
      invariant db.scores == old(db.scores) + rows[..i]
      invariant db.Snapshot() == old(db.Snapshot()).(scores := db.scores)
    {
      InertRowKeepsInvariant(db.scores, db.catalog, |db.players|, rows[i]);
      db.scores := db.scores + [rows[i]];
      assert rows[..i + 1] == rows[..i] + [rows[i]];
      i := i + 1;
    }
    assert rows[..i] == rows;
  }

  class Db {
    var scores: seq<Score>
    var game: Game
    var players: seq<GamePlayer>
    var rounds: seq<Round>
    var objectives: seq<GameObjective>
    var speakers: seq<SpeakerAssignment>
    /** The objectives table, shared by all games and never written by the core. */
    const catalog: seq<Objective>

    function Snapshot(): State
      reads this
    {
      State(scores, game, players, rounds, objectives, speakers)
    }

    ghost predicate Valid()
      reads this
    {
      CatalogWellFormed(catalog) && LedgerInvariant(scores, catalog, |players|)
    }

    /** CreateGameAndRound: a new game with round 1, whose CurrentRound is 1. */
    constructor (catalog: seq<Objective>, gameId: nat, winningPoints: int, useDecks: bool)
      requires CatalogWellFormed(catalog)
      ensures this.catalog == catalog
      ensures game == Game(gameId, 1, winningPoints, false, None, useDecks, None)
      ensures |rounds| == 1 && rounds[0].number == 1 && rounds[0].id > 0
      ensures scores == [] && players == [] && objectives == [] && speakers == []
      ensures Valid()
    {
      this.catalog := catalog;
      var round1 := Round(FreshRoundId([]), 1);
      scores := [];
      players := [];
      objectives := [];
      speakers := [];
      rounds := [round1];
      game := Game(gameId, 1, winningPoints, false, None, useDecks, None);
      assert WithinCaps([], catalog) by {
        forall q ensures SecretCount([], catalog, q) <= SecretCap([], q) { }
      }
    }

    /** CreateGamePlayer: seats a player with a faction. */
    method AddGamePlayer(player: nat, faction: string) returns (seat: GamePlayer)
      requires Valid()
      modifies this
      ensures Valid()
      ensures seat.playerId == player && seat.faction == faction && !seat.won
      ensures forall i :: 0 <= i < |old(players)| ==> old(players)[i].id != seat.id
      ensures Snapshot() == old(Snapshot()).(players := old(players) + [seat])
    {
      seat := GamePlayer(FreshSeatId(players), player, faction, false);
      players := players + [seat];
    }
  }
}
