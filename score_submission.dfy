/** The scoring endpoints: objectives, Custodians, Imperial, Support for the Throne and the
    Imperial Rider (backend/services/score_submission.go). Each one checks its guards against
    the store and appends at most one row. */
module ScoreSubmission {
  import opened Wrappers
  import opened Text
  import opened Models
  import opened ScoringHelpers
  import opened ScoreValidation
  import opened Store
  import opened ScoreFinish

  const MsgObjectiveNotFound := "objective not found"
  const MsgAlreadyScored := "objective already scored by this player"
  const MsgMecatolTaken := "mecatol Rex point already awarded"
  const MsgInvalidAction := "invalid action: must be 'score' or 'unscore'"

  /** The success response of SubmitScore. `message` is "Game finished" when this score ended
      the game, and then `winner` is set. */
  datatype SubmitResponse = SubmitResponse(
    message: string,
    objective: string,
    points: int,
    round: int,
    totalPoints: int,
    winner: Option<nat>)

  /** The guards of SubmitScore, in the order the source checks them, and the row it appends
      when they all pass. */
  function SubmitScoreRow(st: State, catalog: seq<Objective>, player: nat, objective: nat): (r: Result<Score>)
    ensures st.game.finished ==> r == Err(MsgGameFinished)
    ensures CheckIfScoreExists(st.scores, player, objective) ==> r.Err?
    ensures r.Ok? ==> !st.game.finished && FindObjective(catalog, objective).Some?
                      && RoundIdByNumber(st.rounds, st.game.currentRound).Some?
    ensures r.Ok? ==> ValidateSecretScoringRules(st.scores, catalog, player, RoundIdByNumber(st.rounds, st.game.currentRound).value, objective).Pass?
    ensures r.Ok? ==> r == ObjectiveScore(catalog, RoundIdByNumber(st.rounds, st.game.currentRound).value, player, objective,
                                          FindObjective(catalog, objective).value.points)
    ensures r.Ok? ==> r.value.points == FindObjective(catalog, objective).value.points && IsObjectiveRow(r.value)
  {
    if st.game.finished then Err(MsgGameFinished)
    else match FindObjective(catalog, objective)
    case None => Err(MsgObjectiveNotFound)
    case Some(obj) =>
      match RoundIdByNumber(st.rounds, st.game.currentRound)
      case None => Err(MsgNoCurrentRound)
      case Some(round) =>
        var v := ValidateSecretScoringRules(st.scores, catalog, player, round, objective);
        if v.Fail? then Err(v.msg)
        else if CheckIfScoreExists(st.scores, player, objective) then Err(MsgAlreadyScored)
        else ObjectiveScore(catalog, round, player, objective, obj.points)
  }

  /** A row for a new (player, objective) pair keeps objective rows unique. */
  lemma FreshPairKeepsUnique(scores: seq<Score>, x: Score)
    requires UniqueObjectiveRows(scores)
    requires !CheckIfScoreExists(scores, x.playerId, x.objectiveId)
    ensures UniqueObjectiveRows(scores + [x])
  {
    var t := scores + [x];
    forall i, j | 0 <= i < j < |t| && IsObjectiveRow(t[i]) && IsObjectiveRow(t[j])
      ensures t[i].playerId != t[j].playerId || t[i].objectiveId != t[j].objectiveId
    {
      assert t[i] == scores[i];
      if j < |scores| { assert t[j] == scores[j]; }
    }
  }

  /** SubmitScore: on success exactly one row worth the objective's points is appended and
      the victory check runs for the scoring player; on failure nothing changes. */
  method SubmitScore(db: Db, cache: PathCache, others: OtherGames, player: nat, objective: nat)
    returns (r: Result<SubmitResponse>)
    requires db.Valid()
    modifies db, cache
    ensures db.Valid()
    ensures r.Err? ==> SubmitScoreRow(old(db.Snapshot()), db.catalog, player, objective) == Err(r.msg)
                       && db.Snapshot() == old(db.Snapshot()) && cache.counts == old(cache.counts)
    ensures r.Ok? <==> SubmitScoreRow(old(db.Snapshot()), db.catalog, player, objective).Ok?
    ensures r.Ok? ==>
              var row := SubmitScoreRow(old(db.Snapshot()), db.catalog, player, objective).value;
              db.Snapshot() == VictoryCheck(old(db.Snapshot()).(scores := old(db.scores) + [row]), player)
              && CacheAfterCheck(old(cache.counts), cache.counts, db.catalog, others,
                                 old(db.Snapshot()).(scores := old(db.scores) + [row]), player)
              && r.value.points == row.points
              && r.value.totalPoints == PlayerTotal(db.scores, player)
              && r.value.round == db.game.currentRound
              && (r.value.message == "Game finished" <==> db.game.finished)
              && (db.game.finished ==> r.value.winner == Some(player))
  {
    if db.game.finished {
      return Err(MsgGameFinished);
    }
    var found := FindObjective(db.catalog, objective);
    if found.None? {
      return Err(MsgObjectiveNotFound);
    }
    var obj := found.value;
    var roundId := RoundIdByNumber(db.rounds, db.game.currentRound);
    if roundId.None? {
      return Err(MsgNoCurrentRound);
    }
    var round := roundId.value;
    var v := ValidateSecretScoringRules(db.scores, db.catalog, player, round, objective);
    if v.Fail? {
      return Err(v.msg);
    }
    if CheckIfScoreExists(db.scores, player, objective) {
      return Err(MsgAlreadyScored);
    }
    var row := ObjectiveScore(db.catalog, round, player, objective, obj.points).value;
    AcceptedScoreKeepsWithinCap(db.scores, db.catalog, player, round, objective, obj.points);
    CountWhereSnoc(db.scores, row, (y: Score) => y.kind == TypeMecatol);
    SumPointsSnoc(db.scores, row, (y: Score) => y.kind == TypeSupport);
    FreshPairKeepsUnique(db.scores, row);
    db.scores := db.scores + [row];
    var total := PlayerTotal(db.scores, player);
    MaybeFinishGameFromScore(db, cache, others, player);
    var message := if db.game.finished then "Game finished" else "Score added";
    var winner := if db.game.finished then db.game.winner else None;
    r := Ok(SubmitResponse(message, obj.name, obj.points, db.game.currentRound, total, winner));
  }

  /** ScoreMecatolPoint: fails when the current round is missing or any Custodians row
      exists for any player; otherwise appends one 1-point "mecatol" row and runs the victory
      check. It does not look at whether the game is finished. */
  method ScoreMecatolPoint(db: Db, cache: PathCache, others: OtherGames, player: nat) returns (err: Option<string>)
    requires db.Valid()
    modifies db, cache
    ensures db.Valid()
    ensures MecatolCount(db.scores) <= 1
    ensures err.None? <==> CurrentRoundId(old(db.Snapshot())).Ok? && MecatolCount(old(db.scores)) == 0
    ensures CurrentRoundId(old(db.Snapshot())).Ok? && MecatolCount(old(db.scores)) > 0 ==> err == Some(MsgMecatolTaken)
    ensures err.Some? ==> db.Snapshot() == old(db.Snapshot()) && cache.counts == old(cache.counts)
    ensures err.None? ==>
              var row := BasicScore(CurrentRoundId(old(db.Snapshot())).value, player, 1, TypeMecatol);
              db.Snapshot() == VictoryCheck(old(db.Snapshot()).(scores := old(db.scores) + [row]), player)
              && CacheAfterCheck(old(cache.counts), cache.counts, db.catalog, others,
                                 old(db.Snapshot()).(scores := old(db.scores) + [row]), player)
  {
    var roundId := CurrentRoundId(db.Snapshot());
    if roundId.Err? {
      return Some(roundId.msg);
    }
    if MecatolCount(db.scores) > 0 {
      return Some(MsgMecatolTaken);
    }
    var row := BasicScore(roundId.value, player, 1, TypeMecatol);
    MecatolRowKeepsInvariant(db.scores, db.catalog, |db.players|, row);
    db.scores := db.scores + [row];
    MaybeFinishGameFromScore(db, cache, others, player);
    err := None;
  }

  /** The shape shared by the Imperial and Imperial Rider points: a current round, an
      unfinished game, one appended 1-point row and the victory check. */
  method AppendPointAndCheck(db: Db, cache: PathCache, others: OtherGames, round: nat, player: nat, kind: string)
    requires db.Valid()
    requires kind == TypeImperial || kind == TypeImperialRider
    modifies db, cache
    ensures db.Valid()
    ensures db.Snapshot() == VictoryCheck(old(db.Snapshot()).(scores := old(db.scores) + [BasicScore(round, player, 1, kind)]), player)
    ensures CacheAfterCheck(old(cache.counts), cache.counts, db.catalog, others,
                            old(db.Snapshot()).(scores := old(db.scores) + [BasicScore(round, player, 1, kind)]), player)
  {
    var row := BasicScore(round, player, 1, kind);
    InertRowKeepsInvariant(db.scores, db.catalog, |db.players|, row);
    db.scores := db.scores + [row];
    MaybeFinishGameFromScore(db, cache, others, player);
  }

  /** ScoreImperialPoint: needs a current round and an unfinished game, and nothing else (no
      Custodians prerequisite); appends one 1-point "imperial" row and runs the victory check. */
  method ScoreImperialPoint(db: Db, cache: PathCache, others: OtherGames, player: nat) returns (err: Option<string>)
    requires db.Valid()
    modifies db, cache
    ensures db.Valid()
    ensures err.None? <==> CurrentRoundId(old(db.Snapshot())).Ok? && !old(db.game.finished)
    ensures CurrentRoundId(old(db.Snapshot())).Ok? && old(db.game.finished) ==> err == Some(MsgGameFinished)
    ensures err.Some? ==> db.Snapshot() == old(db.Snapshot()) && cache.counts == old(cache.counts)
    ensures err.None? ==>
              var row := BasicScore(CurrentRoundId(old(db.Snapshot())).value, player, 1, TypeImperial);
              db.Snapshot() == VictoryCheck(old(db.Snapshot()).(scores := old(db.scores) + [row]), player)
              && CacheAfterCheck(old(cache.counts), cache.counts, db.catalog, others,
                                 old(db.Snapshot()).(scores := old(db.scores) + [row]), player)
  {
    var roundId := CurrentRoundId(db.Snapshot());
    if roundId.Err? {
      return Some(roundId.msg);
    }
    if db.game.finished {
      return Some(MsgGameFinished);
    }
    AppendPointAndCheck(db, cache, others, roundId.value, player, TypeImperial);
    err := None;
  }

  function SupportCapMessage(seats: int): string
  {
    "support for the Throne can only be scored a total of " + IntToString(seats - 1)
    + " times in a " + IntToString(seats) + "-player game"
  }

  /** ScoreSupportPoint: rejects once the game-wide net Support sum has reached seats − 1;
      otherwise appends one +1 "Support" row. It never runs the victory check. */
  method ScoreSupportPoint(db: Db, player: nat) returns (err: Option<string>)
    requires db.Valid()
    modifies db
    ensures db.Valid()
    ensures err.None? <==> CurrentRoundId(old(db.Snapshot())).Ok? && !old(db.game.finished)
                           && SupportTotal(old(db.scores)) < |db.players| - 1
    ensures CurrentRoundId(old(db.Snapshot())).Ok? && !old(db.game.finished) && SupportTotal(old(db.scores)) >= |db.players| - 1 ==>
              err == Some(SupportCapMessage(|db.players|))
    ensures err.Some? ==> db.Snapshot() == old(db.Snapshot())
    ensures err.None? ==>
              db.Snapshot() == old(db.Snapshot()).(scores := old(db.scores) + [BasicScore(CurrentRoundId(old(db.Snapshot())).value, player, 1, TypeSupport)])
              && SupportTotal(db.scores) == SupportTotal(old(db.scores)) + 1
  {
    var roundId := CurrentRoundId(db.Snapshot());
    if roundId.Err? {
      return Some(roundId.msg);
    }
    if db.game.finished {
      return Some(MsgGameFinished);
    }
    var seats := |db.players|;
    if SupportTotal(db.scores) >= seats - 1 {
      return Some(SupportCapMessage(seats));
    }
    var row := BasicScore(roundId.value, player, 1, TypeSupport);
    SupportRowKeepsInvariant(db.scores, db.catalog, |db.players|, row);
    db.scores := db.scores + [row];
    err := None;
  }

  /** LoseOneSupportPoint: for an unfinished game with a current round, appends a −1
      "Support" row with no floor on the player's Support; the insert's own error is
      discarded, so it then succeeds. */
  method LoseOneSupportPoint(db: Db, player: nat) returns (err: Option<string>)
    requires db.Valid()
    modifies db
    ensures db.Valid()
    ensures err.None? <==> CurrentRoundId(old(db.Snapshot())).Ok? && !old(db.game.finished)
    ensures err.Some? ==> db.Snapshot() == old(db.Snapshot())
    ensures err.None? ==>
              db.Snapshot() == old(db.Snapshot()).(scores := old(db.scores) + [BasicScore(CurrentRoundId(old(db.Snapshot())).value, player, -1, TypeSupport)])
              && SupportTotal(db.scores) == SupportTotal(old(db.scores)) - 1
  {
    var roundId := CurrentRoundId(db.Snapshot());
    if roundId.Err? {
      return Some(roundId.msg);
    }
    if db.game.finished {
      return Some(MsgGameFinished);
    }
    var row := BasicScore(roundId.value, player, -1, TypeSupport);
    SupportRowKeepsInvariant(db.scores, db.catalog, |db.players|, row);
    db.scores := db.scores + [row];
    err := None;
  }

  /** HandleSupportForTheThrone: "score" and "unscore" dispatch; any other action is an
      error that leaves the store unchanged. */
  method HandleSupportForTheThrone(db: Db, player: nat, action: string) returns (err: Option<string>)
    requires db.Valid()
    modifies db
    ensures db.Valid()
    ensures action != "score" && action != "unscore" ==> err == Some(MsgInvalidAction) && db.Snapshot() == old(db.Snapshot())
    ensures action == "score" || action == "unscore" ==>
              |old(db.scores)| <= |db.scores| <= |old(db.scores)| + 1 && db.scores[..|old(db.scores)|] == old(db.scores)
    ensures err.None? && action == "score" ==> SupportTotal(db.scores) == SupportTotal(old(db.scores)) + 1
    ensures err.None? && action == "unscore" ==> SupportTotal(db.scores) == SupportTotal(old(db.scores)) - 1
    ensures action == "score" ==>
              (err.None? <==> CurrentRoundId(old(db.Snapshot())).Ok? && !old(db.game.finished)
                              && SupportTotal(old(db.scores)) < |old(db.players)| - 1)
    ensures action == "unscore" ==> (err.None? <==> CurrentRoundId(old(db.Snapshot())).Ok? && !old(db.game.finished))
    ensures err.Some? ==> db.Snapshot() == old(db.Snapshot())
    ensures err.None? ==>
              (action == "score" || action == "unscore")
              && db.Snapshot() == old(db.Snapshot()).(scores := old(db.scores)
                   + [BasicScore(CurrentRoundId(old(db.Snapshot())).value, player, if action == "score" then 1 else -1, TypeSupport)])
  {
    if action == "score" {
      err := ScoreSupportPoint(db, player);
    } else if action == "unscore" {
      err := LoseOneSupportPoint(db, player);
    } else {
      err := Some(MsgInvalidAction);
    }
  }

  /** ScoreImperialRiderPoint: round id 0 means the current round; then an unfinished game,
      one 1-point "imperial_rider" row and the victory check. */
  method ScoreImperialRiderPoint(db: Db, cache: PathCache, others: OtherGames, round: nat, player: nat)
    returns (err: Option<string>)
    requires db.Valid()
    modifies db, cache
    ensures db.Valid()
    ensures err.None? <==> (round != 0 || CurrentRoundId(old(db.Snapshot())).Ok?) && !old(db.game.finished)
    ensures err.Some? ==> db.Snapshot() == old(db.Snapshot()) && cache.counts == old(cache.counts)
    ensures err.None? ==>
              var used := if round != 0 then round else CurrentRoundId(old(db.Snapshot())).value;
              var before := old(db.Snapshot()).(scores := old(db.scores) + [BasicScore(used, player, 1, TypeImperialRider)]);
              db.Snapshot() == VictoryCheck(before, player)
              && CacheAfterCheck(old(cache.counts), cache.counts, db.catalog, others, before, player)
  {
    var used := round;
    if round == 0 {
      var roundId := CurrentRoundId(db.Snapshot());
      if roundId.Err? {
        return Some(roundId.msg);
      }
      used := roundId.value;
    }
    if db.game.finished {
      return Some(MsgGameFinished);
    }
    AppendPointAndCheck(db, cache, others, used, player, TypeImperialRider);
    err := None;
  }
}
