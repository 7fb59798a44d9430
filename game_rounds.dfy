/** Rounds and the public-objective reveal schedule (backend/services/game_rounds.go). */
module GameRounds {
  import opened Wrappers
  import opened Models
  import opened Store
  import opened ScoreFinish

  /** The number of game objectives `keep` selects. */
  function CountObjectives(objs: seq<GameObjective>, keep: GameObjective -> bool): nat
  {
    if |objs| == 0 then 0
    else CountObjectives(objs[..|objs| - 1], keep) + (if keep(objs[|objs| - 1]) then 1 else 0)
  }

  lemma {:induction false} CountObjectivesUpdate(objs: seq<GameObjective>, k: nat, y: GameObjective, keep: GameObjective -> bool)
    requires k < |objs|
    ensures CountObjectives(objs[k := y], keep) == CountObjectives(objs, keep) - (if keep(objs[k]) then 1 else 0) + (if keep(y) then 1 else 0)
    decreases |objs|
  {
    var n := |objs| - 1;
    if k < n {
      assert objs[k := y][..n] == objs[..n][k := y];
      CountObjectivesUpdate(objs[..n], k, y, keep);
    } else {
      assert objs[k := y][..n] == objs[..n];
    }
  }

  /** Stage I objectives placed in some round (`stage = 'I' AND round_id > 0`). */
  function StageIInRounds(objs: seq<GameObjective>): nat
  {
    CountObjectives(objs, (o: GameObjective) => o.stage == "I" && o.roundId > 0)
  }

  /** DetermineStageToReveal: Stage II once at least five Stage I objectives have a round. */
  function DetermineStageToReveal(objs: seq<GameObjective>): (r: string)
    ensures r == "I" || r == "II"
    ensures r == "II" <==> StageIInRounds(objs) >= 5
  {
    if StageIInRounds(objs) >= 5 then "II" else "I"
  }

  /** CountRevealedObjectives: game objectives with a non-zero round id. */
  function CountRevealedObjectives(objs: seq<GameObjective>): nat
  {
    CountObjectives(objs, (o: GameObjective) => o.roundId > 0)
  }

  predicate Revealable(o: GameObjective, stage: string)
  {
    o.roundId == 0 && o.stage == stage && !o.revealed
  }

  /** The first game objective of the stage still waiting with round id 0, unrevealed. */
  function FirstRevealable(objs: seq<GameObjective>, stage: string): (r: Option<nat>)
    ensures r.None? <==> forall i :: 0 <= i < |objs| ==> !Revealable(objs[i], stage)
    ensures r.Some? ==> r.value < |objs| && Revealable(objs[r.value], stage)
                        && forall i :: 0 <= i < r.value ==> !Revealable(objs[i], stage)
  {
    if |objs| == 0 then None
    else if Revealable(objs[0], stage) then Some(0)
    else
      var r := FirstRevealable(objs[1..], stage);
      assert forall i :: 1 <= i < |objs| ==> objs[i] == objs[1..][i - 1];
      if r.Some? then Some(r.value + 1) else None
  }

  /** The objectives after revealing the first waiting one of the stage in `round`. */
  function Reveal(objs: seq<GameObjective>, k: nat, round: nat): seq<GameObjective>
    requires k < |objs|
  {
    objs[k := objs[k].(roundId := round, revealed := true)]
  }

  const MsgRecordNotFound := "record not found"

  /** RevealNextObjective: the first waiting objective of the stage gets the round id and is
      marked revealed; with none waiting, nothing changes and the lookup error is returned. */
  method RevealNextObjective(db: Db, round: nat, stage: string) returns (err: Option<string>)
    requires db.Valid()
    modifies db
    ensures db.Valid()
    ensures err.Some? <==> FirstRevealable(old(db.objectives), stage).None?
    ensures err.Some? ==> err == Some(MsgRecordNotFound) && db.Snapshot() == old(db.Snapshot())
    ensures err.None? ==>
              db.Snapshot() == old(db.Snapshot()).(objectives := Reveal(old(db.objectives), FirstRevealable(old(db.objectives), stage).value, round))
  {
    var found := FirstRevealable(db.objectives, stage);
    if found.None? {
      return Some(MsgRecordNotFound);
    }
    var k := found.value;
    db.objectives := Reveal(db.objectives, k, round);
    err := None;
  }

  /** A reveal into a real round (id > 0) adds one to the revealed count, and to the Stage I
      count exactly when the stage is "I". */
  lemma RevealCounts(objs: seq<GameObjective>, stage: string, round: nat)
    requires FirstRevealable(objs, stage).Some? && round > 0
    ensures CountRevealedObjectives(Reveal(objs, FirstRevealable(objs, stage).value, round)) == CountRevealedObjectives(objs) + 1
    ensures StageIInRounds(Reveal(objs, FirstRevealable(objs, stage).value, round))
            == StageIInRounds(objs) + (if stage == "I" then 1 else 0)
  {
    var k := FirstRevealable(objs, stage).value;
    var y := objs[k].(roundId := round, revealed := true);
    CountObjectivesUpdate(objs, k, y, (o: GameObjective) => o.roundId > 0);
    CountObjectivesUpdate(objs, k, y, (o: GameObjective) => o.stage == "I" && o.roundId > 0);
  }

  /** CreateNewRound: inserts round CurrentRound + 1 and moves the game to it. */
  method CreateNewRound(db: Db) returns (round: Round)
    requires db.Valid()
    modifies db
    ensures db.Valid()
    ensures round.number == old(db.game.currentRound) + 1 && round.id > 0
    ensures forall i :: 0 <= i < |old(db.rounds)| ==> old(db.rounds)[i].id < round.id
    ensures db.Snapshot() == old(db.Snapshot()).(rounds := old(db.rounds) + [round],
                                                 game := old(db.game).(currentRound := round.number))
  {
    round := Round(FreshRoundId(db.rounds), db.game.currentRound + 1);
    db.rounds := db.rounds + [round];
    db.game := db.game.(currentRound := round.number);
  }

  /** The response of AdvanceGameRound. */
  datatype AdvanceResponse =
    | GameEnded(round: int, totalRevealed: nat, winner: Option<nat>)
    | RoundAdvanced(currentRound: int, revealed: string, totalRevealed: nat)

  /** AdvanceGameRound: refused for a finished game; at round 9 or later the game finishes by
      exhaustion and no round is created; otherwise a new round is created, the stage to
      reveal is chosen and one objective of it is revealed if any is waiting (a failed reveal
      is ignored). */
  method AdvanceGameRound(db: Db) returns (r: Result<AdvanceResponse>)
    requires db.Valid()
    modifies db
    ensures db.Valid()
    ensures old(db.game.finished) ==> r == Err(MsgGameFinished) && db.Snapshot() == old(db.Snapshot())
    ensures !old(db.game.finished) && old(db.game.currentRound) >= 9 ==>
              r.Ok? && r.value.GameEnded? && db.game.finished
              && db.Snapshot() == WinnerByScoreState(old(db.Snapshot()).(game := old(db.game).(finished := true)))
              && r.value == GameEnded(old(db.game.currentRound), CountRevealedObjectives(db.objectives), db.game.winner)
    ensures !old(db.game.finished) && old(db.game.currentRound) < 9 ==>
              r.Ok? && r.value.RoundAdvanced? && !db.game.finished
              && db.game == old(db.game).(currentRound := old(db.game.currentRound) + 1)
              && |db.rounds| == |old(db.rounds)| + 1 && db.rounds[..|old(db.rounds)|] == old(db.rounds)
              && db.rounds[|old(db.rounds)|].number == old(db.game.currentRound) + 1
              && db.scores == old(db.scores) && db.players == old(db.players) && db.speakers == old(db.speakers)
              && r.value.revealed == DetermineStageToReveal(old(db.objectives))
              && r.value.currentRound == old(db.game.currentRound) + 1
              && r.value.totalRevealed == CountRevealedObjectives(db.objectives)
              && (FirstRevealable(old(db.objectives), r.value.revealed).None? ==> db.objectives == old(db.objectives))
              && (FirstRevealable(old(db.objectives), r.value.revealed).Some? ==>
                    db.objectives == Reveal(old(db.objectives), FirstRevealable(old(db.objectives), r.value.revealed).value,
                                            db.rounds[|old(db.rounds)|].id)
                    && CountRevealedObjectives(db.objectives) == CountRevealedObjectives(old(db.objectives)) + 1)
  {
    if db.game.finished {
      return Err(MsgGameFinished);
    }
    if db.game.currentRound >= 9 {
      MaybeFinishGameFromExhaustion(db);
      return Ok(GameEnded(db.game.currentRound, CountRevealedObjectives(db.objectives), db.game.winner));
    }
    var newRound := CreateNewRound(db);
    var stage := DetermineStageToReveal(db.objectives);
    var revealErr := RevealNextObjective(db, newRound.id, stage);
    if revealErr.None? {
      RevealCounts(old(db.objectives), stage, newRound.id);
    }
    r := Ok(RoundAdvanced(db.game.currentRound, stage, CountRevealedObjectives(db.objectives)));
  }
}
