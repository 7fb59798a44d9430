/** Finishing a game: on reaching the winning points, or by exhaustion after the last round
    (backend/services/score_finish.go). */
module ScoreFinish {
  import opened Wrappers
  import opened Models
  import opened ScoringHelpers
  import opened Store
  import opened Tally
  import opened GameRecords
  import opened VictoryPoints
  import opened VictoryPathKey

  /** The store after MaybeFinishGameFromScore for `player`: only that player's total is
      examined; at or above the winning points the game is finished with that player as
      winner and the player's seats are marked won, otherwise nothing changes. There is no
      guard against an already finished game, so a later check can overwrite the winner. */
  function VictoryCheck(st: State, player: nat): (r: State)
    ensures r.scores == st.scores && r.rounds == st.rounds && r.objectives == st.objectives
            && r.speakers == st.speakers
    ensures r.players == if PlayerTotal(st.scores, player) >= st.game.winningPoints
                         then MarkWon(st.players, player) else st.players
    ensures r.game.finished <==> st.game.finished || PlayerTotal(st.scores, player) >= st.game.winningPoints
    ensures PlayerTotal(st.scores, player) >= st.game.winningPoints ==>
              r.game.winner == Some(player)
              && (forall i :: 0 <= i < |r.players| && r.players[i].playerId == player ==> r.players[i].won)
    ensures PlayerTotal(st.scores, player) < st.game.winningPoints ==> r == st
    ensures r.game.(finished := st.game.finished, winner := st.game.winner) == st.game
  {
    if PlayerTotal(st.scores, player) >= st.game.winningPoints then
      st.(game := st.game.(finished := true, winner := Some(player)), players := MarkWon(st.players, player))
    else st
  }

  /** The services' package-level CachedVictoryPathCounts: the victory-path key counts of
      the last recount, which the game detail reads. */
  class PathCache {
    var counts: map<string, nat>
  }

  /** The stored games other than this one, before and after it in the games table, as the
      recount reads them; the scoring operations never write them. */
  datatype OtherGames = OtherGames(earlier: seq<GameRecord>, later: seq<GameRecord>)

  /** This game as the recount reads it back: its seats, rounds and score rows (the `partial`
      flag plays no part in the recount). */
  function RecordOf(st: State): GameRecord
  {
    GameRecord(st.game, false, st.players, st.rounds, st.scores)
  }

  /** Every stored game, in table order, once `st` is this game's state. */
  function AllGames(others: OtherGames, st: State): seq<GameRecord>
  {
    others.earlier + [RecordOf(st)] + others.later
  }

  /** The cache after the victory check for `player` on `st`: on a win it is recounted over
      every stored game, this one with its seats already marked won (the `won` update comes
      before RefreshVictoryPathCache, the winner column after it); otherwise it is kept. */
  ghost predicate CacheAfterCheck(before: map<string, nat>, after: map<string, nat>, catalog: seq<Objective>,
                                  others: OtherGames, st: State, player: nat)
  {
    if PlayerTotal(st.scores, player) >= st.game.winningPoints
    then Counts(after, Keys(WinnerPaths(catalog, AllGames(others, VictoryCheck(st, player)))))
    else after == before
  }

  /** MaybeFinishGameFromScore: the victory check, and on a win the victory-path recount into
      the cache. */
  method MaybeFinishGameFromScore(db: Db, cache: PathCache, others: OtherGames, player: nat)
    requires db.Valid()
    modifies db, cache
    ensures db.Valid()
    ensures db.Snapshot() == VictoryCheck(old(db.Snapshot()), player)
    ensures CacheAfterCheck(old(cache.counts), cache.counts, db.catalog, others, old(db.Snapshot()), player)
  {
    var total := PlayerTotal(db.scores, player);
    if total >= db.game.winningPoints {
      db.game := db.game.(finished := true, winner := Some(player));
      db.players := MarkWon(db.players, player);
      var counts := CalculateCommonVictoryPaths(db.catalog, AllGames(others, db.Snapshot()));
      cache.counts := counts;
    }
  }

  /** On the game's first win the game contributes exactly the winner's path to the recount. */
  lemma FirstWinPath(catalog: seq<Objective>, st: State, player: nat)
    requires forall i :: 0 <= i < |st.players| ==> !st.players[i].won
    requires exists i :: 0 <= i < |st.players| && st.players[i].playerId == player
    requires PlayerTotal(st.scores, player) >= st.game.winningPoints
    ensures WinnerPaths(catalog, [RecordOf(VictoryCheck(st, player))]) == [PathOf(catalog, st.scores, player)]
  {
    var won := MarkWon(st.players, player);
    var i :| 0 <= i < |st.players| && st.players[i].playerId == player;
    assert won[i].won;
    var w := FirstWinner(won);
    var k :| 0 <= k < |won| && won[k] == w.value && forall j :: 0 <= j < k ==> !won[j].won;
    assert st.players[k].playerId == player;
    assert [RecordOf(VictoryCheck(st, player))][..0] == [];
  }

  /** On the game's first win the recount reads the other games' winning paths with the
      winner's path of this game between them. */
  lemma FirstWinPaths(catalog: seq<Objective>, others: OtherGames, st: State, player: nat)
    requires forall i :: 0 <= i < |st.players| ==> !st.players[i].won
    requires exists i :: 0 <= i < |st.players| && st.players[i].playerId == player
    requires PlayerTotal(st.scores, player) >= st.game.winningPoints
    ensures WinnerPaths(catalog, AllGames(others, VictoryCheck(st, player)))
            == WinnerPaths(catalog, others.earlier) + [PathOf(catalog, st.scores, player)] + WinnerPaths(catalog, others.later)
  {
    var rec := RecordOf(VictoryCheck(st, player));
    FirstWinPath(catalog, st, player);
    WinnerPathsAppend(catalog, others.earlier, [rec]);
    WinnerPathsAppend(catalog, others.earlier + [rec], others.later);
  }

  /** On the game's first win, the recounted cache counts the winner's path once for this game
      on top of its count over the other games. */
  lemma FirstWinCountedOnce(catalog: seq<Objective>, others: OtherGames, st: State, player: nat,
                            counts: map<string, nat>)
    requires forall i :: 0 <= i < |st.players| ==> !st.players[i].won
    requires exists i :: 0 <= i < |st.players| && st.players[i].playerId == player
    requires PlayerTotal(st.scores, player) >= st.game.winningPoints
    requires CacheAfterCheck(map[], counts, catalog, others, st, player)
    ensures var p := PathOf(catalog, st.scores, player);
            FormatVictoryPathKey(p) in counts
            && counts[FormatVictoryPathKey(p)]
               == Occurrences(WinnerPaths(catalog, others.earlier) + WinnerPaths(catalog, others.later), p) + 1
  {
    var p := PathOf(catalog, st.scores, player);
    var e, l := WinnerPaths(catalog, others.earlier), WinnerPaths(catalog, others.later);
    FirstWinPaths(catalog, others, st, player);
    KeyCountIsPathCount(e + [p] + l, p);
    OccurrencesAppend(e + [p], l, p);
    OccurrencesSnoc(e, p, p);
    OccurrencesAppend(e, l, p);
  }

  /** The player with the highest summed points among those with rows; the first such
      candidate on a tie. */
  function BestPlayer(candidates: seq<nat>, scores: seq<Score>): (r: nat)
    requires |candidates| > 0
    ensures r in candidates
    ensures forall c :: c in candidates ==> PlayerTotal(scores, c) <= PlayerTotal(scores, r)
  {
    if |candidates| == 1 then candidates[0]
    else
      var best := BestPlayer(candidates[1..], scores);
      assert forall c :: c in candidates ==> c == candidates[0] || c in candidates[1..];
      if PlayerTotal(scores, candidates[0]) >= PlayerTotal(scores, best) then candidates[0] else best
  }

  /** The single row of `SELECT player_id, SUM(points) ... GROUP BY player_id ORDER BY points
      DESC LIMIT 1`: a player with a maximal total among those with rows, or nothing for an
      empty ledger. */
  function TopScorer(scores: seq<Score>): (r: Option<nat>)
    ensures r.None? <==> |scores| == 0
    ensures r.Some? ==> r.value in PlayerIds(scores)
    ensures r.Some? ==> forall q :: q in PlayerIds(scores) ==> PlayerTotal(scores, q) <= PlayerTotal(scores, r.value)
  {
    if |scores| == 0 then None
    else
      var candidates := seq(|scores|, i requires 0 <= i < |scores| => scores[i].playerId);
      assert forall q :: q in PlayerIds(scores) ==> q in candidates by {
        forall q | q in PlayerIds(scores) ensures q in candidates {
          var i :| 0 <= i < |scores| && scores[i].playerId == q;
          assert candidates[i] == q;
        }
      }
      var best := BestPlayer(candidates, scores);
      assert exists i :: 0 <= i < |candidates| && candidates[i] == best;
      Some(best)
  }

  /** The store after WinnerByScore: the top scorer becomes the winner and its seats are
      marked won, unless there is none or it is the placeholder player 0. */
  function WinnerByScoreState(st: State): (r: State)
    ensures r.scores == st.scores && r.rounds == st.rounds && r.objectives == st.objectives
            && r.speakers == st.speakers && |r.players| == |st.players|
    ensures r.game.(winner := st.game.winner) == st.game
    ensures r.game.winner != st.game.winner ==>
              r.game.winner.Some? && r.game.winner.value != 0 && r.game.winner.value in PlayerIds(st.scores)
              && forall q :: q in PlayerIds(st.scores) ==> PlayerTotal(st.scores, q) <= PlayerTotal(st.scores, r.game.winner.value)
    ensures (forall q :: q in PlayerIds(st.scores) ==> q == 0) ==> r == st
    ensures TopScorer(st.scores).Some? && TopScorer(st.scores).value != 0 ==>
              r.game.winner == TopScorer(st.scores) && r.players == MarkWon(st.players, TopScorer(st.scores).value)
    ensures TopScorer(st.scores).None? || TopScorer(st.scores).value == 0 ==> r == st
  {
    match TopScorer(st.scores)
    case Some(w) =>
      if w != 0 then st.(game := st.game.(winner := Some(w)), players := MarkWon(st.players, w)) else st
    case None => st
  }

  /** A player other than 0 who outscores every other scorer wins by score, and every seat of
      that player is marked won while the other seats keep their flags. */
  lemma UniqueLeaderWinsByScore(st: State, p: nat)
    requires p != 0 && p in PlayerIds(st.scores)
    requires forall q :: q in PlayerIds(st.scores) && q != p ==> PlayerTotal(st.scores, q) < PlayerTotal(st.scores, p)
    ensures WinnerByScoreState(st).game.winner == Some(p)
    ensures forall i :: 0 <= i < |st.players| ==>
              WinnerByScoreState(st).players[i].won == (st.players[i].won || st.players[i].playerId == p)
  {
    var t := TopScorer(st.scores);
    assert t.Some? && t.value in PlayerIds(st.scores);
    assert PlayerTotal(st.scores, p) <= PlayerTotal(st.scores, t.value);
  }

  /** WinnerByScore. */
  method WinnerByScore(db: Db)
    requires db.Valid()
    modifies db
    ensures db.Valid()
    ensures db.Snapshot() == WinnerByScoreState(old(db.Snapshot()))
  {
    var top := TopScorer(db.scores);
    if top.Some? && top.value != 0 {
      db.game := db.game.(winner := Some(top.value));
      db.players := MarkWon(db.players, top.value);
    }
  }

  /** MaybeFinishGameFromExhaustion: the game is always finished, and the winner is taken
      from WinnerByScore. */
  method MaybeFinishGameFromExhaustion(db: Db)
    requires db.Valid()
    modifies db
    ensures db.Valid()
    ensures db.game.finished
    ensures db.Snapshot() == WinnerByScoreState(old(db.Snapshot()).(game := old(db.game).(finished := true)))
  {
    db.game := db.game.(finished := true);
    WinnerByScore(db);
  }
}
