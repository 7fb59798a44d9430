/** Relic effects: Shard of the Throne, The Crown of Emphidia, The Obsidian and Book of
    Latvina (backend/services/relic_service.go). All of them append relic rows. */
module RelicService {
  import opened Wrappers
  import opened Text
  import opened Models
  import opened ScoringHelpers
  import opened ScoreValidation
  import opened Store
  import opened ScoreFinish

  predicate IsShardRow(x: Score)
  {
    x.kind == TypeRelic && x.relicTitle == ShardOfTheThrone
  }

  /** The player of the latest Shard row (`ORDER BY created_at DESC LIMIT 1`), if any. */
  function LastShardHolder(scores: seq<Score>): (r: Option<nat>)
    ensures r.None? <==> forall i :: 0 <= i < |scores| ==> !IsShardRow(scores[i])
    ensures r.Some? ==> exists i :: 0 <= i < |scores| && IsShardRow(scores[i]) && scores[i].playerId == r.value
                                    && forall j :: i < j < |scores| ==> !IsShardRow(scores[j])
  {
    if |scores| == 0 then None
    else if IsShardRow(scores[|scores| - 1]) then Some(scores[|scores| - 1].playerId)
    else
      var n := |scores| - 1;
      var prefix := scores[..n];
      var r := LastShardHolder(prefix);
      assert forall i :: 0 <= i < n ==> prefix[i] == scores[i];
      if r.Some? then
        var i :| 0 <= i < n && IsShardRow(prefix[i]) && prefix[i].playerId == r.value
                 && forall j :: i < j < n ==> !IsShardRow(prefix[j]);
        assert forall j :: i < j < |scores| ==> !IsShardRow(scores[j]) by {
          forall j | i < j < |scores| ensures !IsShardRow(scores[j]) {
            if j < n { assert scores[j] == prefix[j]; }
          }
        }
        r
      else r
  }

  /** The rows a Shard award appends: −1 for the latest holder when that is someone else,
      then +1 for the new holder. */
  function ShardRows(scores: seq<Score>, newHolder: nat): seq<Score>
  {
    (if LastShardHolder(scores).Some? && LastShardHolder(scores).value != newHolder
     then [RelicScore(LastShardHolder(scores).value, -1, ShardOfTheThrone)] else [])
    + [RelicScore(newHolder, 1, ShardOfTheThrone)]
  }

  /** The Shard points in play. */
  function ShardTotal(scores: seq<Score>): int
  {
    SumPoints(scores, IsShardRow)
  }

  /** A transfer from a different holder is a −1/+1 pair: the ledger total and the Shard
      total are unchanged, the old holder loses a point and the new holder gains one. */
  lemma ShardTransferConserves(scores: seq<Score>, newHolder: nat, q: nat)
    requires LastShardHolder(scores).Some? && LastShardHolder(scores).value != newHolder
    ensures Total(scores + ShardRows(scores, newHolder)) == Total(scores)
    ensures ShardTotal(scores + ShardRows(scores, newHolder)) == ShardTotal(scores)
    ensures PlayerTotal(scores + ShardRows(scores, newHolder), q)
            == PlayerTotal(scores, q) + (if q == newHolder then 1 else if q == LastShardHolder(scores).value then -1 else 0)
  {
    var old_ := LastShardHolder(scores).value;
    var minus := RelicScore(old_, -1, ShardOfTheThrone);
    var plus := RelicScore(newHolder, 1, ShardOfTheThrone);
    assert scores + ShardRows(scores, newHolder) == scores + [minus] + [plus];
    TotalSnoc(scores, minus);
    TotalSnoc(scores + [minus], plus);
    SumPointsSnoc(scores, minus, IsShardRow);
    SumPointsSnoc(scores + [minus], plus, IsShardRow);
    PlayerTotalSnoc(scores, minus, q);
    PlayerTotalSnoc(scores + [minus], plus, q);
  }

  /** Awarding the Shard to its latest holder, or for the first time, only adds +1. */
  lemma ShardRegrantOnlyAdds(scores: seq<Score>, newHolder: nat)
    requires LastShardHolder(scores).None? || LastShardHolder(scores).value == newHolder
    ensures ShardRows(scores, newHolder) == [RelicScore(newHolder, 1, ShardOfTheThrone)]
    ensures ShardTotal(scores + ShardRows(scores, newHolder)) == ShardTotal(scores) + 1
  {
    SumPointsSnoc(scores, RelicScore(newHolder, 1, ShardOfTheThrone), IsShardRow);
  }

  /** After a Shard award the new holder is the latest holder. */
  lemma ShardNewHolderIsLatest(scores: seq<Score>, newHolder: nat)
    ensures LastShardHolder(scores + ShardRows(scores, newHolder)) == Some(newHolder)
  {
    var t := scores + ShardRows(scores, newHolder);
    assert t[|t| - 1] == RelicScore(newHolder, 1, ShardOfTheThrone);
  }

  /** Inserts one relic row (CreateRelicScore and the relic literals). */
  method AppendRelicRow(db: Db, row: Score)
    requires db.Valid() && row.kind == TypeRelic
    modifies db
    ensures db.Valid()
    ensures db.Snapshot() == old(db.Snapshot()).(scores := old(db.scores) + [row])
  {
    RelicRowKeepsInvariant(db.scores, db.catalog, |db.players|, row);
    db.scores := db.scores + [row];
  }

  /** ApplyShardOfTheThrone: the Shard rows, then the victory check for the new holder. */
  method ApplyShardOfTheThrone(db: Db, cache: PathCache, others: OtherGames, newHolder: nat)
    requires db.Valid()
    modifies db, cache
    ensures db.Valid()
    ensures db.Snapshot() == VictoryCheck(old(db.Snapshot()).(scores := old(db.scores) + ShardRows(old(db.scores), newHolder)), newHolder)
    ensures CacheAfterCheck(old(cache.counts), cache.counts, db.catalog, others,
                            old(db.Snapshot()).(scores := old(db.scores) + ShardRows(old(db.scores), newHolder)), newHolder)
  {
    ghost var before := db.Snapshot();
    ghost var rows := ShardRows(db.scores, newHolder);
    var last := LastShardHolder(db.scores);
    if last.Some? && last.value != newHolder {
      AppendRelicRow(db, RelicScore(last.value, -1, ShardOfTheThrone));
    }
    AppendRelicRow(db, RelicScore(newHolder, 1, ShardOfTheThrone));
    assert db.scores == before.scores + rows;
    assert db.Snapshot() == before.(scores := before.scores + rows);
    MaybeFinishGameFromScore(db, cache, others, newHolder);
  }

  /** ApplyCrownOfEmphidia: +1 relic point, then the victory check. */
  method ApplyCrownOfEmphidia(db: Db, cache: PathCache, others: OtherGames, player: nat)
    requires db.Valid()
    modifies db, cache
    ensures db.Valid()
    ensures db.Snapshot() == VictoryCheck(old(db.Snapshot()).(scores := old(db.scores) + [RelicScore(player, 1, CrownOfEmphidia)]), player)
    ensures CacheAfterCheck(old(cache.counts), cache.counts, db.catalog, others,
                            old(db.Snapshot()).(scores := old(db.scores) + [RelicScore(player, 1, CrownOfEmphidia)]), player)
  {
    AppendRelicRow(db, RelicScore(player, 1, CrownOfEmphidia));
    MaybeFinishGameFromScore(db, cache, others, player);
  }

  /** ApplyObsidian: a 0-point relic row. It moves no total, and it lifts the player's
      secret cap to 4. */
  method ApplyObsidian(db: Db, player: nat)
    requires db.Valid()
    modifies db
    ensures db.Valid()
    ensures db.Snapshot() == old(db.Snapshot()).(scores := old(db.scores) + [RelicScore(player, 0, TheObsidian)])
    ensures forall q :: PlayerTotal(db.scores, q) == PlayerTotal(old(db.scores), q)
    ensures SecretCap(db.scores, player) == 4
  {
    ghost var before := db.scores;
    AppendRelicRow(db, RelicScore(player, 0, TheObsidian));
    forall q ensures PlayerTotal(db.scores, q) == PlayerTotal(before, q) {
      PlayerTotalSnoc(before, RelicScore(player, 0, TheObsidian), q);
    }
    ObsidianLiftsCap(before, player);
  }

  /** An Obsidian row gives its player the fourth secret slot. */
  lemma ObsidianLiftsCap(scores: seq<Score>, player: nat)
    ensures SecretCap(scores + [RelicScore(player, 0, TheObsidian)], player) == 4
  {
    var t := scores + [RelicScore(player, 0, TheObsidian)];
    assert ToLower(TypeRelic) == TypeRelic;
    assert ToLower(TheObsidian) == "the obsidian";
    assert t[|scores|] == RelicScore(player, 0, TheObsidian);
  }

  /** ApplyBookOfLatvina: +1 relic point, with no victory check. */
  method ApplyBookOfLatvina(db: Db, player: nat)
    requires db.Valid()
    modifies db
    ensures db.Valid()
    ensures db.Snapshot() == old(db.Snapshot()).(scores := old(db.scores) + [RelicScore(player, 1, BookOfLatvina)])
  {
    AppendRelicRow(db, RelicScore(player, 1, BookOfLatvina));
  }
}
