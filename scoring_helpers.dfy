/** Record builders and per-player sums over the score ledger (helpers/scoring.go). */
module ScoringHelpers {
  import opened Wrappers
  import opened Models

  /** The sum of `points` over the rows `keep` selects; `SUM(points)` over a filtered
      query, with an empty selection giving 0. */
  function SumPoints(scores: seq<Score>, keep: Score -> bool): int
  {
    if |scores| == 0 then 0
    else SumPoints(scores[..|scores| - 1], keep) + (if keep(scores[|scores| - 1]) then scores[|scores| - 1].points else 0)
  }

  lemma {:induction false} SumPointsAppend(s: seq<Score>, t: seq<Score>, keep: Score -> bool)
    ensures SumPoints(s + t, keep) == SumPoints(s, keep) + SumPoints(t, keep)
    decreases |t|
  {
    if |t| == 0 {
      assert s + t == s;
    } else {
      var t' := t[..|t| - 1];
      assert (s + t)[..|s + t| - 1] == s + t';
      SumPointsAppend(s, t', keep);
    }
  }

  /** Appending one row changes a sum by that row's points exactly when the row is selected. */
  lemma SumPointsSnoc(s: seq<Score>, x: Score, keep: Score -> bool)
    ensures SumPoints(s + [x], keep) == SumPoints(s, keep) + (if keep(x) then x.points else 0)
  {
    assert (s + [x])[..|s|] == s;
  }

  /** The sum is unchanged by rewriting a row so that neither its selection nor its points change. */
  lemma {:induction false} SumPointsUpdate(s: seq<Score>, k: nat, y: Score, keep: Score -> bool)
    requires k < |s|
    requires keep(y) == keep(s[k]) && y.points == s[k].points
    ensures SumPoints(s[k := y], keep) == SumPoints(s, keep)
    decreases |s|
  {
    var n := |s| - 1;
    if k < n {
      assert s[k := y][..n] == s[..n][k := y];
      SumPointsUpdate(s[..n], k, y, keep);
    } else {
      assert s[k := y][..n] == s[..n];
    }
  }

  /** The number of rows `keep` selects; `COUNT(*)` over a filtered query. */
  function CountWhere(scores: seq<Score>, keep: Score -> bool): nat
  {
    if |scores| == 0 then 0
    else CountWhere(scores[..|scores| - 1], keep) + (if keep(scores[|scores| - 1]) then 1 else 0)
  }

  lemma CountWhereSnoc(s: seq<Score>, x: Score, keep: Score -> bool)
    ensures CountWhere(s + [x], keep) == CountWhere(s, keep) + (if keep(x) then 1 else 0)
  {
    assert (s + [x])[..|s|] == s;
  }

  /** Rewriting one row in place moves the count by that row's change of selection. */
  lemma {:induction false} CountWhereUpdate(s: seq<Score>, k: nat, y: Score, keep: Score -> bool)
    requires k < |s|
    ensures CountWhere(s[k := y], keep) == CountWhere(s, keep) - (if keep(s[k]) then 1 else 0) + (if keep(y) then 1 else 0)
    decreases |s|
  {
    var n := |s| - 1;
    if k < n {
      assert s[k := y][..n] == s[..n][k := y];
      CountWhereUpdate(s[..n], k, y, keep);
    } else {
      assert s[k := y][..n] == s[..n];
    }
  }

  /** A positive count has a selected row as witness, and a selected row makes the count positive. */
  lemma {:induction false} CountWherePositive(s: seq<Score>, keep: Score -> bool)
    ensures CountWhere(s, keep) > 0 <==> exists i :: 0 <= i < |s| && keep(s[i])
    decreases |s|
  {
    if |s| > 0 {
      var n := |s| - 1;
      CountWherePositive(s[..n], keep);
      if CountWhere(s[..n], keep) > 0 {
        var i :| 0 <= i < n && keep(s[..n][i]);
        assert keep(s[i]);
      }
      if exists i :: 0 <= i < |s| && keep(s[i]) {
        var i :| 0 <= i < |s| && keep(s[i]);
        if i < n { assert s[..n][i] == s[i]; }
      }
    }
  }

  /** All points in the ledger. */
  function Total(scores: seq<Score>): int
  {
    SumPoints(scores, (x: Score) => true)
  }

  /** GetPlayerTotalPoints / GetTotalPoints: the sum of one player's points. */
  function PlayerTotal(scores: seq<Score>, player: nat): int
  {
    SumPoints(scores, (x: Score) => x.playerId == player)
  }

  lemma PlayerTotalSnoc(s: seq<Score>, x: Score, player: nat)
    ensures PlayerTotal(s + [x], player) == PlayerTotal(s, player) + (if x.playerId == player then x.points else 0)
  {
    SumPointsSnoc(s, x, (y: Score) => y.playerId == player);
  }

  /** A total over a non-empty ledger is the total before its last row plus that row. */
  lemma PlayerTotalLast(scores: seq<Score>, player: nat)
    requires |scores| > 0
    ensures PlayerTotal(scores, player)
            == PlayerTotal(scores[..|scores| - 1], player)
               + (if scores[|scores| - 1].playerId == player then scores[|scores| - 1].points else 0)
  {
  }

  lemma TotalSnoc(s: seq<Score>, x: Score)
    ensures Total(s + [x]) == Total(s) + x.points
  {
    SumPointsSnoc(s, x, (y: Score) => true);
  }

  /** The ids of the players that have at least one row. */
  function PlayerIds(scores: seq<Score>): set<nat>
  {
    set i | 0 <= i < |scores| :: scores[i].playerId
  }

  lemma PlayerIdsSnoc(s: seq<Score>, x: Score)
    ensures PlayerIds(s + [x]) == PlayerIds(s) + {x.playerId}
  {
    var t := s + [x];
    forall p | p in PlayerIds(t) ensures p in PlayerIds(s) + {x.playerId} {
      var i :| 0 <= i < |t| && t[i].playerId == p;
      if i < |s| { assert s[i] == t[i]; }
    }
    forall p | p in PlayerIds(s) ensures p in PlayerIds(t) {
      var i :| 0 <= i < |s| && s[i].playerId == p;
      assert t[i] == s[i];
    }
    assert t[|s|] == x;
  }

  // ---------------------------------------------------------------------------------------
  // Record builders

  /** CreateRelicScore: a relic row carries no round and no objective. */
  function RelicScore(player: nat, points: int, relicTitle: string): Score
  {
    Score(0, player, 0, points, TypeRelic, "", relicTitle, false)
  }

  /** CreateBasicScore and the literal rows of the score services. */
  function BasicScore(round: nat, player: nat, points: int, kind: string): Score
  {
    Score(round, player, 0, points, kind, "", "", false)
  }

  /** CreateAgendaScore. */
  function AgendaScore(round: nat, player: nat, points: int, agendaTitle: string, objective: nat): Score
  {
    Score(round, player, objective, points, TypeAgenda, agendaTitle, "", false)
  }

  /** The catalog row with the given id, if any (`First(&obj, id)`). */
  function FindObjective(catalog: seq<Objective>, id: nat): (r: Option<Objective>)
    ensures r.Some? <==> exists i :: 0 <= i < |catalog| && catalog[i].id == id
    ensures r.Some? ==> r.value in catalog && r.value.id == id
  {
    if |catalog| == 0 then None
    else if catalog[0].id == id then Some(catalog[0])
    else FindObjective(catalog[1..], id)
  }

  /** CreateObjectiveScore: the row for scoring an objective. Its type is "secret" exactly
      when the objective's stage is "Secret", otherwise "public". */
  function ObjectiveScore(catalog: seq<Objective>, round: nat, player: nat, objective: nat, points: int): (r: Result<Score>)
    ensures r.Ok? <==> FindObjective(catalog, objective).Some?
    ensures r.Ok? ==> r.value.kind == TypeSecret || r.value.kind == TypePublic
    ensures r.Ok? ==> (r.value.kind == TypeSecret <==> FindObjective(catalog, objective).value.stage == "Secret")
    ensures r.Ok? ==> r.value.playerId == player && r.value.objectiveId == objective
                      && r.value.roundId == round && r.value.points == points
  {
    match FindObjective(catalog, objective)
    case None => Err("record not found")
    case Some(obj) =>
      Ok(Score(round, player, objective, points, if obj.stage == "Secret" then TypeSecret else TypePublic, "", "", false))
  }

  // ---------------------------------------------------------------------------------------
  // Per-player aggregation

  /** AggregatePlayerScores: one entry per player that has a row, holding that player's sum. */
  method AggregatePlayerScores(scores: seq<Score>) returns (summary: map<nat, int>)
    ensures summary.Keys == PlayerIds(scores)
    ensures forall p :: p in summary ==> summary[p] == PlayerTotal(scores, p)
  {
    summary := map[];
    var i := 0;
    while i < |scores|
      invariant i <= |scores|
      invariant summary.Keys == PlayerIds(scores[..i])
      invariant forall p :: p in summary ==> summary[p] == PlayerTotal(scores[..i], p)
    {
      var s := scores[i];
      var points := if s.playerId in summary then summary[s.playerId] else 0;
      summary := summary[s.playerId := points + s.points];
      assert scores[..i + 1] == scores[..i] + [s];
      PlayerIdsSnoc(scores[..i], s);
      forall p | p in summary ensures summary[p] == PlayerTotal(scores[..i + 1], p) {
        PlayerTotalSnoc(scores[..i], s, p);
        if p == s.playerId && s.playerId !in PlayerIds(scores[..i]) {
          PlayerTotalAbsent(scores[..i], p);
        }
      }
      i := i + 1;
    }
    assert scores[..i] == scores;
  }

  /** A player with no rows has a zero total. */
  lemma {:induction false} PlayerTotalAbsent(scores: seq<Score>, player: nat)
    requires player !in PlayerIds(scores)
    ensures PlayerTotal(scores, player) == 0
    decreases |scores|
  {
    if |scores| > 0 {
      var s' := scores[..|scores| - 1];
      assert scores == s' + [scores[|scores| - 1]];
      PlayerIdsSnoc(s', scores[|scores| - 1]);
      PlayerTotalSnoc(s', scores[|scores| - 1], player);
      PlayerTotalAbsent(s', player);
    }
  }

  /** The player ids of the game's seats. */
  function SeatPlayerIds(players: seq<GamePlayer>): set<nat>
  {
    set i | 0 <= i < |players| :: players[i].playerId
  }

  /** GetPlayerScoresMap: every seated player starts at 0, then each row's points are added
      to its player, so every key maps to that player's sum. */
  method GetPlayerScoresMap(players: seq<GamePlayer>, scores: seq<Score>) returns (totals: map<nat, int>)
    ensures totals.Keys == SeatPlayerIds(players) + PlayerIds(scores)
    ensures forall p :: p in totals ==> totals[p] == PlayerTotal(scores, p)
  {
    totals := map[];
    var j := 0;
    while j < |players|
      invariant j <= |players|
      invariant totals.Keys == SeatPlayerIds(players[..j])
      invariant forall p :: p in totals ==> totals[p] == 0
    {
      totals := totals[players[j].playerId := 0];
      assert players[..j + 1] == players[..j] + [players[j]];
      j := j + 1;
    }
    assert players[..j] == players;
    var i := 0;
    while i < |scores|
      invariant i <= |scores|
      invariant totals.Keys == SeatPlayerIds(players) + PlayerIds(scores[..i])
      invariant forall p :: p in totals ==> totals[p] == PlayerTotal(scores[..i], p)
    {
      var s := scores[i];
      var prev := totals;
      var points := if s.playerId in totals then totals[s.playerId] else 0;
      totals := totals[s.playerId := points + s.points];
      assert scores[..i + 1] == scores[..i] + [s];
      PlayerIdsSnoc(scores[..i], s);
      forall p | p in totals ensures totals[p] == PlayerTotal(scores[..i + 1], p) {
        PlayerTotalSnoc(scores[..i], s, p);
        if p == s.playerId && s.playerId !in prev {
          PlayerTotalAbsent(scores[..i], p);
        }
      }
      i := i + 1;
    }
    assert scores[..i] == scores;
  }

  // ---------------------------------------------------------------------------------------
  // Conservation: per-player totals add up to the ledger total

  predicate Distinct(ps: seq<nat>)
  {
    forall i, j :: 0 <= i < j < |ps| ==> ps[i] != ps[j]
  }

  /** The sum of the totals of the listed players. */
  function SumOfTotals(ps: seq<nat>, scores: seq<Score>): int
  {
    if |ps| == 0 then 0 else PlayerTotal(scores, ps[0]) + SumOfTotals(ps[1..], scores)
  }

  lemma {:induction false} SumOfTotalsEmpty(ps: seq<nat>)
    ensures SumOfTotals(ps, []) == 0
    decreases |ps|
  {
    if |ps| > 0 {
      SumOfTotalsEmpty(ps[1..]);
    }
  }

  lemma {:induction false} SumOfTotalsSnoc(ps: seq<nat>, s: seq<Score>, x: Score)
    requires Distinct(ps)
    ensures SumOfTotals(ps, s + [x]) == SumOfTotals(ps, s) + (if x.playerId in ps then x.points else 0)
    decreases |ps|
  {
    if |ps| > 0 {
      PlayerTotalSnoc(s, x, ps[0]);
      assert Distinct(ps[1..]) by {
        forall i, j | 0 <= i < j < |ps[1..]| ensures ps[1..][i] != ps[1..][j] {
          assert ps[1..][i] == ps[i + 1] && ps[1..][j] == ps[j + 1];
        }
      }
      SumOfTotalsSnoc(ps[1..], s, x);
      if x.playerId == ps[0] {
        assert x.playerId !in ps[1..] by {
          forall k | 0 <= k < |ps[1..]| ensures ps[1..][k] != ps[0] {
            assert ps[1..][k] == ps[k + 1];
          }
        }
      } else {
        assert (x.playerId in ps) == (x.playerId in ps[1..]) by {
          assert ps == [ps[0]] + ps[1..];
        }
      }
    }
  }

  /** Per-player totals sum to the ledger total: listing every player with a row once,
      their summary points add up to the sum of all points. */
  lemma {:induction false} TotalsConserve(ps: seq<nat>, scores: seq<Score>)
    requires Distinct(ps)
    requires PlayerIds(scores) <= set p | p in ps
    ensures SumOfTotals(ps, scores) == Total(scores)
    decreases |scores|
  {
    if |scores| == 0 {
      SumOfTotalsEmpty(ps);
    } else {
      var s' := scores[..|scores| - 1];
      var x := scores[|scores| - 1];
      assert scores == s' + [x];
      PlayerIdsSnoc(s', x);
      TotalsConserve(ps, s');
      SumOfTotalsSnoc(ps, s', x);
      TotalSnoc(s', x);
    }
  }
}
