/** Victory-point statistics over stored games (backend/helpers/stats/points.go): the spread
    between the leading and the trailing player of each game, and the make-up of each winner's
    points. Database errors are left out; every game record is read whole. */
module VictoryPoints {
  import opened Wrappers
  import opened Text
  import opened Models
  import opened ScoringHelpers
  import opened Sorting
  import opened Tally
  import opened GameRecords
  import opened VictoryPathKey

  // ---------------------------------------------------------------------------------------
  // Point spreads

  /** The spread of a list of totals: largest minus smallest, or nothing for fewer than two. */
  function SpreadOf(t: seq<int>): (r: Option<int>)
    ensures r.Some? ==> r.value >= 0
  {
    if |t| < 2 then None else Some(MaxOf(t) - MinOf(t))
  }

  /** The spread of a game: the leader's total minus the trailer's total over the rows reached
      through its rounds, or nothing when fewer than two players have such a row. */
  function Spread(g: GameRecord): (r: Option<int>)
    ensures r.Some? ==> r.value >= 0
  {
    SpreadOf(Totals(RoundScores(g.rounds, g.scores)))
  }

  /** A game has a spread exactly when at least two players scored in its rounds, and the
      spread is then the largest difference between two of their totals. */
  lemma SpreadIsLargestGap(g: GameRecord)
    ensures Spread(g).Some? <==> |PlayerIds(RoundScores(g.rounds, g.scores))| >= 2
    ensures Spread(g).Some? ==>
              var rs := RoundScores(g.rounds, g.scores);
              (forall p, q :: p in PlayerIds(rs) && q in PlayerIds(rs) ==>
                 PlayerTotal(rs, p) - PlayerTotal(rs, q) <= Spread(g).value)
              && (exists p, q :: p in PlayerIds(rs) && q in PlayerIds(rs)
                   && PlayerTotal(rs, p) - PlayerTotal(rs, q) == Spread(g).value)
  {
    var rs := RoundScores(g.rounds, g.scores);
    var ps := Players(rs);
    var t := Totals(rs);
    PlayersCount(rs);
    if |t| >= 2 {
      forall p, q | p in PlayerIds(rs) && q in PlayerIds(rs)
        ensures PlayerTotal(rs, p) - PlayerTotal(rs, q) <= MaxOf(t) - MinOf(t)
      {
        var i :| 0 <= i < |ps| && ps[i] == p;
        var j :| 0 <= j < |ps| && ps[j] == q;
        assert t[i] == PlayerTotal(rs, p) && t[j] == PlayerTotal(rs, q);
      }
      var i :| 0 <= i < |t| && t[i] == MaxOf(t);
      var j :| 0 <= j < |t| && t[j] == MinOf(t);
      assert ps[i] in PlayerIds(rs) && ps[j] in PlayerIds(rs);
      assert PlayerTotal(rs, ps[i]) - PlayerTotal(rs, ps[j]) == Spread(g).value;
    }
  }

  /** One game's spread as the loop body computes it: totals collected in map order, sorted
      ascending, last minus first. */
  method GameSpread(g: GameRecord) returns (d: Option<int>)
    ensures d == Spread(g)
  {
    ghost var t := Totals(RoundScores(g.rounds, g.scores));
    var vals := CollectTotals(RoundScores(g.rounds, g.scores));
    assert |vals| == |multiset(vals)| == |t|;
    if |vals| < 2 {
      return None;
    }
    var sorted := SortBy(vals, Ascending);
    SortAscending(vals);
    SpreadOfSorted(t, sorted);
    d := Some(sorted[|sorted| - 1] - sorted[0]);
  }

  /** Any ascending permutation of the totals has the spread between its ends. */
  lemma SpreadOfSorted(t: seq<int>, sorted: seq<int>)
    requires multiset(sorted) == multiset(t) && Sorted(sorted, Ascending) && |t| >= 2
    ensures |sorted| == |t| && SpreadOf(t) == Some(sorted[|sorted| - 1] - sorted[0])
  {
    assert |sorted| == |multiset(sorted)| == |t|;
    AscendingEnds(sorted);
    MaxMinPermutation(sorted, t);
  }

  /** The spreads of the games that have one, in game order. */
  function SpreadList(games: seq<GameRecord>): (r: seq<int>)
    ensures forall k :: 0 <= k < |r| ==> r[k] >= 0
  {
    if |games| == 0 then []
    else
      var rest := SpreadList(games[..|games| - 1]);
      match Spread(games[|games| - 1])
      case None => rest
      case Some(d) => rest + [d]
  }

  /** CalculateVictoryPointSpreads: how many games have each spread. */
  method CalculateVictoryPointSpreads(games: seq<GameRecord>) returns (spreads: map<int, nat>)
    ensures Counts(spreads, SpreadList(games))
    ensures forall d :: d in spreads ==> d >= 0
  {
    spreads := map[];
    var i := 0;
    while i < |games|
      invariant i <= |games|
      invariant Counts(spreads, SpreadList(games[..i]))
    {
      assert games[..i + 1][..i] == games[..i];
      var d := GameSpread(games[i]);
      if d.Some? {
        BumpCounts(spreads, SpreadList(games[..i]), d.value);
        spreads := Bump(spreads, d.value);
      }
      i := i + 1;
    }
    assert games[..i] == games;
    forall d | d in spreads ensures d >= 0 {
      var ks := SpreadList(games);
      if d < 0 {
        NoOccurrence(ks, d);
      }
    }
  }

  /** One spread per contested game. */
  lemma {:induction false} SpreadListLength(games: seq<GameRecord>)
    ensures |SpreadList(games)| == ContestedCount(games)
  {
    if |games| > 0 {
      SpreadListLength(games[..|games| - 1]);
      SpreadIsLargestGap(games[|games| - 1]);
    }
  }

  /** The bucket counts add up to the number of games with at least two scoring players. */
  lemma BucketsCountContestedGames(games: seq<GameRecord>, spreads: map<int, nat>)
    requires Counts(spreads, SpreadList(games))
    ensures MapTotal(spreads) == ContestedCount(games)
  {
    CountsTotal(spreads, SpreadList(games));
    SpreadListLength(games);
  }

  /** A value smaller than every element does not occur. */
  lemma {:induction false} NoOccurrence(ks: seq<int>, d: int)
    requires forall k :: 0 <= k < |ks| ==> d < ks[k]
    ensures Occurrences(ks, d) == 0
  {
    if |ks| > 0 {
      NoOccurrence(ks[..|ks| - 1], d);
    }
  }

  // ---------------------------------------------------------------------------------------
  // Victory paths

  /** Where a row counts in a victory path. */
  datatype Category = Stage1 | Stage2 | Secret | Custodians | Imperial | Relic | Agenda | ActionCard | Support | Ignored

  /** The switch on the lower-cased row type: a public row counts as secret when it was
      originally secret, otherwise by its objective's stage ("I" or "II") when the objective
      exists; types outside the switch count nowhere. */
  function CategoryOf(catalog: seq<Objective>, x: Score): Category
  {
    var t := ToLower(x.kind);
    if t == "public" then
      if x.originallySecret then Secret
      else match FindObjective(catalog, x.objectiveId)
        case None => Ignored
        case Some(o) =>
          if o.id != 0 && o.stage == "I" then Stage1
          else if o.id != 0 && o.stage == "II" then Stage2
          else Ignored
    else if t == "secret" then Secret
    else if t == "custodians" || t == "mecatol" then Custodians
    else if t == "imperial" then Imperial
    else if t == "relic" then Relic
    else if t == "agenda" then Agenda
    else if t == "imperial_rider" then ActionCard
    else if t == "support" then Support
    else Ignored
  }

  /** Which row types land in which category. */
  lemma CategoryOfMeaning(catalog: seq<Objective>, x: Score, c: Category)
    requires c == CategoryOf(catalog, x)
    ensures c == Secret ==> ToLower(x.kind) in {"secret", "public"}
    ensures c == Custodians <==> ToLower(x.kind) in {"custodians", "mecatol"}
    ensures c == Support <==> ToLower(x.kind) == "support"
    ensures c == Stage1 ==> ToLower(x.kind) == "public" && !x.originallySecret
                            && FindObjective(catalog, x.objectiveId).Some?
                            && FindObjective(catalog, x.objectiveId).value.stage == "I"
    ensures c == Stage2 ==> ToLower(x.kind) == "public" && !x.originallySecret
                            && FindObjective(catalog, x.objectiveId).Some?
                            && FindObjective(catalog, x.objectiveId).value.stage == "II"
  {
  }

  /** The player's rows in a category. */
  function InCategory(catalog: seq<Objective>, player: nat, c: Category): Score -> bool
  {
    (x: Score) => x.playerId == player && CategoryOf(catalog, x) == c
  }

  /** The path a player's rows add up to: each field sums its category, stage II counts rows. */
  function PathOf(catalog: seq<Objective>, scores: seq<Score>, player: nat): VictoryPath
  {
    VictoryPath(
      SumPoints(scores, InCategory(catalog, player, Stage1)),
      CountWhere(scores, InCategory(catalog, player, Stage2)),
      SumPoints(scores, InCategory(catalog, player, Secret)),
      SumPoints(scores, InCategory(catalog, player, Custodians)),
      SumPoints(scores, InCategory(catalog, player, Imperial)),
      SumPoints(scores, InCategory(catalog, player, Relic)),
      SumPoints(scores, InCategory(catalog, player, Agenda)),
      SumPoints(scores, InCategory(catalog, player, ActionCard)),
      SumPoints(scores, InCategory(catalog, player, Support)))
  }

  /** The path after one more row of the game. */
  function AddRow(vp: VictoryPath, catalog: seq<Objective>, player: nat, x: Score): VictoryPath
  {
    if x.playerId != player then vp
    else
      match CategoryOf(catalog, x)
      case Stage1 => vp.(stage1Points := vp.stage1Points + x.points)
      case Stage2 => vp.(stage2Scored := vp.stage2Scored + 1)
      case Secret => vp.(secretPoints := vp.secretPoints + x.points)
      case Custodians => vp.(custodians := vp.custodians + x.points)
      case Imperial => vp.(imperial := vp.imperial + x.points)
      case Relic => vp.(relics := vp.relics + x.points)
      case Agenda => vp.(agenda := vp.agenda + x.points)
      case ActionCard => vp.(actionCard := vp.actionCard + x.points)
      case Support => vp.(support := vp.support + x.points)
      case Ignored => vp
  }

  lemma PathOfSnoc(catalog: seq<Objective>, s: seq<Score>, x: Score, player: nat)
    ensures PathOf(catalog, s + [x], player) == AddRow(PathOf(catalog, s, player), catalog, player, x)
  {
    forall c | c != Stage2 {
      SumPointsSnoc(s, x, InCategory(catalog, player, c));
    }
    CountWhereSnoc(s, x, InCategory(catalog, player, Stage2));
  }

  /** CalculateVictoryPath: one pass over the game's rows, adding each of the player's rows to
      the field of its category. */
  method CalculateVictoryPath(catalog: seq<Objective>, scores: seq<Score>, player: nat) returns (vp: VictoryPath)
    ensures vp == PathOf(catalog, scores, player)
  {
    vp := VictoryPath(0, 0, 0, 0, 0, 0, 0, 0, 0);
    var i := 0;
    while i < |scores|
      invariant i <= |scores|
      invariant vp == PathOf(catalog, scores[..i], player)
    {
      var x := scores[i];
      assert scores[..i + 1] == scores[..i] + [x];
      PathOfSnoc(catalog, scores[..i], x, player);
      if x.playerId == player {
        match CategoryOf(catalog, x)
        case Stage1 => vp := vp.(stage1Points := vp.stage1Points + x.points);
        case Stage2 => vp := vp.(stage2Scored := vp.stage2Scored + 1);
        case Secret => vp := vp.(secretPoints := vp.secretPoints + x.points);
        case Custodians => vp := vp.(custodians := vp.custodians + x.points);
        case Imperial => vp := vp.(imperial := vp.imperial + x.points);
        case Relic => vp := vp.(relics := vp.relics + x.points);
        case Agenda => vp := vp.(agenda := vp.agenda + x.points);
        case ActionCard => vp := vp.(actionCard := vp.actionCard + x.points);
        case Support => vp := vp.(support := vp.support + x.points);
        case Ignored =>
      }
      i := i + 1;
    }
    assert scores[..i] == scores;
  }

  /** The points a path records. */
  function PathPoints(vp: VictoryPath): int
  {
    vp.stage1Points + vp.secretPoints + vp.custodians + vp.imperial + vp.relics
    + vp.agenda + vp.actionCard + vp.support
  }

  /** The player's rows whose category is one of `cs`. */
  function Among(catalog: seq<Objective>, player: nat, cs: set<Category>): Score -> bool
  {
    (x: Score) => x.playerId == player && CategoryOf(catalog, x) in cs
  }

  /** The player's rows whose points a path does not record: stage II rows (counted, not
      summed) and rows of types outside the switch. */
  function Unrecorded(catalog: seq<Objective>, player: nat): Score -> bool
  {
    Among(catalog, player, {Stage2, Ignored})
  }

  /** Every point of the player is either recorded in the path or in an unrecorded row. */
  lemma PathAccountsForTotal(catalog: seq<Objective>, scores: seq<Score>, player: nat)
    ensures PathPoints(PathOf(catalog, scores, player)) + SumPoints(scores, Unrecorded(catalog, player))
            == PlayerTotal(scores, player)
  {
    CategoriesPartition(catalog, scores, player);
  }

  /** The categories whose points a path sums first, with the unrecorded ones. */
  const LowerCategories: set<Category> := {Stage2, Ignored, Stage1, Secret, Custodians, Imperial}

  /** The player's total splits into the unrecorded points and one sum per summed category. */
  lemma CategoriesPartition(catalog: seq<Objective>, scores: seq<Score>, player: nat)
    ensures PlayerTotal(scores, player)
            == SumPoints(scores, Unrecorded(catalog, player))
               + SumPoints(scores, InCategory(catalog, player, Stage1))
               + SumPoints(scores, InCategory(catalog, player, Secret))
               + SumPoints(scores, InCategory(catalog, player, Custodians))
               + SumPoints(scores, InCategory(catalog, player, Imperial))
               + SumPoints(scores, InCategory(catalog, player, Relic))
               + SumPoints(scores, InCategory(catalog, player, Agenda))
               + SumPoints(scores, InCategory(catalog, player, ActionCard))
               + SumPoints(scores, InCategory(catalog, player, Support))
  {
    LowerPartition(catalog, scores, player);
    UpperPartition(catalog, scores, player);
  }

  lemma LowerPartition(catalog: seq<Objective>, scores: seq<Score>, player: nat)
    ensures SumPoints(scores, Among(catalog, player, LowerCategories))
            == SumPoints(scores, Unrecorded(catalog, player))
               + SumPoints(scores, InCategory(catalog, player, Stage1))
               + SumPoints(scores, InCategory(catalog, player, Secret))
               + SumPoints(scores, InCategory(catalog, player, Custodians))
               + SumPoints(scores, InCategory(catalog, player, Imperial))
  {
    var cs := {Stage2, Ignored};
    AmongSplit(catalog, scores, player, cs, Stage1);
    cs := cs + {Stage1};
    AmongSplit(catalog, scores, player, cs, Secret);
    cs := cs + {Secret};
    AmongSplit(catalog, scores, player, cs, Custodians);
    cs := cs + {Custodians};
    AmongSplit(catalog, scores, player, cs, Imperial);
    cs := cs + {Imperial};
    assert cs == LowerCategories;
  }

  lemma UpperPartition(catalog: seq<Objective>, scores: seq<Score>, player: nat)
    ensures PlayerTotal(scores, player)
            == SumPoints(scores, Among(catalog, player, LowerCategories))
               + SumPoints(scores, InCategory(catalog, player, Relic))
               + SumPoints(scores, InCategory(catalog, player, Agenda))
               + SumPoints(scores, InCategory(catalog, player, ActionCard))
               + SumPoints(scores, InCategory(catalog, player, Support))
  {
    var cs := LowerCategories;
    AmongSplit(catalog, scores, player, cs, Relic);
    cs := cs + {Relic};
    AmongSplit(catalog, scores, player, cs, Agenda);
    cs := cs + {Agenda};
    AmongSplit(catalog, scores, player, cs, ActionCard);
    cs := cs + {ActionCard};
    AmongSplit(catalog, scores, player, cs, Support);
    cs := cs + {Support};
    forall c: Category
      ensures c in cs
    {
      assert c.Stage1? || c.Stage2? || c.Secret? || c.Custodians? || c.Imperial? || c.Relic?
             || c.Agenda? || c.ActionCard? || c.Support? || c.Ignored?;
    }
    AmongEvery(catalog, scores, player, cs);
  }

  /** Adding one category to a set adds that category's points. */
  lemma {:induction false} AmongSplit(catalog: seq<Objective>, scores: seq<Score>, player: nat, cs: set<Category>, c: Category)
    requires c !in cs
    ensures SumPoints(scores, Among(catalog, player, cs + {c}))
            == SumPoints(scores, Among(catalog, player, cs)) + SumPoints(scores, InCategory(catalog, player, c))
  {
    if |scores| > 0 {
      AmongSplit(catalog, scores[..|scores| - 1], player, cs, c);
    }
  }

  /** Over every category, the player's rows are all of the player's rows. */
  lemma {:induction false} AmongEvery(catalog: seq<Objective>, scores: seq<Score>, player: nat, cs: set<Category>)
    requires forall c: Category :: c in cs
    ensures SumPoints(scores, Among(catalog, player, cs)) == PlayerTotal(scores, player)
  {
    if |scores| > 0 {
      AmongEvery(catalog, scores[..|scores| - 1], player, cs);
      PlayerTotalLast(scores, player);
    }
  }


  /** The first seat marked as winner (`WHERE game_id = ? AND won = ? ... First`). */
  function FirstWinner(players: seq<GamePlayer>): (r: Option<GamePlayer>)
    ensures r.None? <==> forall k :: 0 <= k < |players| ==> !players[k].won
    ensures r.Some? ==> r.value.won && r.value in players
    ensures r.Some? ==> exists k :: 0 <= k < |players| && players[k] == r.value
                                    && forall j :: 0 <= j < k ==> !players[j].won
  {
    if |players| == 0 then None
    else if players[0].won then Some(players[0])
    else
      var r := FirstWinner(players[1..]);
      assert forall k :: 1 <= k < |players| ==> players[k] == players[1..][k - 1];
      r
  }

  /** The winners' paths of the games that have a winner, in game order. */
  function WinnerPaths(catalog: seq<Objective>, games: seq<GameRecord>): seq<VictoryPath>
  {
    if |games| == 0 then []
    else
      var rest := WinnerPaths(catalog, games[..|games| - 1]);
      var g := games[|games| - 1];
      match FirstWinner(g.players)
      case None => rest
      case Some(w) => rest + [PathOf(catalog, g.scores, w.playerId)]
  }

  /** The winners' paths of two runs of games joined are those of each run in turn. */
  lemma {:induction false} WinnerPathsAppend(catalog: seq<Objective>, a: seq<GameRecord>, b: seq<GameRecord>)
    ensures WinnerPaths(catalog, a + b) == WinnerPaths(catalog, a) + WinnerPaths(catalog, b)
    decreases |b|
  {
    if |b| > 0 {
      var b' := b[..|b| - 1];
      assert (a + b)[..|a + b| - 1] == a + b';
      assert (a + b)[|a + b| - 1] == b[|b| - 1];
      WinnerPathsAppend(catalog, a, b');
    } else {
      assert a + b == a;
    }
  }

  /** The keys of the paths, in order. */
  function Keys(ps: seq<VictoryPath>): seq<string>
  {
    if |ps| == 0 then [] else Keys(ps[..|ps| - 1]) + [FormatVictoryPathKey(ps[|ps| - 1])]
  }

  /** CalculateCommonVictoryPaths: for each game with a winner, the key of the winner's path,
      counted. */
  method CalculateCommonVictoryPaths(catalog: seq<Objective>, games: seq<GameRecord>) returns (pathCounts: map<string, nat>)
    ensures Counts(pathCounts, Keys(WinnerPaths(catalog, games)))
  {
    pathCounts := map[];
    var i := 0;
    while i < |games|
      invariant i <= |games|
      invariant Counts(pathCounts, Keys(WinnerPaths(catalog, games[..i])))
    {
      assert games[..i + 1][..i] == games[..i];
      var winner := FirstWinner(games[i].players);
      if winner.Some? {
        var path := CalculateVictoryPath(catalog, games[i].scores, winner.value.playerId);
        var key := FormatVictoryPathKey(path);
        ghost var before := WinnerPaths(catalog, games[..i]);
        assert Keys(before + [path]) == Keys(before) + [key] by {
          assert (before + [path])[..|before|] == before;
        }
        BumpCounts(pathCounts, Keys(before), key);
        pathCounts := Bump(pathCounts, key);
      }
      i := i + 1;
    }
    assert games[..i] == games;
  }

  /** Because distinct paths have distinct keys, the count of a key is the number of games
      whose winner took exactly that path. */
  lemma {:induction false} KeyCountIsPathCount(ps: seq<VictoryPath>, p: VictoryPath)
    ensures Occurrences(Keys(ps), FormatVictoryPathKey(p)) == Occurrences(ps, p)
  {
    if |ps| > 0 {
      var ps' := ps[..|ps| - 1];
      var q := ps[|ps| - 1];
      assert ps == ps' + [q];
      KeyCountIsPathCount(ps', p);
      var kq, kp := FormatVictoryPathKey(q), FormatVictoryPathKey(p);
      assert Keys(ps) == Keys(ps') + [kq];
      OccurrencesSnoc(Keys(ps'), kq, kp);
      OccurrencesSnoc(ps', q, p);
      if kq == kp {
        KeyInjective(q, p);
      }
    }
  }
}
