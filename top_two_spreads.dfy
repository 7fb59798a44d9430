/** The older point-spread statistic (helpers/stats/points.go): per game, the leader's total
    minus the runner-up's total, counted over all games. */
module TopTwoSpreads {
  import opened Wrappers
  import opened Models
  import opened Sorting
  import opened Tally
  import opened GameRecords
  import opened VictoryPoints

  /** `t` without one occurrence of `v`. */
  function RemoveOne(t: seq<int>, v: int): (r: seq<int>)
    ensures v in t ==> |r| == |t| - 1 && multiset(r) == multiset(t) - multiset{v}
    ensures v !in t ==> r == t
  {
    if |t| == 0 then []
    else
      var init := t[..|t| - 1];
      var last := t[|t| - 1];
      assert t == init + [last];
      if last == v then init else RemoveOne(init, v) + [last]
  }

  /** The runner-up's total: the largest total once one copy of the largest is set aside, so
      two players tied for the lead give the leader's total again. */
  function RunnerUp(t: seq<int>): (r: int)
    requires |t| >= 2
    ensures r in t && r <= MaxOf(t)
  {
    var rest := RemoveOne(t, MaxOf(t));
    var m := MaxOf(rest);
    assert m in multiset(rest);
    m
  }

  /** The lead over the runner-up, or nothing for fewer than two totals. */
  function LeadOf(t: seq<int>): (r: Option<int>)
    ensures r.Some? ==> r.value >= 0
  {
    if |t| < 2 then None
    else Some(MaxOf(t) - RunnerUp(t))
  }

  /** The lead of a game, over the rows reached through its rounds. */
  function Lead(g: GameRecord): Option<int>
  {
    LeadOf(Totals(RoundScores(g.rounds, g.scores)))
  }

  /** In descending order the largest element comes first. */
  lemma DescendingFirst(r: seq<int>)
    requires Sorted(r, Descending) && |r| > 0
    ensures MaxOf(r) == r[0]
  {
    var j :| 0 <= j < |r| && r[j] == MaxOf(r);
    if j > 0 {
      assert Descending(r[0], r[j]);
    }
  }

  /** Any descending permutation of the totals has the leader first and the runner-up second. */
  lemma LeadOfSorted(t: seq<int>, sorted: seq<int>)
    requires multiset(sorted) == multiset(t) && Sorted(sorted, Descending) && |t| >= 2
    ensures |sorted| == |t| && LeadOf(t) == Some(sorted[0] - sorted[1])
  {
    assert |sorted| == |multiset(sorted)| == |t|;
    DescendingFirst(sorted);
    MaxMinPermutation(sorted, t);
    SortedTail(sorted, Descending);
    DescendingFirst(sorted[1..]);
    TailIsRest(sorted, t);
    MaxMinPermutation(sorted[1..], RemoveOne(t, MaxOf(t)));
  }

  /** Behind the first element of a permutation whose first element is the largest lie the
      other elements. */
  lemma TailIsRest(r: seq<int>, t: seq<int>)
    requires multiset(r) == multiset(t) && |r| > 0 && r[0] == MaxOf(t)
    ensures multiset(r[1..]) == multiset(RemoveOne(t, MaxOf(t)))
  {
    assert r == [r[0]] + r[1..];
    assert MaxOf(t) in multiset(t);
  }

  /** One game's lead as the loop body computes it: totals collected in map order, sorted
      descending, first minus second. */
  method GameLead(g: GameRecord) returns (d: Option<int>)
    ensures d == Lead(g)
  {
    ghost var t := Totals(RoundScores(g.rounds, g.scores));
    var vals := CollectTotals(RoundScores(g.rounds, g.scores));
    assert |vals| == |multiset(vals)| == |t|;
    if |vals| < 2 {
      return None;
    }
    var sorted := SortBy(vals, Descending);
    SortDescending(vals);
    LeadOfSorted(t, sorted);
    d := Some(sorted[0] - sorted[1]);
  }

  /** The leads of the games that have one, in game order. */
  function LeadList(games: seq<GameRecord>): seq<int>
  {
    if |games| == 0 then []
    else
      var rest := LeadList(games[..|games| - 1]);
      match Lead(games[|games| - 1])
      case None => rest
      case Some(d) => rest + [d]
  }

  /** CalculateVictoryPointSpreads (older version): how many games have each lead. */
  method CalculateVictoryPointSpreads(games: seq<GameRecord>) returns (spreads: map<int, nat>)
    ensures Counts(spreads, LeadList(games))
  {
    spreads := map[];
    var i := 0;
    while i < |games|
      invariant i <= |games|
      invariant Counts(spreads, LeadList(games[..i]))
    {
      assert games[..i + 1][..i] == games[..i];
      var d := GameLead(games[i]);
      if d.Some? {
        BumpCounts(spreads, LeadList(games[..i]), d.value);
        spreads := Bump(spreads, d.value);
      }
      i := i + 1;
    }
    assert games[..i] == games;
  }

  /** The two versions agree on which games count, the lead never exceeds the leader-to-last
      spread, and with exactly two players they are the same number. */
  lemma LeadWithinSpread(t: seq<int>)
    ensures LeadOf(t).Some? <==> SpreadOf(t).Some?
    ensures LeadOf(t).Some? ==> LeadOf(t).value <= SpreadOf(t).value
    ensures |t| == 2 ==> LeadOf(t) == SpreadOf(t)
  {
    if |t| == 2 {
      TwoTotals(t);
    }
  }

  /** With two totals the runner-up is the smaller one. */
  lemma TwoTotals(t: seq<int>)
    requires |t| == 2
    ensures RunnerUp(t) == MinOf(t)
  {
    var m := MaxOf(t);
    var lo := if t[0] <= t[1] then t[0] else t[1];
    assert t[..1] == [t[0]] && t == [t[0]] + [t[1]];
    assert MinOf(t) == lo;
    var rest := RemoveOne(t, m);
    if t[1] == m {
      assert rest == [t[0]];
    } else {
      assert RemoveOne([t[0]], m) == [];
      assert rest == [t[1]];
    }
    assert MaxOf(rest) == rest[0];
  }

  /** A game has a lead exactly when it is contested. */
  lemma LeadIffContested(g: GameRecord)
    ensures Lead(g).Some? <==> Contested(g)
  {
    PlayersCount(RoundScores(g.rounds, g.scores));
  }

  /** One lead per contested game. */
  lemma {:induction false} LeadListLength(games: seq<GameRecord>)
    ensures |LeadList(games)| == ContestedCount(games)
  {
    if |games| > 0 {
      LeadListLength(games[..|games| - 1]);
      LeadIffContested(games[|games| - 1]);
    }
  }

  /** The bucket counts add up to the number of games with at least two scoring players. */
  lemma BucketsCountContestedGames(games: seq<GameRecord>, spreads: map<int, nat>)
    requires Counts(spreads, LeadList(games))
    ensures MapTotal(spreads) == ContestedCount(games)
  {
    CountsTotal(spreads, LeadList(games));
    LeadListLength(games);
  }
}
