/** Finished or unfinished games as the statistics and achievement queries load them: the game
    row with its seats, its rounds and its score rows. Shared by the statistics modules. */
module GameRecords {
  import opened Models
  import opened ScoringHelpers
  import opened Sorting

  /** A stored game and the rows preloaded with it. `partial` is the game's `partial` flag. */
  datatype GameRecord = GameRecord(
    game: Game,
    partial: bool,
    players: seq<GamePlayer>,
    rounds: seq<Round>,
    scores: seq<Score>)

  predicate HasRound(rounds: seq<Round>, id: nat)
  {
    exists k :: 0 <= k < |rounds| && rounds[k].id == id
  }

  /** The rows reachable through the game's rounds (`Preload("Rounds.Scores")`): rows whose
      round id names a round of the game, in row order. */
  function RoundScores(rounds: seq<Round>, scores: seq<Score>): (r: seq<Score>)
    ensures |r| <= |scores|
    ensures forall x :: x in r <==> x in scores && HasRound(rounds, x.roundId)
    ensures forall x :: multiset(r)[x] == if HasRound(rounds, x.roundId) then multiset(scores)[x] else 0
  {
    if |scores| == 0 then []
    else
      var rest := RoundScores(rounds, scores[..|scores| - 1]);
      var x := scores[|scores| - 1];
      assert scores == scores[..|scores| - 1] + [x];
      if HasRound(rounds, x.roundId) then rest + [x] else rest
  }

  /** One more row is reached, after the earlier ones, exactly when its round is the game's:
      the rows keep the ledger's order. */
  lemma RoundScoresSnoc(rounds: seq<Round>, scores: seq<Score>, x: Score)
    ensures RoundScores(rounds, scores + [x])
            == RoundScores(rounds, scores) + (if HasRound(rounds, x.roundId) then [x] else [])
  {
    assert (scores + [x])[..|scores|] == scores;
  }

  /** The players with a row, in order of first appearance. */
  function Players(scores: seq<Score>): (r: seq<nat>)
    ensures Distinct(r)
    ensures forall p :: p in r <==> p in PlayerIds(scores)
  {
    if |scores| == 0 then []
    else
      var s' := scores[..|scores| - 1];
      var x := scores[|scores| - 1];
      var rest := Players(s');
      assert scores == s' + [x];
      PlayerIdsSnoc(s', x);
      if x.playerId in rest then rest else rest + [x.playerId]
  }

  /** The totals of the listed players, in list order. */
  function TotalsOf(ps: seq<nat>, scores: seq<Score>): (r: seq<int>)
    ensures |r| == |ps|
    ensures forall i :: 0 <= i < |ps| ==> r[i] == PlayerTotal(scores, ps[i])
  {
    seq(|ps|, i requires 0 <= i < |ps| => PlayerTotal(scores, ps[i]))
  }

  /** The per-player totals of a game, one per player with a row. */
  function Totals(scores: seq<Score>): seq<int>
  {
    TotalsOf(Players(scores), scores)
  }

  lemma TotalsOfAppend(x: seq<nat>, y: seq<nat>, scores: seq<Score>)
    ensures TotalsOf(x + y, scores) == TotalsOf(x, scores) + TotalsOf(y, scores)
  {
    var l := TotalsOf(x + y, scores);
    var r := TotalsOf(x, scores) + TotalsOf(y, scores);
    assert |l| == |r|;
    forall i | 0 <= i < |l| ensures l[i] == r[i] {
      if i < |x| {
        assert (x + y)[i] == x[i];
      } else {
        assert (x + y)[i] == y[i - |x|];
      }
    }
  }

  /** Removing the player at position `k` removes that player's total from the bag. */
  lemma TotalsOfRemove(b: seq<nat>, k: nat, scores: seq<Score>)
    requires k < |b|
    ensures multiset(TotalsOf(b, scores))
            == multiset(TotalsOf(b[..k] + b[k + 1..], scores)) + multiset{PlayerTotal(scores, b[k])}
  {
    assert b == b[..k] + [b[k]] + b[k + 1..];
    TotalsOfAppend(b[..k] + [b[k]], b[k + 1..], scores);
    TotalsOfAppend(b[..k], [b[k]], scores);
    TotalsOfAppend(b[..k], b[k + 1..], scores);
  }

  /** Reordering the players reorders their totals. */
  lemma {:induction false} TotalsOfPermutation(a: seq<nat>, b: seq<nat>, scores: seq<Score>)
    requires multiset(a) == multiset(b)
    ensures multiset(TotalsOf(a, scores)) == multiset(TotalsOf(b, scores))
    decreases |a|
  {
    if |a| == 0 {
      assert |b| == |multiset(b)| == 0;
    } else {
      var n := |a| - 1;
      var p := a[n];
      assert p in multiset(b) by { assert p in a; }
      var k :| 0 <= k < |b| && b[k] == p;
      var a', b' := a[..n] + a[n + 1..], b[..k] + b[k + 1..];
      RemoveAt(a, n);
      RemoveAt(b, k);
      TotalsOfPermutation(a', b', scores);
      TotalsOfRemove(a, n, scores);
      TotalsOfRemove(b, k, scores);
    }
  }

  /** A duplicate-free list holds each of its elements once. */
  lemma {:induction false} DistinctMultiset(a: seq<nat>)
    requires Distinct(a)
    ensures multiset(a) == multiset(set x | x in a)
    decreases |a|
  {
    if |a| > 0 {
      var p := a[|a| - 1];
      var a' := a[..|a| - 1];
      assert a == a' + [p];
      assert Distinct(a');
      DistinctMultiset(a');
      assert p !in (set x | x in a');
      assert (set x | x in a) == (set x | x in a') + {p};
    }
  }

  /** Two duplicate-free lists of the same players are permutations of each other. */
  lemma SameDistinctPermutation(a: seq<nat>, b: seq<nat>)
    requires Distinct(a) && Distinct(b)
    requires forall p :: p in a <==> p in b
    ensures multiset(a) == multiset(b)
  {
    DistinctMultiset(a);
    DistinctMultiset(b);
    assert (set x | x in a) == (set x | x in b);
  }

  /** Collects the values of the per-player sum map in whatever order the map yields its keys
      (Go map iteration), as the spread statistics do before sorting. */
  method CollectTotals(scores: seq<Score>) returns (vals: seq<int>)
    ensures multiset(vals) == multiset(Totals(scores))
  {
    var summary := AggregatePlayerScores(scores);
    var keys := summary.Keys;
    vals := [];
    ghost var done: seq<nat> := [];
    while keys != {}
      invariant keys <= summary.Keys
      invariant Distinct(done)
      invariant forall p :: p in done <==> p in summary.Keys && p !in keys
      invariant vals == TotalsOf(done, scores)
      decreases |keys|
    {
      var p :| p in keys;
      vals := vals + [summary[p]];
      TotalsOfAppend(done, [p], scores);
      done := done + [p];
      keys := keys - {p};
    }
    SameDistinctPermutation(done, Players(scores));
    TotalsOfPermutation(done, Players(scores), scores);
  }

  /** The largest element. */
  function MaxOf(t: seq<int>): (m: int)
    requires |t| > 0
    ensures m in t
    ensures forall k :: 0 <= k < |t| ==> t[k] <= m
  {
    if |t| == 1 then t[0]
    else
      var rest := MaxOf(t[..|t| - 1]);
      assert forall k :: 0 <= k < |t| - 1 ==> t[k] == t[..|t| - 1][k];
      if t[|t| - 1] > rest then t[|t| - 1] else rest
  }

  /** The smallest element. */
  function MinOf(t: seq<int>): (m: int)
    requires |t| > 0
    ensures m in t
    ensures forall k :: 0 <= k < |t| ==> m <= t[k]
  {
    if |t| == 1 then t[0]
    else
      var rest := MinOf(t[..|t| - 1]);
      assert forall k :: 0 <= k < |t| - 1 ==> t[k] == t[..|t| - 1][k];
      if t[|t| - 1] < rest then t[|t| - 1] else rest
  }

  /** Reordering does not change the largest or the smallest element. */
  lemma MaxMinPermutation(t: seq<int>, u: seq<int>)
    requires multiset(t) == multiset(u) && |t| > 0
    ensures |u| > 0 && MaxOf(t) == MaxOf(u) && MinOf(t) == MinOf(u)
  {
    assert |u| == |multiset(u)| == |t|;
    forall a: seq<int>, b: seq<int> | multiset(a) == multiset(b) && |a| > 0 && |b| > 0
      ensures MaxOf(a) <= MaxOf(b) && MinOf(b) <= MinOf(a)
    {
      assert MaxOf(a) in multiset(b);
      assert MinOf(a) in multiset(b);
    }
  }

  /** `sort.Ints` order. */
  const Ascending: (int, int) -> bool := (a: int, b: int) => a <= b

  /** `sort.Reverse(sort.IntSlice(...))` order. */
  const Descending: (int, int) -> bool := (a: int, b: int) => a >= b

  /** Sorting ascending orders the totals. */
  lemma SortAscending(vals: seq<int>)
    ensures Sorted(SortBy(vals, Ascending), Ascending)
  {
    assert TotalPreorder(Ascending);
    SortBySorted(vals, Ascending);
  }

  /** Sorting descending orders the totals. */
  lemma SortDescending(vals: seq<int>)
    ensures Sorted(SortBy(vals, Descending), Descending)
  {
    assert TotalPreorder(Descending);
    SortBySorted(vals, Descending);
  }

  /** In ascending order the smallest element comes first and the largest last. */
  lemma AscendingEnds(r: seq<int>)
    requires Sorted(r, Ascending) && |r| > 0
    ensures MinOf(r) == r[0] && MaxOf(r) == r[|r| - 1]
  {
    var lo := MinOf(r);
    var hi := MaxOf(r);
    var i :| 0 <= i < |r| && r[i] == lo;
    var j :| 0 <= j < |r| && r[j] == hi;
    if i > 0 {
      assert Ascending(r[0], r[i]);
    }
    if j < |r| - 1 {
      assert Ascending(r[j], r[|r| - 1]);
    }
  }

  /** One total per scoring player. */
  lemma PlayersCount(scores: seq<Score>)
    ensures |Totals(scores)| == |PlayerIds(scores)|
  {
    var ps := Players(scores);
    DistinctMultiset(ps);
    assert (set p | p in ps) == PlayerIds(scores);
    assert |ps| == |multiset(ps)| == |multiset(PlayerIds(scores))|;
  }

  /** A game in which at least two players scored through its rounds. */
  predicate Contested(g: GameRecord)
  {
    |PlayerIds(RoundScores(g.rounds, g.scores))| >= 2
  }

  /** The number of contested games. */
  function ContestedCount(games: seq<GameRecord>): nat
  {
    if |games| == 0 then 0
    else ContestedCount(games[..|games| - 1]) + (if Contested(games[|games| - 1]) then 1 else 0)
  }
}
