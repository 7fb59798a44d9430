/** Per-game achievement badges (backend/services/achievements/game_compute.go): the fastest
    win, the most points in one round and the largest winning margin of one finished game,
    each compared with the all-time record. The games table is `history`; the grouped SQL
    queries the code reads its per-round totals and its all-time margin rows from are given as
    their result rows. */
module GameCompute {
  import opened Wrappers
  import opened Models
  import opened Sorting
  import opened GameRecords
  import opened TopTwoSpreads
  import opened AchievementHelper

  /** A badge shown on a game page. An empty status means neither new nor tied. */
  datatype Badge = Badge(key: string, name: string, value: int, status: string, holders: seq<Holder>)

  /** A row of getGameBestRoundTotals: a player's points in one round, keyed by round number. */
  datatype RoundTotal = RoundTotal(playerId: nat, roundNumber: nat, total: int)

  /** A row of getAllTimeMaxRoundPoints' inner query: a player's points in one round of one
      finished, complete game. */
  datatype GameRoundTotal = GameRoundTotal(gameId: nat, playerId: nat, roundNumber: nat, total: int)

  /** A database id; ids start at 1. */
  type RowId = n: nat | n > 0 witness 1

  /** A row of the all-time margin query: a player's total in one game. */
  datatype GameTotal = GameTotal(gameId: RowId, playerId: nat, total: int)

  const KeyFastestWin := "fastest_win"
  const LabelFastestWin := "Fastest Win"
  const KeyMostPointsInRound := "most_points_in_round"
  const LabelMostPointsInRound := "Most Points In A Round"
  const KeyLargestWinMargin := "largest_win_margin"
  const LabelLargestWinMargin := "Largest Win Margin"

  /** The game with the id, if stored. */
  function FindGame(history: seq<GameRecord>, id: nat): (r: Option<GameRecord>)
    ensures r.Some? ==> r.value in history && r.value.game.id == id
    ensures r.None? ==> forall k :: 0 <= k < |history| ==> history[k].game.id != id
  {
    if |history| == 0 then None
    else if history[0].game.id == id then Some(history[0])
    else FindGame(history[1..], id)
  }

  // ---------------------------------------------------------------- fastest win

  /** A game counted by getAllTimeMinRounds: finished, complete, and with round rows (the
      query counts `rounds` rows per game, so a game without any is absent). `skip` names a game
      to leave out of the record. */
  predicate CountsForRounds(h: GameRecord, skip: Option<nat>)
  {
    IsFinishedNonPartial(h) && |h.rounds| > 0 && skip != Some(h.game.id)
  }

  /** `MIN(cnt)` over the counted games; NULL when there are none. */
  function MinRounds(history: seq<GameRecord>, skip: Option<nat>): (r: Option<int>)
    ensures r.None? <==> forall k :: 0 <= k < |history| ==> !CountsForRounds(history[k], skip)
    ensures r.Some? ==> exists k :: 0 <= k < |history| && CountsForRounds(history[k], skip) && r.value == |history[k].rounds|
    ensures r.Some? ==> forall k :: 0 <= k < |history| && CountsForRounds(history[k], skip) ==> r.value <= |history[k].rounds|
  {
    if |history| == 0 then None
    else
      var n := |history| - 1;
      var rest := MinRounds(history[..n], skip);
      var h := history[n];
      assert forall k :: 0 <= k < n ==> history[..n][k] == history[k];
      if !CountsForRounds(h, skip) then rest
      else if rest.None? || |h.rounds| < rest.value then Some(|h.rounds|)
      else rest
  }

  /** computeFastestWinBadge against a given record: no badge when the round count is 0. */
  function FastestWinAgainst(g: GameRecord, record: Option<int>): (b: Option<Badge>)
    ensures b.None? <==> RoundCount(g) == 0
  {
    var rounds := RoundCount(g);
    if rounds == 0 then None
    else Some(Badge(KeyFastestWin, LabelFastestWin, rounds, CompareMinRecord(rounds, record), WinnerHolders(g)))
  }

  /** The badge as written: the record is taken over every counted game, the badged one too. */
  function FastestWinAsWritten(history: seq<GameRecord>, g: GameRecord): Option<Badge>
  {
    FastestWinAgainst(g, MinRounds(history, None))
  }

  /** As written, a stored game with rounds can never be reported as a new fastest win: its
      own round count is part of the record it is compared with. */
  lemma FastestWinNeverNew(history: seq<GameRecord>, k: nat)
    requires k < |history| && CountsForRounds(history[k], None)
    ensures FastestWinAsWritten(history, history[k]).Some?
    ensures FastestWinAsWritten(history, history[k]).value.status != StatusNew
  {
    assert RoundCount(history[k]) == |history[k].rounds|;
  }

  /** The fastest-win badge with the record taken over the other games. */
  function FastestWin(history: seq<GameRecord>, g: GameRecord): Option<Badge>
  {
    FastestWinAgainst(g, MinRounds(history, Some(g.game.id)))
  }

  /** The corrected badge is new exactly when every other counted game took more rounds, and
      tied exactly when the fewest rounds among them equal this game's. */
  lemma FastestWinStatus(history: seq<GameRecord>, g: GameRecord)
    requires RoundCount(g) > 0
    ensures FastestWin(history, g).Some?
    ensures FastestWin(history, g).value.value == RoundCount(g)
    ensures FastestWin(history, g).value.holders == WinnerHolders(g)
    ensures FastestWin(history, g).value.status == StatusNew <==>
              forall k :: 0 <= k < |history| && CountsForRounds(history[k], Some(g.game.id)) ==>
                RoundCount(g) < |history[k].rounds|
    ensures FastestWin(history, g).value.status == StatusTied <==>
              exists k :: 0 <= k < |history| && CountsForRounds(history[k], Some(g.game.id)) &&
                |history[k].rounds| == RoundCount(g) && MinRounds(history, Some(g.game.id)) == Some(RoundCount(g))
  {
    var rec := MinRounds(history, Some(g.game.id));
    if rec.Some? {
      var k :| 0 <= k < |history| && CountsForRounds(history[k], Some(g.game.id)) && rec.value == |history[k].rounds|;
    }
  }

  // ---------------------------------------------------------- most points in one round

  /** The leading rows whose total is `v`, up to the first that is not. */
  function LeadingRun(rows: seq<RoundTotal>, v: int): (r: seq<RoundTotal>)
    ensures |r| <= |rows| && r == rows[..|r|]
    ensures forall k :: 0 <= k < |r| ==> r[k].total == v
    ensures |r| < |rows| ==> rows[|r|].total != v
  {
    if |rows| == 0 || rows[0].total != v then []
    else [rows[0]] + LeadingRun(rows[1..], v)
  }

  /** One holder per row, naming the game and the row's round. */
  function RoundHolders(gameId: nat, rows: seq<RoundTotal>): (hs: seq<Holder>)
    ensures |hs| == |rows|
    ensures forall k :: 0 <= k < |rows| ==> hs[k] == Holder(rows[k].playerId, Some(gameId), Some(rows[k].roundNumber))
  {
    seq(|rows|, k requires 0 <= k < |rows| => Holder(rows[k].playerId, Some(gameId), Some(rows[k].roundNumber)))
  }

  /** The order of getGameBestRoundTotals: `total DESC`. */
  predicate ByTotalDesc(rows: seq<RoundTotal>)
  {
    forall i, j :: 0 <= i < j < |rows| ==> rows[i].total >= rows[j].total
  }

  /** computeMostPointsInRoundBadge: the first row's total, and its holders the rows sharing it
      up to the first that does not. */
  method MostPointsInRound(gameId: nat, rows: seq<RoundTotal>, record: Option<int>) returns (b: Option<Badge>)
    ensures |rows| == 0 ==> b.None?
    ensures |rows| > 0 ==> b == Some(Badge(KeyMostPointsInRound, LabelMostPointsInRound, rows[0].total,
                                           CompareMaxRecord(rows[0].total, record),
                                           RoundHolders(gameId, LeadingRun(rows, rows[0].total))))
  {
    if |rows| == 0 {
      return None;
    }
    var currentMax := rows[0].total;
    var holders: seq<Holder> := [];
    var i := 0;
    while i < |rows|
      invariant i <= |rows|
      invariant forall k :: 0 <= k < i ==> rows[k].total == currentMax
      invariant holders == RoundHolders(gameId, rows[..i])
    {
      if rows[i].total != currentMax {
        break;
      }
      holders := holders + [Holder(rows[i].playerId, Some(gameId), Some(rows[i].roundNumber))];
      i := i + 1;
    }
    LeadingRunIs(rows, currentMax, i);
    b := Some(Badge(KeyMostPointsInRound, LabelMostPointsInRound, currentMax,
                    CompareMaxRecord(currentMax, record), holders));
  }

  lemma LeadingRunIs(rows: seq<RoundTotal>, v: int, i: nat)
    requires i <= |rows|
    requires forall k :: 0 <= k < i ==> rows[k].total == v
    requires i < |rows| ==> rows[i].total != v
    ensures LeadingRun(rows, v) == rows[..i]
  {
    LeadingRunCovers(rows, v, i);
  }

  /** The run takes in every leading row whose total is `v`. */
  lemma {:induction false} LeadingRunCovers(rows: seq<RoundTotal>, v: int, m: nat)
    requires m <= |rows|
    requires forall k :: 0 <= k < m ==> rows[k].total == v
    ensures |LeadingRun(rows, v)| >= m
    decreases m
  {
    if m > 0 {
      LeadingRunCovers(rows[1..], v, m - 1);
    }
  }

  /** In `total DESC` order the holders are exactly the rows with the game's highest round
      total, whatever the order among them. */
  lemma MostPointsHoldersAreTop(rows: seq<RoundTotal>)
    requires ByTotalDesc(rows) && |rows| > 0
    ensures forall k :: 0 <= k < |rows| ==> rows[k].total <= rows[0].total
    ensures forall x :: x in LeadingRun(rows, rows[0].total) <==> x in rows && x.total == rows[0].total
  {
    RunRowsAreTop(rows);
    TopRowsInRun(rows);
  }

  lemma RunRowsAreTop(rows: seq<RoundTotal>)
    requires |rows| > 0
    ensures forall x :: x in LeadingRun(rows, rows[0].total) ==> x in rows && x.total == rows[0].total
  {
    var r := LeadingRun(rows, rows[0].total);
    forall x | x in r ensures x in rows {
      var k :| 0 <= k < |r| && r[k] == x;
      assert rows[..|r|][k] == rows[k];
    }
  }

  lemma TopRowsInRun(rows: seq<RoundTotal>)
    requires ByTotalDesc(rows) && |rows| > 0
    ensures forall x :: x in rows && x.total == rows[0].total ==> x in LeadingRun(rows, rows[0].total)
  {
    var r := LeadingRun(rows, rows[0].total);
    forall x | x in rows && x.total == rows[0].total ensures x in r {
      var k :| 0 <= k < |rows| && rows[k] == x;
      TopRowInRun(rows, k);
      assert r[k] == rows[..|r|][k];
    }
  }

  lemma TopRowInRun(rows: seq<RoundTotal>, k: nat)
    requires ByTotalDesc(rows) && k < |rows| && rows[k].total == rows[0].total
    ensures k < |LeadingRun(rows, rows[0].total)|
  {
    var v := rows[0].total;
    forall j | 0 <= j < k + 1 ensures rows[j].total == v {
      if 0 < j < k {
        assert rows[0].total >= rows[j].total >= rows[k].total;
      }
    }
    LeadingRunCovers(rows, v, k + 1);
  }

  /** getAllTimeMaxRoundPoints: `MAX(total)` over the inner query's rows, NULL without rows. */
  function MaxRoundTotal(rows: seq<GameRoundTotal>): (r: Option<int>)
    ensures r.None? <==> |rows| == 0
    ensures r.Some? ==> exists k :: 0 <= k < |rows| && rows[k].total == r.value
    ensures r.Some? ==> forall k :: 0 <= k < |rows| ==> rows[k].total <= r.value
  {
    if |rows| == 0 then None
    else
      var init := rows[..|rows| - 1];
      var prev := MaxRoundTotal(init);
      var last := rows[|rows| - 1].total;
      assert forall k :: 0 <= k < |init| ==> init[k] == rows[k];
      if prev.None? || last > prev.value then Some(last) else prev
  }

  /** The inner query's rows hold every getGameBestRoundTotals row of the game: once the game
      is finished and complete, both group the same scores by player and round number. */
  predicate IncludesGameRounds(all: seq<GameRoundTotal>, gameId: nat, rows: seq<RoundTotal>)
  {
    forall k :: 0 <= k < |rows| ==> GameRoundTotal(gameId, rows[k].playerId, rows[k].roundNumber, rows[k].total) in all
  }

  /** As written, the round record is taken over the badged game's own rows too, so its most
      points in a round is never reported as "new". */
  lemma MostPointsNeverNew(all: seq<GameRoundTotal>, gameId: nat, rows: seq<RoundTotal>)
    requires |rows| > 0 && IncludesGameRounds(all, gameId, rows)
    ensures MaxRoundTotal(all).Some?
    ensures CompareMaxRecord(rows[0].total, MaxRoundTotal(all)) != StatusNew
  {
    var x := GameRoundTotal(gameId, rows[0].playerId, rows[0].roundNumber, rows[0].total);
    var k :| 0 <= k < |all| && all[k] == x;
  }

  /** The inner query's rows of games other than `gameId`, in order. */
  function OtherGameRounds(all: seq<GameRoundTotal>, gameId: nat): (r: seq<GameRoundTotal>)
    ensures forall x :: x in r <==> x in all && x.gameId != gameId
  {
    if |all| == 0 then []
    else
      var init := all[..|all| - 1];
      var last := all[|all| - 1];
      assert all == init + [last];
      OtherGameRounds(init, gameId) + (if last.gameId != gameId then [last] else [])
  }

  /** With the record taken over the other games, the most points in a round is new exactly
      when no other game's round total reaches it, and tied exactly when the highest of them
      equals it. */
  lemma MostPointsStatus(all: seq<GameRoundTotal>, gameId: nat, rows: seq<RoundTotal>)
    requires |rows| > 0
    ensures var status := CompareMaxRecord(rows[0].total, MaxRoundTotal(OtherGameRounds(all, gameId)));
            (status == StatusNew <==> forall x :: x in all && x.gameId != gameId ==> x.total < rows[0].total)
            && (status == StatusTied <==>
                  (exists x :: x in all && x.gameId != gameId && x.total == rows[0].total)
                  && forall x :: x in all && x.gameId != gameId ==> x.total <= rows[0].total)
  {
    var o := OtherGameRounds(all, gameId);
    var rec := MaxRoundTotal(o);
    var v := rows[0].total;
    forall x | x in all && x.gameId != gameId ensures rec.Some? && x.total <= rec.value {
      assert x in o;
      var k :| 0 <= k < |o| && o[k] == x;
    }
    if rec.Some? {
      var k :| 0 <= k < |o| && o[k].total == rec.value;
      assert o[k] in all && o[k].gameId != gameId;
    }
  }

  // ------------------------------------------------------------ largest win margin

  /** getGameFinalTotals: the per-player totals in `total DESC` order. */
  function FinalTotals(g: GameRecord): (r: seq<int>)
    ensures multiset(r) == multiset(Totals(g.scores)) && Sorted(r, Descending)
  {
    SortDescending(Totals(g.scores));
    SortBy(Totals(g.scores), Descending)
  }

  /** The game's winning margin: the first total minus the second, or the only total alone. */
  function WinMargin(g: GameRecord): Option<int>
  {
    MarginOf(FinalTotals(g))
  }

  /** The margin read off totals in descending order. */
  function MarginOf(rows: seq<int>): Option<int>
  {
    if |rows| == 0 then None
    else if |rows| >= 2 then Some(rows[0] - rows[1])
    else Some(rows[0])
  }

  /** The margin is the leader's lead over the runner-up once two players scored, the only
      player's total when one did, and absent when nobody did. */
  lemma WinMarginIsLead(g: GameRecord)
    ensures |Totals(g.scores)| == 0 <==> WinMargin(g).None?
    ensures |Totals(g.scores)| >= 2 ==> WinMargin(g) == LeadOf(Totals(g.scores))
    ensures |Totals(g.scores)| == 1 ==> WinMargin(g) == Some(Totals(g.scores)[0])
  {
    SortedMargin(Totals(g.scores), FinalTotals(g));
  }

  /** First minus second of the descending order is the lead; a permutation of one element is
      that element. */
  lemma SortedMargin(t: seq<int>, r: seq<int>)
    requires multiset(r) == multiset(t) && Sorted(r, Descending)
    ensures |t| == 0 <==> MarginOf(r).None?
    ensures |t| >= 2 ==> MarginOf(r) == LeadOf(t)
    ensures |t| == 1 ==> MarginOf(r) == Some(t[0])
  {
    if |t| >= 2 {
      LeadOfSorted(t, r);
    }
    assert |r| == |multiset(r)| == |multiset(t)| == |t|;
    if |t| == 1 {
      assert r[0] in multiset(t) by { assert r[0] in r; }
      assert t == [t[0]];
      assert multiset(t) == multiset{t[0]};
    }
  }


  /** computeLargestWinMarginBadge against a given record. */
  function LargestWinMargin(g: GameRecord, record: Option<int>): (b: Option<Badge>)
    ensures b.None? <==> WinMargin(g).None?
    ensures b.Some? ==> b.value.value == WinMargin(g).value && b.value.holders == WinnerHolders(g)
                        && b.value.status == CompareMaxRecord(WinMargin(g).value, record)
  {
    match WinMargin(g)
    case None => None
    case Some(m) => Some(Badge(KeyLargestWinMargin, LabelLargestWinMargin, m, CompareMaxRecord(m, record), WinnerHolders(g)))
  }

  /** Row `i` opens a game's group: the rows come `game_id ASC, total DESC`. */
  predicate RunStart(rows: seq<GameTotal>, i: nat)
    requires i < |rows|
  {
    i == 0 || rows[i - 1].gameId != rows[i].gameId
  }

  /** The margin of the group opened at `i`: its first total minus its second, or the first
      alone when the group has one row. */
  function MarginAt(rows: seq<GameTotal>, i: nat): int
    requires i < |rows|
  {
    if i + 1 < |rows| && rows[i + 1].gameId == rows[i].gameId then rows[i].total - rows[i + 1].total
    else rows[i].total
  }

  /** A running maximum that starts out NULL. */
  function Combine(m: Option<int>, v: int): (r: Option<int>)
    ensures r.Some? && r.value >= v && (m.Some? ==> r.value >= m.value)
    ensures r.value == v || (m.Some? && r.value == m.value)
  {
    if m.None? || v > m.value then Some(v) else m
  }

  /** The largest margin of the groups opened before row `n`. */
  function MaxMarginUpTo(rows: seq<GameTotal>, n: nat): Option<int>
    requires n <= |rows|
  {
    if n == 0 then None
    else
      var prev := MaxMarginUpTo(rows, n - 1);
      if RunStart(rows, n - 1) then Combine(prev, MarginAt(rows, n - 1)) else prev
  }

  /** The all-time largest winning margin over the query rows. */
  function MaxMargin(rows: seq<GameTotal>): Option<int>
  {
    MaxMarginUpTo(rows, |rows|)
  }

  /** The record is NULL exactly without rows; otherwise it is some group's margin and no
      group's margin exceeds it. */
  lemma {:induction false} MaxMarginMeaning(rows: seq<GameTotal>, n: nat)
    requires n <= |rows|
    ensures MaxMarginUpTo(rows, n).None? <==> n == 0
    ensures MaxMarginUpTo(rows, n).Some? ==>
              exists i :: 0 <= i < n && RunStart(rows, i) && MarginAt(rows, i) == MaxMarginUpTo(rows, n).value
    ensures forall i :: 0 <= i < n && RunStart(rows, i) ==> MarginAt(rows, i) <= MaxMarginUpTo(rows, n).value
  {
    if n > 0 {
      MaxMarginMeaning(rows, n - 1);
      if n == 1 {
        assert RunStart(rows, 0);
      }
    }
  }

  /** Rows that open no group leave the running maximum alone. */
  lemma {:induction false} SkipInsideGroup(rows: seq<GameTotal>, s: nat, n: nat)
    requires s < n <= |rows|
    requires forall j :: s < j < n ==> rows[j].gameId == rows[s].gameId
    ensures MaxMarginUpTo(rows, n) == MaxMarginUpTo(rows, s + 1)
    decreases n
  {
    if n > s + 1 {
      SkipInsideGroup(rows, s, n - 1);
      assert !RunStart(rows, n - 1);
    }
  }

  /** The `bump` closure: fold the current group's margin into the maximum. */
  function Bumped(first: Option<int>, second: Option<int>, maxMargin: Option<int>): Option<int>
  {
    if first.None? then maxMargin
    else Combine(maxMargin, if second.Some? then first.value - second.value else first.value)
  }

  /** The state of the scan after rows[..i]: `s` opened the current group. */
  ghost predicate ScanState(rows: seq<GameTotal>, i: nat, s: nat, currentGame: nat,
                            first: Option<int>, second: Option<int>, maxMargin: Option<int>)
    requires i <= |rows|
  {
    if i == 0 then currentGame == 0 && first.None? && second.None? && maxMargin.None?
    else
      s < i && RunStart(rows, s) && currentGame == rows[i - 1].gameId
      && (forall j :: s < j < i ==> rows[j].gameId == rows[s].gameId)
      && first == Some(rows[s].total)
      && second == (if s + 1 < i then Some(rows[s + 1].total) else None)
      && maxMargin == MaxMarginUpTo(rows, s)
  }

  /** Closing the group opened at `s` once row `i` starts another game or the rows end. */
  lemma BumpCloses(rows: seq<GameTotal>, i: nat, s: nat, currentGame: nat,
                   first: Option<int>, second: Option<int>, maxMargin: Option<int>)
    requires 0 < i <= |rows| && ScanState(rows, i, s, currentGame, first, second, maxMargin)
    requires i < |rows| ==> rows[i].gameId != currentGame
    ensures Bumped(first, second, maxMargin) == MaxMarginUpTo(rows, i)
  {
    SkipInsideGroup(rows, s, i);
    if s + 1 < i {
      assert rows[s + 1].gameId == rows[s].gameId;
    }
  }

  /** getAllTimeMaxWinningMargin's scan over the rows. */
  method AllTimeMaxWinningMargin(rows: seq<GameTotal>) returns (maxMargin: Option<int>)
    ensures maxMargin == MaxMargin(rows)
  {
    maxMargin := None;
    var currentGame: nat := 0;
    var first: Option<int> := None;
    var second: Option<int> := None;
    ghost var s: nat := 0;
    var i := 0;
    while i < |rows|
      invariant i <= |rows|
      invariant ScanState(rows, i, s, currentGame, first, second, maxMargin)
    {
      var r := rows[i];
      if r.gameId != currentGame {
        if currentGame != 0 {
          BumpCloses(rows, i, s, currentGame, first, second, maxMargin);
          maxMargin := Bumped(first, second, maxMargin);
          first, second := None, None;
        }
        currentGame := r.gameId;
        s := i;
      }
      if first.None? {
        first := Some(r.total);
      } else if second.None? {
        second := Some(r.total);
      }
      i := i + 1;
    }
    if currentGame != 0 {
      BumpCloses(rows, i, s, currentGame, first, second, maxMargin);
      maxMargin := Bumped(first, second, maxMargin);
    }
  }

  /** The margin query's rows hold the game's group at `s`: its final totals in descending
      order under its id, as they do once the game is finished and complete. */
  predicate GameGroupAt(rows: seq<GameTotal>, s: nat, g: GameRecord)
  {
    var t := FinalTotals(g);
    |t| > 0 && s + |t| <= |rows| && RunStart(rows, s)
    && (forall i :: s <= i < s + |t| ==> rows[i].gameId == g.game.id && rows[i].total == t[i - s])
    && (s + |t| < |rows| ==> rows[s + |t|].gameId != g.game.id)
  }

  /** The group of the game at `s` has the game's own winning margin. */
  lemma GroupMarginIsWinMargin(rows: seq<GameTotal>, s: nat, g: GameRecord)
    requires GameGroupAt(rows, s, g)
    ensures WinMargin(g).Some? && MarginAt(rows, s) == WinMargin(g).value
  {
    var t := FinalTotals(g);
    assert rows[s].gameId == g.game.id && rows[s].total == t[0];
    if |t| >= 2 {
      assert rows[s + 1].gameId == g.game.id && rows[s + 1].total == t[1];
    }
  }

  /** As written, the margin record is taken over the badged game's rows too, so its winning
      margin is never reported as "new". */
  lemma MarginNeverNew(rows: seq<GameTotal>, s: nat, g: GameRecord)
    requires GameGroupAt(rows, s, g)
    ensures LargestWinMargin(g, MaxMargin(rows)).Some?
    ensures LargestWinMargin(g, MaxMargin(rows)).value.status != StatusNew
  {
    GroupMarginIsWinMargin(rows, s, g);
    MaxMarginMeaning(rows, |rows|);
  }

  /** The margin query's rows of games other than `gameId`, in order. */
  function OtherGameTotals(rows: seq<GameTotal>, gameId: nat): (r: seq<GameTotal>)
    ensures forall x :: x in r <==> x in rows && x.gameId != gameId
  {
    if |rows| == 0 then []
    else
      var init := rows[..|rows| - 1];
      var last := rows[|rows| - 1];
      assert rows == init + [last];
      OtherGameTotals(init, gameId) + (if last.gameId != gameId then [last] else [])
  }

  /** With the record taken over the other games' rows, the margin badge is new exactly when
      every other game's margin is smaller. */
  lemma MarginStatus(rows: seq<GameTotal>, g: GameRecord)
    requires WinMargin(g).Some?
    ensures var o := OtherGameTotals(rows, g.game.id);
            LargestWinMargin(g, MaxMargin(o)).Some?
            && (LargestWinMargin(g, MaxMargin(o)).value.status == StatusNew <==>
                  forall i :: 0 <= i < |o| && RunStart(o, i) ==> MarginAt(o, i) < WinMargin(g).value)
  {
    var o := OtherGameTotals(rows, g.game.id);
    MaxMarginMeaning(o, |o|);
  }

  // ------------------------------------------------------------------- the badges

  function AsList(b: Option<Badge>): seq<Badge>
  {
    if b.Some? then [b.value] else []
  }

  /** ComputeGameAchievements: nothing for a missing, unfinished or partial game; otherwise the
      fastest-win, most-points-in-a-round and largest-margin badges that apply, in that order.
      `bestRounds` are this game's getGameBestRoundTotals rows, `roundRows` the rows of
      getAllTimeMaxRoundPoints' inner query, and `marginRows` the all-time margin query's rows. */
  method ComputeGameAchievements(history: seq<GameRecord>, gameId: nat, bestRounds: seq<RoundTotal>,
                                 roundRows: seq<GameRoundTotal>, marginRows: seq<GameTotal>)
    returns (badges: seq<Badge>)
    ensures FindGame(history, gameId).None? ==> badges == []
    ensures FindGame(history, gameId).Some? && !IsFinishedNonPartial(FindGame(history, gameId).value) ==> badges == []
    ensures FindGame(history, gameId).Some? && IsFinishedNonPartial(FindGame(history, gameId).value) ==>
              var g := FindGame(history, gameId).value;
              badges == AsList(FastestWinAsWritten(history, g))
                        + AsList(if |bestRounds| == 0 then None
                                 else Some(Badge(KeyMostPointsInRound, LabelMostPointsInRound, bestRounds[0].total,
                                                 CompareMaxRecord(bestRounds[0].total, MaxRoundTotal(roundRows)),
                                                 RoundHolders(gameId, LeadingRun(bestRounds, bestRounds[0].total)))))
                        + AsList(LargestWinMargin(g, MaxMargin(marginRows)))
  {
    var found := FindGame(history, gameId);
    if found.None? || !IsFinishedNonPartial(found.value) {
      return [];
    }
    var g := found.value;
    var fastest := FastestWinAsWritten(history, g);
    var roundRecord := MaxRoundTotal(roundRows);
    var most := MostPointsInRound(gameId, bestRounds, roundRecord);
    var record := AllTimeMaxWinningMargin(marginRows);
    var margin := LargestWinMargin(g, record);
    badges := AsList(fastest) + AsList(most) + AsList(margin);
  }
}
