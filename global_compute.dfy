/** All-time record badges (backend/services/achievements/global_compute.go): the largest
    winning margin, the biggest comeback, and the current and longest winning streaks. Query
    results are given as their rows, in the order the queries ask for; Go map iteration order is
    left open (a `:|` choice). */
module GlobalCompute {
  import opened Wrappers
  import opened Models
  import opened ScoringHelpers
  import opened GameRecords
  import opened AchievementHelper
  import opened GameCompute

  const StatusRecord := "record"
  const KeyCurrentStreak := "current_winning_streak"
  const LabelCurrentStreak := "Current Winning Streak"
  const KeyLongestStreak := "longest_winning_streak"
  const LabelLongestStreak := "Longest Winning Streak"

  // ------------------------------------------------------------- the running best

  /** A value offered for a record, with the holder it would name. */
  datatype Candidate = Candidate(value: int, holder: Holder)

  /** The best value after offering `cs`, starting from `start`. */
  function BestOf(start: int, cs: seq<Candidate>): (b: int)
    ensures b >= start && forall k :: 0 <= k < |cs| ==> cs[k].value <= b
    ensures b == start || exists k :: 0 <= k < |cs| && cs[k].value == b
  {
    if |cs| == 0 then start
    else
      var n := |cs| - 1;
      var prev := BestOf(start, cs[..n]);
      assert forall k :: 0 <= k < n ==> cs[..n][k] == cs[k];
      if cs[n].value > prev then cs[n].value else prev
  }

  /** The holders of the candidates whose value is `v`, in offer order. */
  function HoldersAt(cs: seq<Candidate>, v: int): (hs: seq<Holder>)
    ensures |hs| <= |cs|
    ensures forall h :: h in hs <==> exists k :: 0 <= k < |cs| && cs[k].value == v && cs[k].holder == h
  {
    if |cs| == 0 then []
    else
      var n := |cs| - 1;
      assert forall k :: 0 <= k < n ==> cs[..n][k] == cs[k];
      HoldersAt(cs[..n], v) + (if cs[n].value == v then [cs[n].holder] else [])
  }

  lemma HoldersAtBelow(cs: seq<Candidate>, v: int)
    requires forall k :: 0 <= k < |cs| ==> cs[k].value < v
    ensures HoldersAt(cs, v) == []
  {
  }

  /** The `switch` on a new value: strictly greater replaces the holders, equal appends. */
  method Offer(ghost seen: seq<Candidate>, best: int, holders: seq<Holder>, c: Candidate)
    returns (best': int, holders': seq<Holder>)
    requires forall k :: 0 <= k < |seen| ==> seen[k].value <= best
    requires holders == HoldersAt(seen, best)
    ensures best' == (if c.value > best then c.value else best)
    ensures holders' == HoldersAt(seen + [c], best')
  {
    assert (seen + [c])[..|seen|] == seen;
    if c.value > best {
      HoldersAtBelow(seen, c.value);
      best', holders' := c.value, [c.holder];
    } else if c.value == best {
      best', holders' := best, holders + [c.holder];
    } else {
      best', holders' := best, holders;
    }
  }

  /** The holder a player-only record names. */
  function PlayerHolder(p: nat): Holder
  {
    Holder(p, None, None)
  }

  /** The best value in a map of per-player values, starting from -1, and every player that
      reaches it (the loop over the map in globalCurrentWinningStreak and
      globalLongestWinningStreak). */
  method BestOfMap(m: map<nat, int>) returns (best: int, holders: seq<Holder>)
    ensures best >= -1 && forall p :: p in m ==> m[p] <= best
    ensures best == -1 || exists p :: p in m && m[p] == best
    ensures forall h :: h in holders <==> h.gameId.None? && h.roundId.None? && h.playerId in m && m[h.playerId] == best
  {
    best := -1;
    holders := [];
    ghost var seen: seq<Candidate> := [];
    var pending := m.Keys;
    while pending != {}
      invariant pending <= m.Keys
      invariant best == BestOf(-1, seen)
      invariant holders == HoldersAt(seen, best)
      invariant forall k :: 0 <= k < |seen| ==>
                  (seen[k].holder.playerId in m.Keys - pending
                   && seen[k] == Candidate(m[seen[k].holder.playerId], PlayerHolder(seen[k].holder.playerId)))
      invariant forall p :: p in m.Keys - pending ==> exists k :: 0 <= k < |seen| && seen[k].holder.playerId == p
      decreases |pending|
    {
      var p :| p in pending;
      var c := Candidate(m[p], PlayerHolder(p));
      best, holders := Offer(seen, best, holders, c);
      ghost var before := seen;
      seen := seen + [c];
      forall q | q in m.Keys - (pending - {p}) ensures exists k :: 0 <= k < |seen| && seen[k].holder.playerId == q {
        if q == p {
          assert seen[|seen| - 1].holder.playerId == p;
        } else {
          assert q in m.Keys - pending;
          var k :| 0 <= k < |before| && before[k].holder.playerId == q;
          assert seen[k] == before[k];
        }
      }
      pending := pending - {p};
    }
    assert m.Keys - pending == m.Keys;
    forall p | p in m ensures m[p] <= best {
      var k :| 0 <= k < |seen| && seen[k].holder.playerId == p;
    }
    forall h: Holder | h.gameId.None? && h.roundId.None? && h.playerId in m && m[h.playerId] == best
      ensures h in holders
    {
      var k :| 0 <= k < |seen| && seen[k].holder.playerId == h.playerId;
      assert seen[k].holder == h;
    }
  }

  /** A streak badge: none unless some player's streak is positive. */
  function StreakBadge(key: string, name: string, best: int, holders: seq<Holder>): (b: Option<Badge>)
    ensures b.Some? <==> best > 0
  {
    if best <= 0 then None else Some(Badge(key, name, best, StatusRecord, holders))
  }

  // ------------------------------------------------------------ winning streaks

  /** A game_players row joined with its finished game. */
  datatype Play = Play(playerId: nat, gameId: nat, won: bool)

  /** A player's results, in row order. */
  function WinsOf(plays: seq<Play>, p: nat): (ws: seq<bool>)
    ensures |ws| <= |plays|
  {
    if |plays| == 0 then []
    else
      var n := |plays| - 1;
      WinsOf(plays[..n], p) + (if plays[n].playerId == p then [plays[n].won] else [])
  }

  lemma WinsOfSnoc(plays: seq<Play>, x: Play, p: nat)
    ensures WinsOf(plays + [x], p) == WinsOf(plays, p) + (if x.playerId == p then [x.won] else [])
  {
    assert (plays + [x])[..|plays|] == plays;
  }

  lemma {:induction false} WinsOfAbsent(plays: seq<Play>, p: nat)
    requires forall k :: 0 <= k < |plays| ==> plays[k].playerId != p
    ensures WinsOf(plays, p) == []
  {
    if |plays| > 0 {
      WinsOfAbsent(plays[..|plays| - 1], p);
    }
  }

  lemma {:induction false} WinsOfAppend(s: seq<Play>, t: seq<Play>, p: nat)
    ensures WinsOf(s + t, p) == WinsOf(s, p) + WinsOf(t, p)
    decreases |t|
  {
    if |t| == 0 {
      assert s + t == s;
    } else {
      var n := |t| - 1;
      assert s + t == (s + t[..n]) + [t[n]];
      WinsOfAppend(s, t[..n], p);
      WinsOfSnoc(s + t[..n], t[n], p);
      WinsOfSnoc(t[..n], t[n], p);
      assert t == t[..n] + [t[n]];
    }
  }

  /** The wins before the first loss. */
  function LeadingWins(ws: seq<bool>): (n: nat)
    ensures n <= |ws|
    ensures forall k :: 0 <= k < n ==> ws[k]
    ensures n < |ws| ==> !ws[n]
  {
    if |ws| == 0 || !ws[0] then 0 else 1 + LeadingWins(ws[1..])
  }

  /** The wins after the last loss. */
  function TrailingWins(ws: seq<bool>): (n: nat)
    ensures n <= |ws|
  {
    if |ws| == 0 || !ws[|ws| - 1] then 0 else TrailingWins(ws[..|ws| - 1]) + 1
  }

  /** The longest run of consecutive wins. */
  function LongestRun(ws: seq<bool>): (n: nat)
    ensures n <= |ws|
  {
    if |ws| == 0 then 0
    else
      var prev := LongestRun(ws[..|ws| - 1]);
      var t := TrailingWins(ws);
      if t > prev then t else prev
  }

  /** The inner loop of globalCurrentWinningStreak: count wins until the first loss. */
  method CountLeadingWins(ws: seq<bool>) returns (streak: nat)
    ensures streak == LeadingWins(ws)
  {
    streak := 0;
    var i := 0;
    while i < |ws|
      invariant i <= |ws| && streak == i
      invariant forall k :: 0 <= k < i ==> ws[k]
    {
      if !ws[i] {
        break;
      }
      streak := streak + 1;
      i := i + 1;
    }
    LeadingWinsIs(ws, i);
  }

  lemma {:induction false} LeadingWinsIs(ws: seq<bool>, i: nat)
    requires i <= |ws| && forall k :: 0 <= k < i ==> ws[k]
    requires i < |ws| ==> !ws[i]
    ensures LeadingWins(ws) == i
    decreases i
  {
    if i > 0 {
      LeadingWinsIs(ws[1..], i - 1);
    }
  }

  /** The streak loop of globalCurrentWinningStreak over the plays, newest first: each player's
      streak is read once, at the player's newest play, as the wins before their latest loss.
      The per-player query is the player's rows of the same ordering. */
  method CurrentStreaks(plays: seq<Play>) returns (streaks: map<nat, int>)
    ensures forall p :: p in streaks <==> exists k :: 0 <= k < |plays| && plays[k].playerId == p
    ensures forall p :: p in streaks ==> streaks[p] == LeadingWins(WinsOf(plays, p))
  {
    streaks := map[];
    var i := 0;
    while i < |plays|
      invariant i <= |plays| && CurrentState(plays, i, streaks)
    {
      streaks := CurrentRow(plays, i, streaks);
      i := i + 1;
    }
  }

  /** The players of the first `i` rows have their streak, and no one else. */
  ghost predicate CurrentState(plays: seq<Play>, i: nat, streaks: map<nat, int>)
  {
    (forall p :: p in streaks <==> exists k :: 0 <= k < i && k < |plays| && plays[k].playerId == p)
    && forall p :: p in streaks ==> streaks[p] == LeadingWins(WinsOf(plays, p))
  }

  /** One row of the current-streak loop: a player not seen yet gets 0 after a loss, otherwise
      the count of their leading wins. */
  method CurrentRow(plays: seq<Play>, i: nat, streaks: map<nat, int>) returns (streaks': map<nat, int>)
    requires i < |plays| && CurrentState(plays, i, streaks)
    ensures CurrentState(plays, i + 1, streaks')
  {
    var lp := plays[i];
    streaks' := streaks;
    if lp.playerId !in streaks {
      assert forall k :: 0 <= k < i ==> plays[k].playerId != lp.playerId;
      if !lp.won {
        FirstPlayLeads(plays, i);
        streaks' := streaks[lp.playerId := 0];
      } else {
        var streak := CountLeadingWins(WinsOf(plays, lp.playerId));
        streaks' := streaks[lp.playerId := streak];
      }
    }
  }

  /** A player's first row in the order is the first of their results. */
  lemma FirstPlayLeads(plays: seq<Play>, i: nat)
    requires i < |plays|
    requires forall k :: 0 <= k < i ==> plays[k].playerId != plays[i].playerId
    ensures |WinsOf(plays, plays[i].playerId)| > 0 && WinsOf(plays, plays[i].playerId)[0] == plays[i].won
  {
    var p := plays[i].playerId;
    assert plays == plays[..i] + plays[i..];
    WinsOfAppend(plays[..i], plays[i..], p);
    WinsOfAbsent(plays[..i], p);
    assert plays[i..] == [plays[i]] + plays[i + 1..];
    WinsOfAppend([plays[i]], plays[i + 1..], p);
    assert [plays[i]] == [] + [plays[i]];
    WinsOfSnoc([], plays[i], p);
  }

  /** A player whose newest game was lost has a current streak of 0. */
  lemma CurrentStreakZeroAfterLoss(plays: seq<Play>, i: nat)
    requires i < |plays| && !plays[i].won
    requires forall k :: 0 <= k < i ==> plays[k].playerId != plays[i].playerId
    ensures LeadingWins(WinsOf(plays, plays[i].playerId)) == 0
  {
    FirstPlayLeads(plays, i);
  }

  /** globalCurrentWinningStreak over the plays, newest first. */
  method CurrentWinningStreak(plays: seq<Play>) returns (b: Option<Badge>)
    ensures b.Some? ==> b.value.key == KeyCurrentStreak && b.value.status == StatusRecord
    ensures b.Some? <==> exists k :: 0 <= k < |plays| && LeadingWins(WinsOf(plays, plays[k].playerId)) > 0
    ensures b.Some? ==>
              (forall k :: 0 <= k < |plays| ==> LeadingWins(WinsOf(plays, plays[k].playerId)) <= b.value.value)
              && (forall h :: h in b.value.holders <==>
                    (h.gameId.None? && h.roundId.None?
                     && (exists k :: 0 <= k < |plays| && plays[k].playerId == h.playerId)
                     && LeadingWins(WinsOf(plays, h.playerId)) == b.value.value))
  {
    var streaks := CurrentStreaks(plays);
    var best, holders := BestOfMap(streaks);
    b := StreakBadge(KeyCurrentStreak, LabelCurrentStreak, best, holders);
    if b.None? {
      forall k | 0 <= k < |plays| ensures LeadingWins(WinsOf(plays, plays[k].playerId)) <= 0 {
        assert plays[k].playerId in streaks;
      }
    } else {
      var p :| p in streaks && streaks[p] == best;
      assert forall k :: 0 <= k < |plays| ==> plays[k].playerId in streaks;
    }
  }

  /** One row of the streak loop: a win extends the player's current run and may raise their
      longest, a loss resets the current run. */
  method StreakRow(plays: seq<Play>, i: nat, streaks: map<nat, int>, best: map<nat, int>)
    returns (streaks': map<nat, int>, best': map<nat, int>)
    requires i < |plays| && StreakState(plays, i, streaks, best)
    ensures StreakState(plays, i + 1, streaks', best')
  {
    var r := plays[i];
    streaks', best' := streaks, best;
    if r.won {
      var s := Get(streaks, r.playerId) + 1;
      streaks' := streaks[r.playerId := s];
      if s > Get(best, r.playerId) {
        best' := best[r.playerId := s];
      }
    } else {
      streaks' := streaks[r.playerId := 0];
    }
    StreakStep(plays, i, streaks, best, streaks', best');
  }

  /** The streak loop of globalLongestWinningStreak over the plays, oldest first per player:
      every player with a win gets the longest run of their wins. */
  method LongestStreaks(plays: seq<Play>) returns (best: map<nat, int>)
    ensures forall p :: p in best <==> true in WinsOf(plays, p)
    ensures forall p :: p in best ==> best[p] == LongestRun(WinsOf(plays, p))
  {
    var streaks: map<nat, int> := map[];
    best := map[];
    var i := 0;
    while i < |plays|
      invariant i <= |plays|
      invariant StreakState(plays, i, streaks, best)
    {
      streaks, best := StreakRow(plays, i, streaks, best);
      i := i + 1;
    }
    StreakStateDone(plays, streaks, best);
  }

  lemma StreakStateDone(plays: seq<Play>, streaks: map<nat, int>, best: map<nat, int>)
    requires StreakState(plays, |plays|, streaks, best)
    ensures forall p :: p in best <==> true in WinsOf(plays, p)
    ensures forall p :: p in best ==> best[p] == LongestRun(WinsOf(plays, p))
  {
    assert plays[..|plays|] == plays;
    forall p | p in best ensures best[p] == LongestRun(WinsOf(plays, p)) {
      assert Get(best, p) == best[p];
    }
  }

  /** A Go map read where a missing key gives 0. */
  function Get(m: map<nat, int>, k: nat): int
  {
    if k in m then m[k] else 0
  }

  /** After rows[..i]: each player's current run, and for every player with a win their
      longest run. */
  ghost predicate StreakState(plays: seq<Play>, i: nat, streaks: map<nat, int>, best: map<nat, int>)
    requires i <= |plays|
  {
    (forall p :: Get(streaks, p) == TrailingWins(WinsOf(plays[..i], p)))
    && (forall p :: p in best <==> true in WinsOf(plays[..i], p))
    && (forall p :: Get(best, p) == LongestRun(WinsOf(plays[..i], p)))
  }

  /** One row of the longest-streak loop keeps the state. */
  lemma StreakStep(plays: seq<Play>, i: nat, st0: map<nat, int>, b0: map<nat, int>, st1: map<nat, int>, b1: map<nat, int>)
    requires i < |plays| && StreakState(plays, i, st0, b0)
    requires var r := plays[i];
             st1 == st0[r.playerId := if r.won then Get(st0, r.playerId) + 1 else 0]
             && b1 == (if r.won && Get(st0, r.playerId) + 1 > Get(b0, r.playerId)
                       then b0[r.playerId := Get(st0, r.playerId) + 1] else b0)
    ensures StreakState(plays, i + 1, st1, b1)
  {
    var r := plays[i];
    assert plays[..i + 1] == plays[..i] + [r];
    forall q ensures Get(st1, q) == TrailingWins(WinsOf(plays[..i] + [r], q))
                     && (q in b1 <==> true in WinsOf(plays[..i] + [r], q))
                     && Get(b1, q) == LongestRun(WinsOf(plays[..i] + [r], q))
    {
      StreakStepFor(plays, i, st0, b0, st1, b1, q);
    }
  }

  /** The row's effect on one player `q`. */
  lemma StreakStepFor(plays: seq<Play>, i: nat, st0: map<nat, int>, b0: map<nat, int>, st1: map<nat, int>, b1: map<nat, int>, q: nat)
    requires i < |plays| && StreakState(plays, i, st0, b0)
    requires var r := plays[i];
             st1 == st0[r.playerId := if r.won then Get(st0, r.playerId) + 1 else 0]
             && b1 == (if r.won && Get(st0, r.playerId) + 1 > Get(b0, r.playerId)
                       then b0[r.playerId := Get(st0, r.playerId) + 1] else b0)
    ensures Get(st1, q) == TrailingWins(WinsOf(plays[..i] + [plays[i]], q))
            && (q in b1 <==> true in WinsOf(plays[..i] + [plays[i]], q))
            && Get(b1, q) == LongestRun(WinsOf(plays[..i] + [plays[i]], q))
  {
    StreakStepAt(plays[..i], plays[i], Get(st0, q), Get(b0, q), q in b0, st1, b1, q);
  }

  /** The same for one player `q`, whose state before the row is `cur`, `top` and `hasTop`. */
  lemma StreakStepAt(prefix: seq<Play>, r: Play, cur: int, top: int, hasTop: bool,
                     st1: map<nat, int>, b1: map<nat, int>, q: nat)
    requires cur == TrailingWins(WinsOf(prefix, q)) && top == LongestRun(WinsOf(prefix, q))
    requires hasTop <==> true in WinsOf(prefix, q)
    requires r.playerId == q ==> Get(st1, q) == (if r.won then cur + 1 else 0)
    requires r.playerId == q ==> (q in b1 <==> hasTop || (r.won && cur + 1 > top))
    requires r.playerId == q ==> Get(b1, q) == (if r.won && cur + 1 > top then cur + 1 else top)
    requires r.playerId != q ==> Get(st1, q) == cur && (q in b1 <==> hasTop) && Get(b1, q) == top
    ensures Get(st1, q) == TrailingWins(WinsOf(prefix + [r], q))
            && (q in b1 <==> true in WinsOf(prefix + [r], q))
            && Get(b1, q) == LongestRun(WinsOf(prefix + [r], q))
  {
    var ws := WinsOf(prefix, q);
    WinsOfSnoc(prefix, r, q);
    if q == r.playerId {
      assert WinsOf(prefix + [r], q) == ws + [r.won];
      RunStep(ws, r.won, cur, top, hasTop);
    } else {
      assert WinsOf(prefix + [r], q) == ws + [] == ws;
    }
  }

  /** One more result for a player: the current run grows or resets, and the longest run and
      whether there was a win follow. */
  lemma RunStep(ws: seq<bool>, won: bool, cur: int, best: int, hasBest: bool)
    requires cur == TrailingWins(ws) && best == LongestRun(ws) && (hasBest <==> true in ws)
    ensures var ws' := ws + [won];
            var raised := won && cur + 1 > best;
            (if won then cur + 1 else 0) == TrailingWins(ws')
            && (if raised then cur + 1 else best) == LongestRun(ws')
            && (hasBest || raised <==> true in ws')
  {
    var ws' := ws + [won];
    assert ws'[..|ws|] == ws;
    assert true in ws' <==> true in ws || won;
    NoWinNoRun(ws);
  }

  lemma {:induction false} NoWinNoRun(ws: seq<bool>)
    ensures true !in ws ==> LongestRun(ws) == 0
  {
    if |ws| > 0 && true !in ws {
      assert ws[..|ws| - 1] + [ws[|ws| - 1]] == ws;
      NoWinNoRun(ws[..|ws| - 1]);
    }
  }

  /** globalLongestWinningStreak over the plays ordered by player and finish time. */
  method LongestWinningStreak(plays: seq<Play>) returns (b: Option<Badge>)
    ensures b.Some? ==> b.value.key == KeyLongestStreak && b.value.status == StatusRecord
    ensures b.Some? <==> exists k :: 0 <= k < |plays| && LongestRun(WinsOf(plays, plays[k].playerId)) > 0
    ensures b.Some? ==>
              (forall k :: 0 <= k < |plays| ==> LongestRun(WinsOf(plays, plays[k].playerId)) <= b.value.value)
              && (forall h :: h in b.value.holders <==>
                    (h.gameId.None? && h.roundId.None? && LongestRun(WinsOf(plays, h.playerId)) == b.value.value))
  {
    var streaks := LongestStreaks(plays);
    var best, holders := BestOfMap(streaks);
    b := StreakBadge(KeyLongestStreak, LabelLongestStreak, best, holders);
    forall p ensures p !in streaks ==> LongestRun(WinsOf(plays, p)) == 0 {
      NoWinNoRun(WinsOf(plays, p));
    }
    if b.Some? {
      var p :| p in streaks && streaks[p] == best;
      forall k | 0 <= k < |plays| ensures LongestRun(WinsOf(plays, plays[k].playerId)) <= best {
      }
      assert exists k :: 0 <= k < |plays| && plays[k].playerId == p by {
        WinsOfPlayers(plays, p);
      }
    }
  }

  /** A player with results has a row. */
  lemma {:induction false} WinsOfPlayers(plays: seq<Play>, p: nat)
    requires |WinsOf(plays, p)| > 0
    ensures exists k :: 0 <= k < |plays| && plays[k].playerId == p
  {
    var n := |plays| - 1;
    if plays[n].playerId != p {
      WinsOfPlayers(plays[..n], p);
      var k :| 0 <= k < n && plays[..n][k].playerId == p;
    }
  }

  /** A run of wins: positions i up to j, all won. */
  predicate AllWon(ws: seq<bool>, i: nat, j: nat)
    requires i <= j <= |ws|
  {
    forall k :: i <= k < j ==> ws[k]
  }

  /** The longest run is the length of some run of consecutive wins, and no run is longer. */
  lemma {:induction false} LongestRunMeaning(ws: seq<bool>)
    ensures exists i, j :: 0 <= i <= j <= |ws| && j - i == LongestRun(ws) && AllWon(ws, i, j)
    ensures forall i, j :: 0 <= i <= j <= |ws| && AllWon(ws, i, j) ==> j - i <= LongestRun(ws)
  {
    if |ws| == 0 {
      assert AllWon(ws, 0, 0);
    } else {
      var n := |ws| - 1;
      var init := ws[..n];
      LongestRunMeaning(init);
      TrailingWinsMeaning(ws);
      var t := TrailingWins(ws);
      if t > LongestRun(init) {
        assert AllWon(ws, |ws| - t, |ws|);
      } else {
        var i, j :| 0 <= i <= j <= |init| && j - i == LongestRun(init) && AllWon(init, i, j);
        assert AllWon(ws, i, j);
      }
      forall i, j | 0 <= i <= j <= |ws| && AllWon(ws, i, j) ensures j - i <= LongestRun(ws) {
        if j <= n {
          assert AllWon(init, i, j);
        }
      }
    }
  }

  /** The trailing wins form the run ending at the last result, and no run ending there is
      longer. */
  lemma {:induction false} TrailingWinsMeaning(ws: seq<bool>)
    ensures AllWon(ws, |ws| - TrailingWins(ws), |ws|)
    ensures forall i :: 0 <= i <= |ws| && AllWon(ws, i, |ws|) ==> |ws| - i <= TrailingWins(ws)
  {
    if |ws| > 0 {
      var n := |ws| - 1;
      TrailingWinsMeaning(ws[..n]);
      forall i | 0 <= i <= |ws| && AllWon(ws, i, |ws|) ensures |ws| - i <= TrailingWins(ws) {
        if i < |ws| {
          assert ws[n];
          assert AllWon(ws[..n], i, n);
        }
      }
    }
  }

  /** Read newest first, a player's results start with the wins that end them oldest first, so
      the current streak is the trailing run. */
  function Reverse(ws: seq<bool>): (r: seq<bool>)
    ensures |r| == |ws|
    ensures forall k :: 0 <= k < |ws| ==> r[k] == ws[|ws| - 1 - k]
  {
    if |ws| == 0 then [] else [ws[|ws| - 1]] + Reverse(ws[..|ws| - 1])
  }

  /** The current streak never exceeds the longest. */
  lemma {:induction false} CurrentWithinLongest(ws: seq<bool>)
    ensures LeadingWins(Reverse(ws)) == TrailingWins(ws)
    ensures TrailingWins(ws) <= LongestRun(ws)
  {
    if |ws| > 0 {
      var n := |ws| - 1;
      CurrentWithinLongest(ws[..n]);
      assert Reverse(ws)[1..] == Reverse(ws[..n]);
    }
  }

  // ---------------------------------------------------------- largest win margin

  /** The margins written by the `bump(gid)` closure for the groups opened before row `n`. */
  function MarginsUpTo(rows: seq<GameTotal>, n: nat): map<nat, int>
    requires n <= |rows|
  {
    if n == 0 then map[]
    else
      var prev := MarginsUpTo(rows, n - 1);
      if RunStart(rows, n - 1) then prev[rows[n - 1].gameId as nat := MarginAt(rows, n - 1)] else prev
  }

  /** Every game of the rows gets the margin of a group it opened. */
  lemma {:induction false} MarginsMeaning(rows: seq<GameTotal>, n: nat)
    requires n <= |rows|
    ensures forall gid :: gid in MarginsUpTo(rows, n) <==> exists k :: 0 <= k < n && rows[k].gameId == gid
    ensures forall gid :: gid in MarginsUpTo(rows, n) ==>
              exists i :: 0 <= i < n && RunStart(rows, i) && rows[i].gameId == gid && MarginsUpTo(rows, n)[gid] == MarginAt(rows, i)
  {
    if n > 0 {
      MarginsMeaning(rows, n - 1);
      var m := MarginsUpTo(rows, n);
      var prev := MarginsUpTo(rows, n - 1);
      forall gid | exists k :: 0 <= k < n && rows[k].gameId == gid ensures gid in m {
        var k :| 0 <= k < n && rows[k].gameId == gid;
        if k == n - 1 && !RunStart(rows, n - 1) {
          assert rows[n - 2].gameId == gid;
          assert gid in prev;
        } else if k < n - 1 {
          assert gid in prev;
        }
      }
      forall gid | gid in m
        ensures exists i :: 0 <= i < n && RunStart(rows, i) && rows[i].gameId == gid && m[gid] == MarginAt(rows, i)
      {
        if RunStart(rows, n - 1) && gid == rows[n - 1].gameId as nat {
          assert m[gid] == MarginAt(rows, n - 1);
        } else {
          assert gid in prev && m[gid] == prev[gid];
        }
      }
    }
  }

  lemma {:induction false} SkipInsideGroupMargins(rows: seq<GameTotal>, s: nat, n: nat)
    requires s < n <= |rows|
    requires forall j :: s < j < n ==> rows[j].gameId == rows[s].gameId
    ensures MarginsUpTo(rows, n) == MarginsUpTo(rows, s + 1)
    decreases n
  {
    if n > s + 1 {
      SkipInsideGroupMargins(rows, s, n - 1);
      assert !RunStart(rows, n - 1);
    }
  }

  function GroupMargin(first: int, second: Option<int>): int
  {
    if second.Some? then first - second.value else first
  }

  /** The scan state after rows[..i]: `s` opened the current group. */
  ghost predicate MarginScan(rows: seq<GameTotal>, i: nat, s: nat, currentGame: nat,
                             first: Option<int>, second: Option<int>, margins: map<nat, int>)
    requires i <= |rows|
  {
    if i == 0 then currentGame == 0 && first.None? && second.None? && margins == map[]
    else
      s < i && RunStart(rows, s) && currentGame == rows[i - 1].gameId
      && (forall j :: s < j < i ==> rows[j].gameId == rows[s].gameId)
      && first == Some(rows[s].total)
      && second == (if s + 1 < i then Some(rows[s + 1].total) else None)
      && margins == MarginsUpTo(rows, s)
  }

  lemma MarginBumpCloses(rows: seq<GameTotal>, i: nat, s: nat, currentGame: nat,
                         first: Option<int>, second: Option<int>, margins: map<nat, int>)
    requires 0 < i <= |rows| && MarginScan(rows, i, s, currentGame, first, second, margins)
    requires i < |rows| ==> rows[i].gameId != currentGame
    ensures margins[currentGame := GroupMargin(first.value, second)] == MarginsUpTo(rows, i)
  {
    SkipInsideGroupMargins(rows, s, i);
    if s + 1 < i {
      assert rows[s + 1].gameId == rows[s].gameId;
    }
  }

  /** The first loop of globalLargestWinMargin: one margin per game. */
  method GameMargins(rows: seq<GameTotal>) returns (margins: map<nat, int>)
    ensures margins == MarginsUpTo(rows, |rows|)
  {
    margins := map[];
    var currentGame: nat := 0;
    var first: Option<int> := None;
    var second: Option<int> := None;
    ghost var s: nat := 0;
    var i := 0;
    while i < |rows|
      invariant i <= |rows|
      invariant MarginScan(rows, i, s, currentGame, first, second, margins)
    {
      var r := rows[i];
      if r.gameId != currentGame {
        if currentGame != 0 {
          MarginBumpCloses(rows, i, s, currentGame, first, second, margins);
          margins := margins[currentGame := GroupMargin(first.value, second)];
          first, second := None, None;
        }
        currentGame := r.gameId;
        s := i;
      }
      if first.None? {
        first := Some(r.total);
      } else if second.None? {
        second := Some(r.total);
      }
      i := i + 1;
    }
    if currentGame != 0 {
      MarginBumpCloses(rows, i, s, currentGame, first, second, margins);
      margins := margins[currentGame := GroupMargin(first.value, second)];
    }
  }

  /** The largest value of a map, NULL for an empty one. */
  method MaxOfMap(m: map<nat, int>) returns (mx: Option<int>)
    ensures mx.None? <==> m == map[]
    ensures mx.Some? ==> (exists g :: g in m && m[g] == mx.value) && forall g :: g in m ==> m[g] <= mx.value
  {
    mx := None;
    var pending := m.Keys;
    while pending != {}
      invariant pending <= m.Keys
      invariant mx.None? <==> pending == m.Keys
      invariant mx.Some? ==> (exists g :: g in m && m[g] == mx.value) && forall g :: g in m.Keys - pending ==> m[g] <= mx.value
      decreases |pending|
    {
      var g :| g in pending;
      if mx.None? || m[g] > mx.value {
        mx := Some(m[g]);
      }
      pending := pending - {g};
    }
  }

  /** The games whose margin is the maximum, in map iteration order. */
  method GamesAt(m: map<nat, int>, v: int) returns (ids: seq<nat>)
    ensures forall g :: g in ids <==> g in m && m[g] == v
    ensures forall i, j :: 0 <= i < j < |ids| ==> ids[i] != ids[j]
  {
    ids := [];
    var pending := m.Keys;
    while pending != {}
      invariant pending <= m.Keys
      invariant forall g :: g in ids <==> g in m.Keys - pending && m[g] == v
      invariant forall i, j :: 0 <= i < j < |ids| ==> ids[i] != ids[j]
      decreases |pending|
    {
      var g :| g in pending;
      if m[g] == v {
        ids := ids + [g];
      }
      pending := pending - {g};
    }
  }

  /** GetWinnerHolders for a game id: nothing for an id with no stored game. */
  function WinnerHoldersOf(history: seq<GameRecord>, gid: nat): seq<Holder>
  {
    match FindGame(history, gid)
    case None => []
    case Some(g) => WinnerHolders(g)
  }

  /** The winners of the listed games, game after game. */
  function HoldersOfGames(history: seq<GameRecord>, ids: seq<nat>): (hs: seq<Holder>)
    ensures forall h :: h in hs ==> exists k :: 0 <= k < |ids| && h in WinnerHoldersOf(history, ids[k])
    ensures forall k, h :: 0 <= k < |ids| && h in WinnerHoldersOf(history, ids[k]) ==> h in hs
  {
    if |ids| == 0 then []
    else
      var n := |ids| - 1;
      var rest := HoldersOfGames(history, ids[..n]);
      assert ids == ids[..n] + [ids[n]];
      HoldersStep(history, ids[..n], ids[n], rest);
      rest + WinnerHoldersOf(history, ids[n])
  }

  /** Appending one more game's winners keeps both directions of the membership statement of
      HoldersOfGames. */
  lemma HoldersStep(history: seq<GameRecord>, init: seq<nat>, last: nat, rest: seq<Holder>)
    requires forall h :: h in rest ==> exists k :: 0 <= k < |init| && h in WinnerHoldersOf(history, init[k])
    requires forall k, h :: 0 <= k < |init| && h in WinnerHoldersOf(history, init[k]) ==> h in rest
    ensures var ids, hs := init + [last], rest + WinnerHoldersOf(history, last);
            (forall h :: h in hs ==> exists k :: 0 <= k < |ids| && h in WinnerHoldersOf(history, ids[k]))
            && (forall k, h :: 0 <= k < |ids| && h in WinnerHoldersOf(history, ids[k]) ==> h in hs)
  {
    var ids, hs := init + [last], rest + WinnerHoldersOf(history, last);
    forall h | h in hs
      ensures exists k :: 0 <= k < |ids| && h in WinnerHoldersOf(history, ids[k])
    {
      if h in rest {
        var k :| 0 <= k < |init| && h in WinnerHoldersOf(history, init[k]);
        assert ids[k] == init[k];
      } else {
        assert ids[|init|] == last;
      }
    }
    forall k, h | 0 <= k < |ids| && h in WinnerHoldersOf(history, ids[k])
      ensures h in hs
    {
      if k < |init| {
        assert ids[k] == init[k];
      }
    }
  }

  /** The holder loop: the winners of each listed game appended in turn. */
  method CollectWinners(history: seq<GameRecord>, ids: seq<nat>) returns (holders: seq<Holder>)
    ensures holders == HoldersOfGames(history, ids)
  {
    holders := [];
    var i := 0;
    while i < |ids|
      invariant i <= |ids|
      invariant holders == HoldersOfGames(history, ids[..i])
    {
      assert ids[..i + 1][..i] == ids[..i];
      var g := FindGame(history, ids[i]);
      if g.Some? {
        var hs := GetWinnerHolders(g.value);
        holders := holders + hs;
      }
      i := i + 1;
    }
    assert ids[..i] == ids;
  }

  /** globalLargestWinMargin: the largest margin over all games, held by the winners of every
      game that reaches it. */
  method GlobalLargestWinMargin(history: seq<GameRecord>, rows: seq<GameTotal>) returns (b: Option<Badge>)
    ensures b.None? <==> |rows| == 0
    ensures b.Some? ==>
              var margins := MarginsUpTo(rows, |rows|);
              b.value.key == KeyLargestWinMargin && b.value.status == StatusRecord
              && (forall g :: g in margins ==> margins[g] <= b.value.value)
              && (exists g :: g in margins && margins[g] == b.value.value)
              && (forall h :: h in b.value.holders ==>
                    exists g :: g in margins && margins[g] == b.value.value && h in WinnerHoldersOf(history, g))
              && forall g, h :: g in margins && margins[g] == b.value.value && h in WinnerHoldersOf(history, g) ==>
                   h in b.value.holders
  {
    if |rows| == 0 {
      return None;
    }
    var margins := GameMargins(rows);
    MarginsMeaning(rows, |rows|);
    assert rows[0].gameId as nat in margins;
    var mx := MaxOfMap(margins);
    var ids := GamesAt(margins, mx.value);
    var holders := CollectWinners(history, ids);
    forall g, h | g in margins && margins[g] == mx.value && h in WinnerHoldersOf(history, g)
      ensures h in holders
    {
      var k :| 0 <= k < |ids| && ids[k] == g;
    }
    b := Some(Badge(KeyLargestWinMargin, LabelLargestWinMargin, mx.value, StatusRecord, holders));
  }
}
