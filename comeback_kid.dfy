/** The Comeback Kid record (globalComebackKid in backend/services/achievements/global_compute.go):
    the largest gap by which a game's eventual top scorer trailed the leader after some round
    before the last, while sitting at the bottom of the standings. */
module ComebackKid {
  import opened Wrappers
  import opened Models
  import opened Sorting
  import opened ScoringHelpers
  import opened GameRecords
  import opened AchievementHelper
  import opened GameCompute
  import opened GlobalCompute

  const KeyComebackKid := "record_comeback_kid"
  const LabelComebackKid := "Biggest Comeback"

  /** `uint(n)`: a Go conversion of a 64-bit int to unsigned. */
  function AsUint(n: int): nat
  {
    n % 0x1_0000_0000_0000_0000
  }

  /** The `sort.SliceStable` order on rounds: by number, then by id. */
  const RoundOrder: (Round, Round) -> bool :=
    (a: Round, b: Round) => a.number < b.number || (a.number == b.number && a.id <= b.id)

  function SortedRounds(g: GameRecord): (rs: seq<Round>)
    ensures |rs| == |g.rounds| && multiset(rs) == multiset(g.rounds)
  {
    SortBy(g.rounds, RoundOrder)
  }

  /** A round's preloaded rows. */
  function RoundRows(scores: seq<Score>, roundId: nat): (r: seq<Score>)
    ensures |r| <= |scores|
  {
    if |scores| == 0 then []
    else
      var n := |scores| - 1;
      assert scores == scores[..n] + [scores[n]];
      RoundRows(scores[..n], roundId) + (if scores[n].roundId == roundId then [scores[n]] else [])
  }

  /** The rows of the first `n` rounds, round after round. */
  function Through(g: GameRecord, rs: seq<Round>, n: nat): seq<Score>
    requires n <= |rs|
  {
    if n == 0 then [] else Through(g, rs, n - 1) + RoundRows(g.scores, rs[n - 1].id)
  }

  /** The players with a row in some round (the keys of `finalTotals`). */
  function Scorers(g: GameRecord, rs: seq<Round>): seq<nat>
  {
    Players(Through(g, rs, |rs|))
  }

  /** Every scorer's total after the first `n` rounds. */
  function Standings(g: GameRecord, rs: seq<Round>, n: nat): (t: seq<int>)
    requires n <= |rs|
    ensures |t| == |Scorers(g, rs)|
  {
    TotalsOf(Scorers(g, rs), Through(g, rs, n))
  }

  /** A game the scan looks at: it has rounds, at least two seats and at least two scorers. */
  predicate Qualifies(g: GameRecord)
  {
    |g.rounds| > 0 && |g.players| >= 2 && |Scorers(g, SortedRounds(g))| >= 2
  }

  /** A player with the highest final total (the `winnerID` the map loop settles on). */
  predicate IsTopScorer(g: GameRecord, w: nat)
  {
    var rs := SortedRounds(g);
    |Scorers(g, rs)| > 0 && w in Scorers(g, rs)
    && PlayerTotal(Through(g, rs, |rs|), w) == MaxOf(Standings(g, rs, |rs|))
  }

  /** The comeback a standings table shows for a player with total `mine`: when that total is
      the lowest, the gap to the highest. */
  function Comeback(t: seq<int>, mine: int, h: Holder): (c: seq<Candidate>)
    ensures |c| <= 1
    ensures forall x :: x in c ==> x.value >= 0
  {
    if |t| > 0 && mine == MinOf(t) then
      assert MinOf(t) <= t[0] <= MaxOf(t);
      [Candidate(MaxOf(t) - mine, h)]
    else []
  }

  /** The comeback recorded after the `n`-th round, if any: none after the last round. */
  function RoundComebackOf(g: GameRecord, rs: seq<Round>, w: nat, n: nat): (c: seq<Candidate>)
    requires 0 < n <= |rs|
    ensures |c| <= 1
    ensures forall x :: x in c ==> x.value >= 0
  {
    if n < |rs|
    then Comeback(Standings(g, rs, n), PlayerTotal(Through(g, rs, n), w),
                  Holder(w, Some(g.game.id), Some(AsUint(rs[n - 1].number))))
    else []
  }

  /** The comebacks after each of the first `n` rounds. */
  function ComebacksUpTo(g: GameRecord, rs: seq<Round>, w: nat, n: nat): (cs: seq<Candidate>)
    requires n <= |rs|
    ensures |cs| <= n
    ensures forall x :: x in cs ==> x.value >= 0
  {
    if n == 0 then [] else ComebacksUpTo(g, rs, w, n - 1) + RoundComebackOf(g, rs, w, n)
  }

  function Comebacks(g: GameRecord, w: nat): seq<Candidate>
  {
    var rs := SortedRounds(g);
    ComebacksUpTo(g, rs, w, |rs|)
  }

  /** One game's comebacks: none when the game is skipped. */
  function GameCands(g: GameRecord, w: nat): seq<Candidate>
  {
    if Qualifies(g) then Comebacks(g, w) else []
  }

  /** Every game's comebacks, game after game, with `winners` the top scorer each settled on. */
  function AllComebacks(games: seq<GameRecord>, winners: seq<nat>): seq<Candidate>
    requires |winners| == |games|
  {
    if |games| == 0 then []
    else
      var n := |games| - 1;
      AllComebacks(games[..n], winners[..n]) + GameCands(games[n], winners[n])
  }

  // ------------------------------------------------------------------ the proofs

  /** A round's comeback is never negative, names the top scorer, and comes from a round before
      the last in which that player was at the bottom. */
  lemma RoundComebackMeaning(g: GameRecord, rs: seq<Round>, w: nat, n: nat)
    requires 0 < n <= |rs|
    ensures forall c :: c in RoundComebackOf(g, rs, w, n) ==>
              n < |rs| && |Scorers(g, rs)| > 0
              && c == Candidate(MaxOf(Standings(g, rs, n)) - MinOf(Standings(g, rs, n)),
                                Holder(w, Some(g.game.id), Some(AsUint(rs[n - 1].number))))
              && PlayerTotal(Through(g, rs, n), w) == MinOf(Standings(g, rs, n))
              && c.value >= 0
  {
    var t := Standings(g, rs, n);
    if |t| > 0 {
      assert MinOf(t) <= MaxOf(t) by { assert MinOf(t) <= t[0] <= MaxOf(t); }
    }
  }



  lemma AllComebacksSnoc(games: seq<GameRecord>, winners: seq<nat>, i: nat, w: nat, cands: seq<Candidate>)
    requires i < |games| && |winners| == i
    requires cands == GameCands(games[i], w)
    ensures AllComebacks(games[..i + 1], winners + [w]) == AllComebacks(games[..i], winners) + cands
  {
    var gs, ws := games[..i + 1], winners + [w];
    assert gs[..i] == games[..i] && gs[i] == games[i];
    assert ws[..i] == winners && ws[i] == w;
    assert AllComebacks(gs, ws) == AllComebacks(gs[..i], ws[..i]) + GameCands(gs[i], ws[i]);
  }

  /** No comebacks at all leaves the best at -1, and any comeback makes it non-negative. */
  lemma BestIsNegativeOnlyWithoutComebacks(cs: seq<Candidate>)
    requires forall k :: 0 <= k < |cs| ==> cs[k].value >= 0
    ensures BestOf(-1, cs) < 0 <==> |cs| == 0
  {
    if |cs| > 0 {
      assert cs[0].value <= BestOf(-1, cs);
    }
  }

  lemma {:induction false} AllComebacksNonNegative(games: seq<GameRecord>, winners: seq<nat>)
    requires |winners| == |games|
    ensures forall c :: c in AllComebacks(games, winners) ==> c.value >= 0
  {
    if |games| > 0 {
      var n := |games| - 1;
      AllComebacksNonNegative(games[..n], winners[..n]);
    }
  }

  lemma PlayerIdsAppend(a: seq<Score>, b: seq<Score>)
    ensures PlayerIds(a + b) == PlayerIds(a) + PlayerIds(b)
  {
    var t := a + b;
    forall p | p in PlayerIds(t) ensures p in PlayerIds(a) + PlayerIds(b) {
      var i :| 0 <= i < |t| && t[i].playerId == p;
      if i < |a| { assert a[i] == t[i]; } else { assert b[i - |a|] == t[i]; }
    }
    forall p | p in PlayerIds(a) ensures p in PlayerIds(t) {
      var i :| 0 <= i < |a| && a[i].playerId == p;
      assert t[i] == a[i];
    }
    forall p | p in PlayerIds(b) ensures p in PlayerIds(t) {
      var i :| 0 <= i < |b| && b[i].playerId == p;
      assert t[|a| + i] == b[i];
    }
  }

  lemma {:induction false} ThroughScorers(g: GameRecord, rs: seq<Round>, n: nat)
    requires n <= |rs|
    ensures PlayerIds(Through(g, rs, n)) <= PlayerIds(Through(g, rs, |rs|))
    decreases |rs| - n
  {
    if n < |rs| {
      ThroughScorers(g, rs, n + 1);
      PlayerIdsAppend(Through(g, rs, n), RoundRows(g.scores, rs[n].id));
    }
  }

  /** The minimum found over a map of totals keyed by the scorers is the minimum of the
      standings. */
  lemma MinMatches(m: map<nat, int>, ps: seq<nat>, rows: seq<Score>, lo: int)
    requires |ps| > 0 && (forall p :: p in m <==> p in ps)
    requires forall p :: p in m ==> m[p] == PlayerTotal(rows, p)
    requires (exists p :: p in m && m[p] == lo) && forall p :: p in m ==> lo <= m[p]
    ensures lo == MinOf(TotalsOf(ps, rows))
  {
    var t := TotalsOf(ps, rows);
    var a :| 0 <= a < |t| && t[a] == MinOf(t);
    assert ps[a] in m;
    var p :| p in m && m[p] == lo;
    var i :| 0 <= i < |ps| && ps[i] == p;
    assert t[i] == lo;
  }

  /** Likewise the maximum. */
  lemma MaxMatches(m: map<nat, int>, ps: seq<nat>, rows: seq<Score>, hi: int)
    requires |ps| > 0 && (forall p :: p in m <==> p in ps)
    requires forall p :: p in m ==> m[p] == PlayerTotal(rows, p)
    requires (exists p :: p in m && m[p] == hi) && forall p :: p in m ==> m[p] <= hi
    ensures hi == MaxOf(TotalsOf(ps, rows))
  {
    var t := TotalsOf(ps, rows);
    var b :| 0 <= b < |t| && t[b] == MaxOf(t);
    assert ps[b] in m;
    var q :| q in m && m[q] == hi;
    var j :| 0 <= j < |ps| && ps[j] == q;
    assert t[j] == hi;
  }

  // ------------------------------------------------------------------ the scan

  /** One `m[s.PlayerID] += s.Points`. */
  lemma AddOne(m0: map<nat, int>, m: map<nat, int>, prefix: seq<Score>, s: Score)
    requires forall p :: Get(m, p) == Get(m0, p) + PlayerTotal(prefix, p)
    ensures forall p :: Get(m[s.playerId := Get(m, s.playerId) + s.points], p) == Get(m0, p) + PlayerTotal(prefix + [s], p)
  {
    forall p ensures Get(m[s.playerId := Get(m, s.playerId) + s.points], p) == Get(m0, p) + PlayerTotal(prefix + [s], p) {
      PlayerTotalSnoc(prefix, s, p);
    }
  }

  /** `m[s.PlayerID] += s.Points` over rows, a missing key reading as 0. */
  method AddRows(m: map<nat, int>, rows: seq<Score>) returns (m': map<nat, int>)
    ensures m'.Keys == m.Keys + PlayerIds(rows)
    ensures forall p :: Get(m', p) == Get(m, p) + PlayerTotal(rows, p)
  {
    m' := m;
    var i := 0;
    while i < |rows|
      invariant i <= |rows|
      invariant m'.Keys == m.Keys + PlayerIds(rows[..i])
      invariant forall p :: Get(m', p) == Get(m, p) + PlayerTotal(rows[..i], p)
    {
      var s := rows[i];
      assert rows[..i + 1] == rows[..i] + [s];
      PlayerIdsSnoc(rows[..i], s);
      AddOne(m, m', rows[..i], s);
      m' := m'[s.playerId := Get(m', s.playerId) + s.points];
      i := i + 1;
    }
    assert rows[..i] == rows;
  }

  /** `m` holds every player's total over `rows`, a missing key standing for 0. */
  ghost predicate Tallied(m: map<nat, int>, rows: seq<Score>)
  {
    forall p :: Get(m, p) == PlayerTotal(rows, p)
  }

  /** `m` holds every player's total over the first `n` rounds. */
  ghost predicate TalliedThrough(m: map<nat, int>, g: GameRecord, rs: seq<Round>, n: nat)
    requires n <= |rs|
  {
    Tallied(m, Through(g, rs, n))
  }

  lemma ThroughStep(g: GameRecord, rs: seq<Round>, i: nat, before: map<nat, int>, after: map<nat, int>)
    requires i < |rs|
    requires Tallied(before, Through(g, rs, i))
    requires forall p :: Get(after, p) == Get(before, p) + PlayerTotal(RoundRows(g.scores, rs[i].id), p)
    ensures Tallied(after, Through(g, rs, i + 1))
  {
    forall p ensures Get(after, p) == PlayerTotal(Through(g, rs, i + 1), p) {
      SumPointsAppend(Through(g, rs, i), RoundRows(g.scores, rs[i].id), (x: Score) => x.playerId == p);
    }
  }

  /** The `finalTotals` loop. */
  method FinalTotals(g: GameRecord, rs: seq<Round>) returns (final: map<nat, int>)
    ensures final.Keys == PlayerIds(Through(g, rs, |rs|))
    ensures TalliedThrough(final, g, rs, |rs|)
  {
    final := map[];
    var i := 0;
    while i < |rs|
      invariant i <= |rs|
      invariant final.Keys == PlayerIds(Through(g, rs, i))
      invariant TalliedThrough(final, g, rs, i)
    {
      var before := final;
      final := AddRows(final, RoundRows(g.scores, rs[i].id));
      PlayerIdsAppend(Through(g, rs, i), RoundRows(g.scores, rs[i].id));
      ThroughStep(g, rs, i, before, final);
      i := i + 1;
    }
  }

  /** The `winnerID` loop: some player with the largest final total. */
  method PickTop(final: map<nat, int>) returns (w: nat)
    requires final != map[]
    ensures w in final && forall p :: p in final ==> final[p] <= final[w]
  {
    var pending := final.Keys;
    w :| w in pending;
    pending := pending - {w};
    while pending != {}
      invariant pending <= final.Keys && w in final
      invariant forall p :: p in final.Keys - pending ==> final[p] <= final[w]
      decreases |pending|
    {
      var p :| p in pending;
      if final[p] > final[w] {
        w := p;
      }
      pending := pending - {p};
    }
  }

  /** The min/max loop over the running totals. */
  method Extremes(m: map<nat, int>) returns (lo: int, hi: int)
    requires m != map[]
    ensures (exists p :: p in m && m[p] == lo) && forall p :: p in m ==> lo <= m[p]
    ensures (exists p :: p in m && m[p] == hi) && forall p :: p in m ==> m[p] <= hi
  {
    var pending := m.Keys;
    var first :| first in pending;
    lo, hi := m[first], m[first];
    pending := pending - {first};
    while pending != {}
      invariant pending <= m.Keys
      invariant (exists p :: p in m && m[p] == lo) && forall p :: p in m.Keys - pending ==> lo <= m[p]
      invariant (exists p :: p in m && m[p] == hi) && forall p :: p in m.Keys - pending ==> m[p] <= hi
      decreases |pending|
    {
      var p :| p in pending;
      if m[p] < lo {
        lo := m[p];
      }
      if m[p] > hi {
        hi := m[p];
      }
      pending := pending - {p};
    }
  }

  /** The running totals after round `i` of the scan; the keys stay those of `finalTotals`. */
  method AdvanceRound(g: GameRecord, rs: seq<Round>, i: nat, running: map<nat, int>) returns (running': map<nat, int>)
    requires i < |rs| && running.Keys == PlayerIds(Through(g, rs, |rs|))
    requires TalliedThrough(running, g, rs, i)
    ensures running'.Keys == running.Keys
    ensures TalliedThrough(running', g, rs, i + 1)
  {
    running' := AddRows(running, RoundRows(g.scores, rs[i].id));
    ThroughStep(g, rs, i, running, running');
    ThroughScorers(g, rs, i + 1);
    PlayerIdsAppend(Through(g, rs, i), RoundRows(g.scores, rs[i].id));
  }

  /** What Comeback is once the extremes of the standings are known. */
  lemma ComebackIs(t: seq<int>, mine: int, h: Holder, lo: int, hi: int)
    requires |t| > 0 && lo == MinOf(t) && hi == MaxOf(t)
    ensures Comeback(t, mine, h) == if mine == lo then [Candidate(hi - mine, h)] else []
  {
  }

  /** The min/max pass and the comeback check after round `n - 1`, a round before the last. */
  method RoundComeback(g: GameRecord, rs: seq<Round>, w: nat, i: nat, running: map<nat, int>)
    returns (c: seq<Candidate>)
    requires i + 1 < |rs| && running.Keys == PlayerIds(Through(g, rs, |rs|)) && w in running
    requires TalliedThrough(running, g, rs, i + 1)
    ensures c == RoundComebackOf(g, rs, w, i + 1)
  {
    ghost var ps := Scorers(g, rs);
    ghost var rows := Through(g, rs, i + 1);
    assert forall p :: p in running ==> running[p] == PlayerTotal(rows, p) by {
      forall p | p in running ensures running[p] == PlayerTotal(rows, p) {
        assert Get(running, p) == running[p];
      }
    }
    assert w in ps;
    var lo, hi := Extremes(running);
    MinMatches(running, ps, rows, lo);
    MaxMatches(running, ps, rows, hi);
    var mine := running[w];
    ComebackIs(Standings(g, rs, i + 1), mine, Holder(w, Some(g.game.id), Some(AsUint(rs[i].number))), lo, hi);
    if mine == lo {
      c := [Candidate(hi - mine, Holder(w, Some(g.game.id), Some(AsUint(rs[i].number))))];
    } else {
      c := [];
    }
  }

  /** The last round adds no comeback (the loop breaks before checking it). */
  lemma ComebacksAtEnd(g: GameRecord, rs: seq<Round>, w: nat, i: nat)
    requires i + 1 == |rs|
    ensures ComebacksUpTo(g, rs, w, i + 1) == ComebacksUpTo(g, rs, w, i)
  {
    assert RoundComebackOf(g, rs, w, i + 1) == [];
  }

  /** Before the last round, the check after round `i + 1` appends its comeback, if any. */
  lemma ComebacksUpToNext(g: GameRecord, rs: seq<Round>, w: nat, i: nat, c: seq<Candidate>)
    requires i + 1 < |rs| && c == RoundComebackOf(g, rs, w, i + 1)
    ensures ComebacksUpTo(g, rs, w, i + 1) == ComebacksUpTo(g, rs, w, i) + c
  {
  }

  /** One pass of the round loop: add round `i`'s rows to the running totals, then, unless it
      is the last round (the `break`), check for a comeback. */
  method ScanStep(g: GameRecord, rs: seq<Round>, w: nat, i: nat, running: map<nat, int>, cands: seq<Candidate>)
    returns (running': map<nat, int>, cands': seq<Candidate>)
    requires i < |rs| && running.Keys == PlayerIds(Through(g, rs, |rs|)) && w in running
    requires TalliedThrough(running, g, rs, i) && cands == ComebacksUpTo(g, rs, w, i)
    ensures running'.Keys == running.Keys
    ensures TalliedThrough(running', g, rs, i + 1) && cands' == ComebacksUpTo(g, rs, w, i + 1)
  {
    running' := AdvanceRound(g, rs, i, running);
    if i < |rs| - 1 {
      var c := RoundComeback(g, rs, w, i, running');
      ComebacksUpToNext(g, rs, w, i, c);
      cands' := cands + c;
    } else {
      ComebacksAtEnd(g, rs, w, i);
      cands' := cands;
    }
  }

  /** The scan of one game's rounds, after the skips: the running totals per round and the
      comebacks recorded before the last round. */
  method RoundScan(g: GameRecord, rs: seq<Round>, final: map<nat, int>, w: nat) returns (cands: seq<Candidate>)
    requires |rs| > 0 && final.Keys == PlayerIds(Through(g, rs, |rs|)) && w in final
    ensures cands == ComebacksUpTo(g, rs, w, |rs|)
  {
    var running: map<nat, int> := map p | p in final.Keys :: 0;
    cands := [];
    var i := 0;
    while i < |rs|
      invariant i <= |rs|
      invariant running.Keys == final.Keys
      invariant TalliedThrough(running, g, rs, i)
      invariant cands == ComebacksUpTo(g, rs, w, i)
    {
      running, cands := ScanStep(g, rs, w, i, running, cands);
      i := i + 1;
    }
  }

  /** The skips of the game loop, stated on the sorted rounds and the final totals. */
  lemma QualifiesIs(g: GameRecord, rs: seq<Round>, final: map<nat, int>)
    requires rs == SortedRounds(g) && final.Keys == PlayerIds(Through(g, rs, |rs|))
    ensures Qualifies(g) <==> |rs| > 0 && |g.players| >= 2 && |final| >= 2
  {
    PlayersCount(Through(g, rs, |rs|));
    assert |final| == |final.Keys| == |PlayerIds(Through(g, rs, |rs|))| == |Scorers(g, rs)|;
  }

  /** A player with the largest final total is a top scorer. */
  lemma TopScorerIs(g: GameRecord, rs: seq<Round>, final: map<nat, int>, w: nat)
    requires rs == SortedRounds(g) && final.Keys == PlayerIds(Through(g, rs, |rs|))
    requires TalliedThrough(final, g, rs, |rs|)
    requires w in final && forall p :: p in final ==> final[p] <= final[w]
    ensures IsTopScorer(g, w)
  {
    var rows := Through(g, rs, |rs|);
    assert forall p :: p in final ==> final[p] == PlayerTotal(rows, p) by {
      forall p | p in final ensures final[p] == PlayerTotal(rows, p) {
        assert Get(final, p) == final[p];
      }
    }
    assert w in Scorers(g, rs);
    MaxMatches(final, Scorers(g, rs), rows, final[w]);
  }

  /** One game of globalComebackKid: no comebacks for a skipped game, otherwise those of the
      top scorer the map loop picks. */
  method GameComebacks(g: GameRecord) returns (cands: seq<Candidate>, ghost w: nat)
    ensures cands == GameCands(g, w)
    ensures Qualifies(g) ==> IsTopScorer(g, w)
  {
    w := 0;
    var rs := SortedRounds(g);
    if |rs| == 0 || |g.players| < 2 {
      return [], w;
    }
    var final := FinalTotals(g, rs);
    QualifiesIs(g, rs, final);
    if |final| < 2 {
      return [], w;
    }
    var winner := PickTop(final);
    w := winner;
    TopScorerIs(g, rs, final, winner);
    cands := RoundScan(g, rs, final, winner);
  }

  /** Offering a game's comebacks one by one (the `switch` inside the round loop). */
  method OfferAll(ghost seen: seq<Candidate>, best: int, holders: seq<Holder>, cands: seq<Candidate>)
    returns (best': int, holders': seq<Holder>)
    requires best == BestOf(-1, seen) && holders == HoldersAt(seen, best)
    ensures best' == BestOf(-1, seen + cands) && holders' == HoldersAt(seen + cands, best')
  {
    best', holders' := best, holders;
    var i := 0;
    assert seen + cands[..0] == seen;
    while i < |cands|
      invariant i <= |cands|
      invariant best' == BestOf(-1, seen + cands[..i]) && holders' == HoldersAt(seen + cands[..i], best')
    {
      assert seen + cands[..i + 1] == (seen + cands[..i]) + [cands[i]];
      assert (seen + cands[..i + 1])[..|seen + cands[..i]|] == seen + cands[..i];
      best', holders' := Offer(seen + cands[..i], best', holders', cands[i]);
      assert best' == BestOf(-1, seen + cands[..i + 1]);
      i := i + 1;
    }
    assert cands[..i] == cands;
  }

  /** The top scorer picked for each qualifying game. */
  ghost predicate Picked(games: seq<GameRecord>, winners: seq<nat>)
  {
    |winners| == |games| && forall k :: 0 <= k < |games| && Qualifies(games[k]) ==> IsTopScorer(games[k], winners[k])
  }

  lemma PickedSnoc(games: seq<GameRecord>, winners: seq<nat>, i: nat, w: nat)
    requires i < |games| && Picked(games[..i], winners)
    requires Qualifies(games[i]) ==> IsTopScorer(games[i], w)
    ensures Picked(games[..i + 1], winners + [w])
  {
    var gs, ws := games[..i + 1], winners + [w];
    forall k | 0 <= k < |gs| && Qualifies(gs[k]) ensures IsTopScorer(gs[k], ws[k]) {
      if k < i {
        assert gs[k] == games[..i][k] && ws[k] == winners[k];
      }
    }
  }

  /** The badge the comebacks give: none without a comeback, otherwise the largest with every
      holder that reached it. */
  function ComebackBadge(cs: seq<Candidate>): (b: Option<Badge>)
  {
    if |cs| == 0 then None
    else Some(Badge(KeyComebackKid, LabelComebackKid, BestOf(-1, cs), StatusRecord, HoldersAt(cs, BestOf(-1, cs))))
  }

  /** The Comeback Kid record: the largest comeback of any game, held by every top scorer who
      made a comeback that large, naming the game and the round number. */
  lemma ComebackBadgeMeaning(games: seq<GameRecord>, winners: seq<nat>)
    requires |winners| == |games|
    ensures var cs := AllComebacks(games, winners);
            var b := ComebackBadge(cs);
            (b.None? <==> |cs| == 0)
            && (b.Some? ==>
                  b.value.value >= 0
                  && (exists c :: c in cs && c.value == b.value.value)
                  && (forall c :: c in cs ==> c.value <= b.value.value)
                  && (forall h :: h in b.value.holders <==> Candidate(b.value.value, h) in cs))
  {
    var cs := AllComebacks(games, winners);
    AllComebacksNonNegative(games, winners);
    if |cs| > 0 {
      var v := BestOf(-1, cs);
      assert cs[0].value <= v;
      forall h ensures h in HoldersAt(cs, v) <==> Candidate(v, h) in cs {
        if Candidate(v, h) in cs {
          var k :| 0 <= k < |cs| && cs[k] == Candidate(v, h);
        }
      }
    }
  }

  /** globalComebackKid over the finished, complete games. */
  method GlobalComebackKid(games: seq<GameRecord>) returns (b: Option<Badge>, ghost winners: seq<nat>)
    ensures |winners| == |games|
    ensures forall k :: 0 <= k < |games| && Qualifies(games[k]) ==> IsTopScorer(games[k], winners[k])
    ensures b == ComebackBadge(AllComebacks(games, winners))
  {
    var best := -1;
    var holders: seq<Holder> := [];
    winners := [];
    var i := 0;
    while i < |games|
      invariant i <= |games| && Picked(games[..i], winners)
      invariant best == BestOf(-1, AllComebacks(games[..i], winners))
      invariant holders == HoldersAt(AllComebacks(games[..i], winners), best)
    {
      var cands, w := GameComebacks(games[i]);
      AllComebacksSnoc(games, winners, i, w, cands);
      PickedSnoc(games, winners, i, w);
      best, holders := OfferAll(AllComebacks(games[..i], winners), best, holders, cands);
      winners := winners + [w];
      i := i + 1;
    }
    assert games[..i] == games;
    AllComebacksNonNegative(games, winners);
    BestIsNegativeOnlyWithoutComebacks(AllComebacks(games, winners));
    if best < 0 {
      return None, winners;
    }
    b := Some(Badge(KeyComebackKid, LabelComebackKid, best, StatusRecord, holders));
  }
}
