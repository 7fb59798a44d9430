/** The game detail response (backend/services/game_retrieval.go): the stored game with its
    CDL-injected objectives, the per-player score summary, the ledger listed whole and grouped
    by objective, the Custodians holder, the winner's victory path with its frequency among all
    winners, and the speaker to show. Player names are not part of this model. */
module GameRetrieval {
  import opened Wrappers
  import opened Models
  import opened ScoringHelpers
  import opened Store
  import opened SpeakerService
  import opened Tally
  import opened VictoryPathKey
  import opened VictoryPoints
  import opened Cdl

  /** The winner's path, how many won games share its key, and how rare that makes it. */
  datatype PathSummary = PathSummary(path: VictoryPath, frequency: nat, uniqueness: int)

  /** One player's line of the summary. */
  datatype PlayerScoreSummary = PlayerScoreSummary(playerId: nat, points: int)

  datatype GameDetail = GameDetail(
    game: Game,
    players: seq<GamePlayer>,
    rounds: seq<Round>,
    objectives: seq<GameObjective>,
    scores: seq<PlayerScoreSummary>,
    allScores: seq<Score>,
    scoresByObjective: map<nat, seq<Score>>,
    custodiansPlayerId: Option<nat>,
    winnerVictoryPath: Option<PathSummary>,
    speakerId: Option<nat>)

  const MsgGameNotFound := "game not found"

  // ---------------------------------------------------------------------------------------
  // Victory-path uniqueness

  /** 100 for a path seen at most once, else 100 divided by the frequency, truncated. */
  function Uniqueness(freq: nat): (u: int)
    ensures 0 <= u <= 100
    ensures freq <= 1 ==> u == 100
    ensures freq > 1 ==> u * freq <= 100 < (u + 1) * freq
  {
    if freq > 1 then 100 / freq else 100
  }

  /** A Go map read: a missing key reads as 0. */
  function CountOf(m: map<string, nat>, key: string): nat
  {
    if key in m then m[key] else 0
  }

  /** The cached counts after the lookup of `key`: kept when the key is present, otherwise
      replaced by a fresh recount (`refreshed`, the result of RefreshVictoryPathCache). */
  function CacheAfterLookup(cache: map<string, nat>, refreshed: map<string, nat>, key: string): map<string, nat>
  {
    if key in cache then cache else refreshed
  }

  /** The victory-path summary: only for a game with a winner, over the winner's rows. */
  method WinnerVictoryPath(catalog: seq<Objective>, st: State, cache: map<string, nat>, refreshed: map<string, nat>)
    returns (summary: Option<PathSummary>, cacheAfter: map<string, nat>)
    ensures st.game.winner.None? ==> summary.None? && cacheAfter == cache
    ensures st.game.winner.Some? ==>
              var path := PathOf(catalog, st.scores, st.game.winner.value);
              var key := FormatVictoryPathKey(path);
              cacheAfter == CacheAfterLookup(cache, refreshed, key)
              && summary == Some(PathSummary(path, CountOf(cacheAfter, key), Uniqueness(CountOf(cacheAfter, key))))
  {
    summary := None;
    cacheAfter := cache;
    if st.game.winner.Some? {
      var vp := CalculateVictoryPath(catalog, st.scores, st.game.winner.value);
      var key := FormatVictoryPathKey(vp);
      if key !in cacheAfter {
        cacheAfter := refreshed;
      }
      var freq := if key in cacheAfter then cacheAfter[key] else 0;
      var uniqueness := 100;
      if freq > 1 {
        uniqueness := 100 / freq;
      }
      summary := Some(PathSummary(vp, freq, uniqueness));
    }
  }

  /** Read from counts of the winners' path keys, the frequency of a path is the number of won
      games whose winner took exactly that path. */
  lemma FrequencyIsPathCount(m: map<string, nat>, paths: seq<VictoryPath>, p: VictoryPath)
    requires Counts(m, Keys(paths))
    ensures CountOf(m, FormatVictoryPathKey(p)) == Occurrences(paths, p)
  {
    KeyCountIsPathCount(paths, p);
  }

  /** The winner's own game is among the counted ones, so after a recount the frequency is at
      least 1 and the uniqueness at most 100 divided by it. */
  lemma RecountedPathIsCounted(m: map<string, nat>, paths: seq<VictoryPath>, p: VictoryPath)
    requires Counts(m, Keys(paths)) && p in paths
    ensures FormatVictoryPathKey(p) in m
    ensures CountOf(m, FormatVictoryPathKey(p)) >= 1
  {
    FrequencyIsPathCount(m, paths, p);
    OccursWhenIn(paths, p);
  }

  lemma {:induction false} OccursWhenIn(paths: seq<VictoryPath>, p: VictoryPath)
    requires p in paths
    ensures Occurrences(paths, p) >= 1
    decreases |paths|
  {
    var n := |paths| - 1;
    if paths[n] != p {
      assert paths == paths[..n] + [paths[n]];
      OccursWhenIn(paths[..n], p);
    }
  }

  // ---------------------------------------------------------------------------------------
  // Custodians holder

  /** The player of the last row typed exactly "mecatol". */
  function LastMecatol(scores: seq<Score>): (r: Option<nat>)
    ensures r.None? <==> forall k :: 0 <= k < |scores| ==> scores[k].kind != TypeMecatol
    ensures r.Some? ==> exists k :: 0 <= k < |scores| && scores[k].kind == TypeMecatol && scores[k].playerId == r.value
                                    && forall j :: k < j < |scores| ==> scores[j].kind != TypeMecatol
  {
    if |scores| == 0 then None
    else
      var n := |scores| - 1;
      assert forall k :: 0 <= k < n ==> scores[..n][k] == scores[k];
      if scores[n].kind == TypeMecatol then Some(scores[n].playerId) else LastMecatol(scores[..n])
  }

  /** Under the ledger's at-most-one-Custodians rule there is a single "mecatol" row. */
  lemma {:induction false} SingleMecatolRow(scores: seq<Score>)
    requires MecatolCount(scores) <= 1
    ensures forall i, j :: 0 <= i < j < |scores| ==> !(scores[i].kind == TypeMecatol && scores[j].kind == TypeMecatol)
    decreases |scores|
  {
    if |scores| > 0 {
      var n := |scores| - 1;
      var s := scores[..n];
      assert scores == s + [scores[n]];
      CountWhereSnoc(s, scores[n], (y: Score) => y.kind == TypeMecatol);
      SingleMecatolRow(s);
      if scores[n].kind == TypeMecatol {
        CountWherePositive(s, (y: Score) => y.kind == TypeMecatol);
      }
      forall i, j | 0 <= i < j < |scores|
        ensures !(scores[i].kind == TypeMecatol && scores[j].kind == TypeMecatol)
      {
        assert s[i] == scores[i];
        if j < n {
          assert s[j] == scores[j];
        }
      }
    }
  }

  /** Under that rule the reported holder is the player of every "mecatol" row. */
  lemma CustodiansHolderUnique(scores: seq<Score>)
    requires MecatolCount(scores) <= 1
    ensures forall k :: 0 <= k < |scores| && scores[k].kind == TypeMecatol ==>
              LastMecatol(scores) == Some(scores[k].playerId)
  {
    SingleMecatolRow(scores);
  }

  // ---------------------------------------------------------------------------------------
  // Per-player summary

  function SummaryIds(summaries: seq<PlayerScoreSummary>): (r: seq<nat>)
    ensures |r| == |summaries|
    ensures forall k :: 0 <= k < |r| ==> r[k] == summaries[k].playerId
  {
    seq(|summaries|, k requires 0 <= k < |summaries| => summaries[k].playerId)
  }

  /** One line per player with a row, none twice, each holding that player's total. */
  predicate SummarisesTotals(scores: seq<Score>, summaries: seq<PlayerScoreSummary>)
  {
    Distinct(SummaryIds(summaries))
    && PlayerIds(scores) == (set p | p in SummaryIds(summaries))
    && (forall k :: 0 <= k < |summaries| ==> summaries[k].points == PlayerTotal(scores, summaries[k].playerId))
  }

  /** What the summary loop knows after reading the first `i` rows. */
  ghost predicate SumScan(scores: seq<Score>, i: nat, custodians: Option<nat>, totals: map<nat, int>)
  {
    i <= |scores|
    && custodians == LastMecatol(scores[..i])
    && totals.Keys == PlayerIds(scores[..i])
    && forall p :: p in totals ==> totals[p] == PlayerTotal(scores[..i], p)
  }

  /** Reading row `i` into the running totals keeps the summary loop's knowledge. */
  lemma SumScanNext(scores: seq<Score>, i: nat, custodians: Option<nat>, totals: map<nat, int>)
    requires SumScan(scores, i, custodians, totals) && i < |scores|
    ensures SumScan(scores, i + 1,
      if scores[i].kind == TypeMecatol then Some(scores[i].playerId) else custodians,
      totals[scores[i].playerId := (if scores[i].playerId in totals then totals[scores[i].playerId] else 0) + scores[i].points])
  {
    var s := scores[i];
    var pre := scores[..i];
    assert scores[..i + 1] == pre + [s];
    var t := totals[s.playerId := (if s.playerId in totals then totals[s.playerId] else 0) + s.points];
    PlayerIdsSnoc(pre, s);
    forall p | p in t ensures t[p] == PlayerTotal(pre + [s], p) {
      PlayerTotalSnoc(pre, s, p);
      if p == s.playerId && s.playerId !in PlayerIds(pre) {
        PlayerTotalAbsent(pre, p);
      }
    }
  }

  /** The summary loop: sums per player, noting the player of each "mecatol" row. */
  method SumPerPlayer(scores: seq<Score>) returns (custodians: Option<nat>, totals: map<nat, int>)
    ensures custodians == LastMecatol(scores)
    ensures totals.Keys == PlayerIds(scores)
    ensures forall p :: p in totals ==> totals[p] == PlayerTotal(scores, p)
  {
    custodians := None;
    totals := map[];
    var i := 0;
    while i < |scores|
      invariant SumScan(scores, i, custodians, totals)
    {
      SumScanNext(scores, i, custodians, totals);
      var s := scores[i];
      if s.kind == TypeMecatol {
        custodians := Some(s.playerId);
      }
      var points := if s.playerId in totals then totals[s.playerId] else 0;
      totals := totals[s.playerId := points + s.points];
      i := i + 1;
    }
    assert scores[..i] == scores;
  }

  /** The lines listed so far: one per key of `totals` outside `pending`, none twice. */
  ghost predicate Listed(totals: map<nat, int>, pending: set<nat>, summaries: seq<PlayerScoreSummary>)
  {
    pending <= totals.Keys
    && Distinct(SummaryIds(summaries))
    && (set q | q in SummaryIds(summaries)) == totals.Keys - pending
    && forall k :: 0 <= k < |summaries| ==>
         summaries[k].playerId in totals && summaries[k].points == totals[summaries[k].playerId]
  }

  lemma ListStep(totals: map<nat, int>, pending: set<nat>, summaries: seq<PlayerScoreSummary>, p: nat)
    requires Listed(totals, pending, summaries) && p in pending
    ensures Listed(totals, pending - {p}, summaries + [PlayerScoreSummary(p, totals[p])])
  {
    var line := PlayerScoreSummary(p, totals[p]);
    SummaryIdsSnoc(summaries, line);
    assert p !in (set q | q in SummaryIds(summaries));
    assert totals.Keys - (pending - {p}) == (totals.Keys - pending) + {p};
    var s' := summaries + [line];
    forall k | 0 <= k < |s'| ensures s'[k].playerId in totals && s'[k].points == totals[s'[k].playerId] {
      if k < |summaries| {
        assert s'[k] == summaries[k];
      }
    }
  }

  /** The copy of the summary map into a list, in map iteration order (left open). */
  method ListSummaries(totals: map<nat, int>) returns (summaries: seq<PlayerScoreSummary>)
    ensures Distinct(SummaryIds(summaries))
    ensures (set q | q in SummaryIds(summaries)) == totals.Keys
    ensures forall k :: 0 <= k < |summaries| ==>
              summaries[k].playerId in totals && summaries[k].points == totals[summaries[k].playerId]
  {
    summaries := [];
    var keys := totals.Keys;
    while keys != {}
      invariant Listed(totals, keys, summaries)
      decreases |keys|
    {
      var p :| p in keys;
      ListStep(totals, keys, summaries, p);
      summaries := summaries + [PlayerScoreSummary(p, totals[p])];
      keys := keys - {p};
    }
    assert totals.Keys - keys == totals.Keys;
  }

  /** Appending a line for a player not yet listed keeps the list duplicate-free. */
  lemma SummaryIdsSnoc(before: seq<PlayerScoreSummary>, line: PlayerScoreSummary)
    ensures SummaryIds(before + [line]) == SummaryIds(before) + [line.playerId]
    ensures (set q | q in SummaryIds(before + [line])) == (set q | q in SummaryIds(before)) + {line.playerId}
    ensures Distinct(SummaryIds(before)) && line.playerId !in SummaryIds(before) ==> Distinct(SummaryIds(before + [line]))
  {
    assert SummaryIds(before + [line]) == SummaryIds(before) + [line.playerId];
  }

  /** The per-player part of the response. */
  method SummariseScores(scores: seq<Score>) returns (custodians: Option<nat>, summaries: seq<PlayerScoreSummary>)
    ensures custodians == LastMecatol(scores)
    ensures SummarisesTotals(scores, summaries)
  {
    var totals;
    custodians, totals := SumPerPlayer(scores);
    summaries := ListSummaries(totals);
  }

  /** The summary's points add up to the ledger total. */
  function SummaryPoints(summaries: seq<PlayerScoreSummary>): int
  {
    if |summaries| == 0 then 0 else summaries[0].points + SummaryPoints(summaries[1..])
  }

  lemma {:induction false} SummaryPointsAreTotals(scores: seq<Score>, summaries: seq<PlayerScoreSummary>)
    requires forall k :: 0 <= k < |summaries| ==> summaries[k].points == PlayerTotal(scores, summaries[k].playerId)
    ensures SummaryPoints(summaries) == SumOfTotals(SummaryIds(summaries), scores)
    decreases |summaries|
  {
    if |summaries| > 0 {
      SummaryPointsAreTotals(scores, summaries[1..]);
      assert SummaryIds(summaries)[1..] == SummaryIds(summaries[1..]);
    }
  }

  lemma SummaryConservesPoints(scores: seq<Score>, summaries: seq<PlayerScoreSummary>)
    requires SummarisesTotals(scores, summaries)
    ensures SummaryPoints(summaries) == Total(scores)
  {
    SummaryPointsAreTotals(scores, summaries);
    var ids := SummaryIds(summaries);
    TotalsConserve(ids, scores);
  }

  // ---------------------------------------------------------------------------------------
  // Rows grouped by objective

  /** The rows of one objective, in ledger order. */
  function RowsFor(scores: seq<Score>, objective: nat): (r: seq<Score>)
    ensures |r| == CountWhere(scores, (x: Score) => x.objectiveId == objective)
    ensures forall x :: x in r <==> x in scores && x.objectiveId == objective
  {
    if |scores| == 0 then []
    else
      var n := |scores| - 1;
      assert scores == scores[..n] + [scores[n]];
      RowsFor(scores[..n], objective) + (if scores[n].objectiveId == objective then [scores[n]] else [])
  }

  /** The objective ids other than 0 that some row names. */
  function ObjectiveIds(scores: seq<Score>): set<nat>
  {
    set x | x in scores && x.objectiveId != 0 :: x.objectiveId
  }

  lemma RowsForSnoc(prefix: seq<Score>, x: Score, o: nat)
    ensures RowsFor(prefix + [x], o) == RowsFor(prefix, o) + (if x.objectiveId == o then [x] else [])
  {
    assert (prefix + [x])[..|prefix|] == prefix;
  }

  lemma ObjectiveIdsSnoc(prefix: seq<Score>, x: Score)
    ensures ObjectiveIds(prefix + [x]) == ObjectiveIds(prefix) + (if x.objectiveId != 0 then {x.objectiveId} else {})
  {
  }

  /** `groups` lists the rows of `rows` by objective. */
  ghost predicate Grouped(groups: map<nat, seq<Score>>, rows: seq<Score>)
  {
    groups.Keys == ObjectiveIds(rows) && forall o :: o in groups ==> groups[o] == RowsFor(rows, o)
  }

  /** An objective no row names has no rows. */
  lemma {:induction false} RowsForAbsent(rows: seq<Score>, o: nat)
    requires o != 0 && o !in ObjectiveIds(rows)
    ensures RowsFor(rows, o) == []
  {
    if |rows| > 0 {
      var n := |rows| - 1;
      assert rows[n] in rows;
      assert forall x :: x in rows[..n] ==> x in rows;
      RowsForAbsent(rows[..n], o);
    }
  }

  /** Appending one row to its objective's list keeps the grouping. */
  lemma GroupStep(groups: map<nat, seq<Score>>, prefix: seq<Score>, x: Score)
    requires Grouped(groups, prefix) && x.objectiveId != 0
    ensures Grouped(groups[x.objectiveId := (if x.objectiveId in groups then groups[x.objectiveId] else []) + [x]], prefix + [x])
  {
    var o := x.objectiveId;
    var g2 := groups[o := (if o in groups then groups[o] else []) + [x]];
    ObjectiveIdsSnoc(prefix, x);
    forall q | q in g2 ensures g2[q] == RowsFor(prefix + [x], q) {
      RowsForSnoc(prefix, x, q);
      if q == o && o !in groups {
        RowsForAbsent(prefix, o);
      }
    }
  }

  /** A row without an objective changes no group. */
  lemma SkipStep(groups: map<nat, seq<Score>>, prefix: seq<Score>, x: Score)
    requires Grouped(groups, prefix) && x.objectiveId == 0
    ensures Grouped(groups, prefix + [x])
  {
    ObjectiveIdsSnoc(prefix, x);
    forall q | q in groups ensures groups[q] == RowsFor(prefix + [x], q) {
      RowsForSnoc(prefix, x, q);
    }
  }

  /** scoreDTOsByObjective: each row appended to its objective's list, rows without an
      objective (id 0) left out. */
  method GroupByObjective(scores: seq<Score>) returns (groups: map<nat, seq<Score>>)
    ensures groups.Keys == ObjectiveIds(scores)
    ensures forall o :: o in groups ==> groups[o] == RowsFor(scores, o)
  {
    groups := map[];
    var i := 0;
    while i < |scores|
      invariant i <= |scores| && Grouped(groups, scores[..i])
    {
      var s := scores[i];
      assert scores[..i + 1] == scores[..i] + [s];
      if s.objectiveId != 0 {
        var o := s.objectiveId;
        GroupStep(groups, scores[..i], s);
        var prev := if o in groups then groups[o] else [];
        groups := groups[o := prev + [s]];
      } else {
        SkipStep(groups, scores[..i], s);
      }
      i := i + 1;
    }
    assert scores[..i] == scores;
  }

  /** Every row with an objective is listed under it, and only there. */
  lemma GroupsPartitionObjectiveRows(scores: seq<Score>, groups: map<nat, seq<Score>>)
    requires groups.Keys == ObjectiveIds(scores)
    requires forall o :: o in groups ==> groups[o] == RowsFor(scores, o)
    ensures forall x :: x in scores && x.objectiveId != 0 ==> x.objectiveId in groups && x in groups[x.objectiveId]
    ensures forall o, x :: o in groups && x in groups[o] ==> x in scores && x.objectiveId == o
  {
  }

  // ---------------------------------------------------------------------------------------
  // Speaker

  /** The speaker to show: the current round's assignment when the game has a current round,
      a round with that number and an assignment for it; otherwise the game's speaker. */
  function CurrentSpeaker(st: State): Option<nat>
  {
    var fromRound :=
      if st.game.currentRound != 0 && RoundIdByNumber(st.rounds, st.game.currentRound).Some? then
        SpeakerFor(st.speakers, RoundIdByNumber(st.rounds, st.game.currentRound).value)
      else None;
    if fromRound.Some? then fromRound else st.game.speakerId
  }

  /** The shown speaker is an assignment of the current round, or the game's speaker. */
  lemma CurrentSpeakerSource(st: State)
    ensures CurrentSpeaker(st).Some? ==>
              CurrentSpeaker(st) == st.game.speakerId
              || (st.game.currentRound != 0
                  && exists k :: 0 <= k < |st.speakers| && Some(st.speakers[k].roundId) == RoundIdByNumber(st.rounds, st.game.currentRound)
                                 && Some(st.speakers[k].playerId) == CurrentSpeaker(st))
    ensures CurrentSpeaker(st).None? ==> st.game.speakerId.None?
  {
    var rid := RoundIdByNumber(st.rounds, st.game.currentRound);
    if st.game.currentRound != 0 && rid.Some? {
      var f := FirstAssignment(st.speakers, rid.value);
      if f.Some? {
        assert st.speakers[f.value].roundId == rid.value;
      }
    }
  }

  /** Without an assignment for the current round the game's speaker is shown. */
  lemma FallsBackToGameSpeaker(st: State)
    requires st.game.currentRound == 0
             || RoundIdByNumber(st.rounds, st.game.currentRound).None?
             || forall k :: 0 <= k < |st.speakers| ==>
                  Some(st.speakers[k].roundId) != RoundIdByNumber(st.rounds, st.game.currentRound)
    ensures CurrentSpeaker(st) == st.game.speakerId
  {
  }

  /** The upsert makes the seat the round's speaker whatever was stored before. */
  lemma UpsertSetsSpeaker(speakers: seq<SpeakerAssignment>, roundId: nat, seat: nat)
    ensures SpeakerFor(Upsert(speakers, roundId, seat), roundId) == Some(seat)
  {
    var t := Upsert(speakers, roundId, seat);
    match FirstAssignment(speakers, roundId)
    case None =>
      assert forall k :: 0 <= k < |speakers| ==> t[k] == speakers[k];
      assert t[|speakers|].roundId == roundId;
    case Some(k) =>
      assert forall j :: 0 <= j < k ==> t[j] == speakers[j];
      assert t[k].roundId == roundId;
  }

  /** Once a seat is assigned to the current round, the detail shows that seat as speaker. */
  lemma AssignedSpeakerShown(st: State, seat: nat)
    requires st.game.currentRound != 0 && RoundIdByNumber(st.rounds, st.game.currentRound).Some?
    ensures CurrentSpeaker(st.(speakers := Upsert(st.speakers, RoundIdByNumber(st.rounds, st.game.currentRound).value, seat)))
            == Some(seat)
  {
    UpsertSetsSpeaker(st.speakers, RoundIdByNumber(st.rounds, st.game.currentRound).value, seat);
  }

  /** On a game without rounds, the id RandomiseSpeaker stores is the speaker the detail shows,
      and that id is looked up as a seat; as written it is a player id. */
  lemma RandomisedSpeakerShown(st: State, speaker: nat)
    requires st.rounds == [] && st.speakers == [] && st.game.currentRound == 1
    ensures CurrentSpeaker(RandomisedState(st, speaker)) == Some(speaker)
  {
    var t := RandomisedState(st, speaker);
    assert RoundIdByNumber(t.rounds, 1) == Some(t.rounds[0].id);
    assert t.speakers[|st.speakers|].roundId == t.rounds[0].id;
  }

  // ---------------------------------------------------------------------------------------
  // The response

  /** BuildGameDetailResponse for the store's game, given the victory-path cache and what a
      refresh of it would produce. Another game id is not found. */
  method BuildGameDetailResponse(catalog: seq<Objective>, st: State, gameId: nat,
                                 cache: map<string, nat>, refreshed: map<string, nat>)
    returns (r: Result<GameDetail>, cacheAfter: map<string, nat>)
    ensures gameId != st.game.id ==> r == Err(MsgGameNotFound) && cacheAfter == cache
    ensures gameId == st.game.id ==> r.Ok?
    ensures r.Ok? ==>
              var d := r.value;
              d.game == st.game && d.players == st.players && d.rounds == st.rounds
              && IsInjection(st.objectives, st.scores, d.objectives)
              && SummarisesTotals(st.scores, d.scores)
              && d.allScores == st.scores
              && d.scoresByObjective.Keys == ObjectiveIds(st.scores)
              && (forall o :: o in d.scoresByObjective ==> d.scoresByObjective[o] == RowsFor(st.scores, o))
              && d.custodiansPlayerId == LastMecatol(st.scores)
              && d.speakerId == CurrentSpeaker(st)
              && (d.winnerVictoryPath.Some? <==> st.game.winner.Some?)
    ensures r.Ok? && st.game.winner.Some? ==>
              var path := PathOf(catalog, st.scores, st.game.winner.value);
              var key := FormatVictoryPathKey(path);
              cacheAfter == CacheAfterLookup(cache, refreshed, key)
              && r.value.winnerVictoryPath == Some(PathSummary(path, CountOf(cacheAfter, key), Uniqueness(CountOf(cacheAfter, key))))
  {
    if gameId != st.game.id {
      return Err(MsgGameNotFound), cache;
    }
    var objectives := InjectCDLObjectives(st.objectives, st.scores);
    var vpSummary;
    vpSummary, cacheAfter := WinnerVictoryPath(catalog, st, cache, refreshed);
    var custodians, summaries := SummariseScores(st.scores);
    var allScores := st.scores;
    var byObjective := GroupByObjective(allScores);
    var speaker := CurrentSpeaker(st);
    r := Ok(GameDetail(st.game, st.players, st.rounds, objectives, summaries, allScores, byObjective,
                       custodians, vpSummary, speaker));
  }
}
