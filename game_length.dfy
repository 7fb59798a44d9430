/** Game-length statistics (helpers/stats/games.go): duration formatting, the per-category
    summary and the split into all, three-player and four-player games. Times are integers
    counting nanoseconds from Go's zero instant (January 1, year 1 UTC), so the zero `time.Time`
    is the value `ZeroTime`, and a `time.Duration` is an integer number of nanoseconds. */
module GameLength {
  import opened Wrappers
  import opened Text
  import opened Sorting

  const Second: int := 1_000_000_000
  const Minute: int := 60 * Second
  const Hour: int := 60 * Minute
  const ZeroTime: int := 0

  // ---------------------------------------------------------------- Go integer division

  /** Go's `/` on integers, which truncates toward zero (Dafny's `/` is Euclidean). */
  function Quot(a: int, b: int): (q: int)
    requires b > 0
    ensures a >= 0 ==> 0 <= a - q * b < b
    ensures a < 0 ==> -b < a - q * b <= 0
  {
    if a >= 0 then a / b else -((-a) / b)
  }

  /** Go's `%` on integers: the remainder takes the sign of the dividend. */
  function Rem(a: int, b: int): (r: int)
    requires b > 0
    ensures a >= 0 ==> 0 <= r < b
    ensures a < 0 ==> -b < r <= 0
    ensures a == Quot(a, b) * b + r
  {
    a - Quot(a, b) * b
  }

  // ---------------------------------------------------------------- formatDuration

  /** `%02d` for a value in 0..59. */
  function Pad2(m: int): (r: string)
    requires 0 <= m < 60
    ensures |r| == 2 && AllDigits(r)
  {
    if m < 10 then
      assert NatToString(m) == [DigitChar(m)];
      "0" + NatToString(m)
    else
      assert NatToString(m) == NatToString(m / 10) + [DigitChar(m % 10)];
      assert NatToString(m / 10) == [DigitChar(m / 10)];
      NatToString(m)
  }

  /** `formatDuration`: whole hours and the minutes past them as "Hh MMm" when there is at least
      one whole hour, otherwise only the minutes count as "Mm". `int(d.Hours())` and
      `int(d.Minutes())` truncate toward zero, and `% 60` keeps the sign. */
  function FormatDuration(d: int): (r: string)
    ensures |r| >= 2 && r[|r| - 1] == 'm'
  {
    var h := Quot(d, Hour);
    var m := Rem(Quot(d, Minute), 60);
    if h > 0 then NatToString(h) + "h " + Pad2(m) + "m" else IntToString(m) + "m"
  }

  /** Number of leading decimal digits. */
  function DigitRun(s: string): (n: nat)
    ensures n <= |s| && AllDigits(s[..n])
    ensures n < |s| ==> !IsDigit(s[n])
  {
    if s == [] || !IsDigit(s[0]) then 0
    else
      var n := 1 + DigitRun(s[1..]);
      assert s[..n] == [s[0]] + s[1..][..n - 1];
      n
  }

  /** Reads a text of either form `FormatDuration` prints back into a count of minutes. */
  function ReadDuration(s: string): (r: Option<nat>)
  {
    if |s| == 0 || s[|s| - 1] != 'm' then None
    else
      var body := s[..|s| - 1];
      var n := DigitRun(body);
      if n == 0 then None
      else if n == |body| then Some(DigitsValue(body))
      else if |body| == n + 4 && body[n..n + 2] == "h " && AllDigits(body[n + 2..]) then
        Some(DigitsValue(body[..n]) * 60 + DigitsValue(body[n + 2..]))
      else None
  }

  lemma {:induction false} DigitRunOfDigits(ds: string, t: string)
    requires AllDigits(ds)
    requires t == [] || !IsDigit(t[0])
    ensures DigitRun(ds + t) == |ds|
  {
    if ds != [] {
      assert (ds + t)[1..] == ds[1..] + t;
      DigitRunOfDigits(ds[1..], t);
    }
  }

  lemma Pad2Value(m: int)
    requires 0 <= m < 60
    ensures DigitsValue(Pad2(m)) == m
  {
    DigitsValueOfNatToString(m);
    if m < 10 {
      var p := Pad2(m);
      assert p[..1] == "0" && p[1] == NatToString(m)[0];
    }
  }

  /** Whole hours and the minutes past them add back up to the whole minutes. */
  lemma HoursAndMinutes(d: int)
    requires d >= 0
    ensures Quot(d, Hour) == Quot(d, Minute) / 60
    ensures Quot(d, Hour) * 60 + Rem(Quot(d, Minute), 60) == Quot(d, Minute)
  {
    var q := d / Minute;
    var a := q / 60;
    assert d == Hour * a + (Minute * (q % 60) + d % Minute);
  }

  /** The "Hh MMm" form reads back as hours times sixty plus the minutes. */
  lemma ReadHoursForm(h: nat, m: int)
    requires h > 0 && 0 <= m < 60
    ensures ReadDuration(NatToString(h) + "h " + Pad2(m) + "m") == Some(h * 60 + m)
  {
    var hs := NatToString(h);
    var p := Pad2(m);
    var body := hs + ("h " + p);
    assert NatToString(h) + "h " + Pad2(m) + "m" == body + "m";
    assert (body + "m")[..|body|] == body;
    DigitRunOfDigits(hs, "h " + p);
    assert |body| == |hs| + 4;
    assert body[|hs|..|hs| + 2] == "h ";
    assert body[..|hs|] == hs;
    assert body[|hs| + 2..] == p;
    DigitsValueOfNatToString(h);
    Pad2Value(m);
  }

  /** The "Mm" form reads back as the minutes. */
  lemma ReadMinutesForm(m: nat)
    ensures ReadDuration(NatToString(m) + "m") == Some(m)
  {
    var s := NatToString(m) + "m";
    var body := s[..|s| - 1];
    assert body == NatToString(m);
    DigitRunOfDigits(body, []);
    assert body + [] == body;
    DigitsValueOfNatToString(m);
  }

  /** For a non-negative duration the text keeps exactly its whole minutes: formatting drops
      only the seconds. */
  lemma FormatDurationKeepsMinutes(d: int)
    requires d >= 0
    ensures ReadDuration(FormatDuration(d)) == Some(Quot(d, Minute))
  {
    var q := Quot(d, Minute);
    var h := Quot(d, Hour);
    var m := Rem(q, 60);
    HoursAndMinutes(d);
    assert 0 <= m < 60 && h >= 0;
    if h > 0 {
      assert FormatDuration(d) == NatToString(h) + "h " + Pad2(m) + "m";
      ReadHoursForm(h, m);
    } else {
      assert m == q;
      assert FormatDuration(d) == NatToString(m) + "m";
      ReadMinutesForm(m);
    }
  }

  /** Two non-negative durations print alike exactly when they hold the same whole minutes. */
  lemma FormatDurationSameMinutes(a: int, b: int)
    requires a >= 0 && b >= 0
    ensures FormatDuration(a) == FormatDuration(b) <==> Quot(a, Minute) == Quot(b, Minute)
  {
    FormatDurationKeepsMinutes(a);
    FormatDurationKeepsMinutes(b);
    HoursAndMinutes(a);
    HoursAndMinutes(b);
  }

  /** Sixty-five minutes and a few seconds print as "1h 05m": the minutes are zero-padded and
      the seconds dropped. */
  lemma FormatDurationPadsMinutes()
    ensures FormatDuration(65 * Minute + 59 * Second) == "1h 05m"
  {
    assert NatToString(1) == "1";
    assert NatToString(5) == "5";
  }

  // ---------------------------------------------------------------- computeStats

  /** The fields of a game row the statistics read; `players` is the number of preloaded
      `GamePlayers` and `rounds` the number of preloaded `Rounds`. */
  datatype TimedGame = TimedGame(id: nat, createdAt: int, finishedAt: Option<int>,
                                 partial: bool, rounds: nat, players: nat)

  /** `models.GameDurationStat`. */
  datatype DurationStat = DurationStat(gameId: nat, duration: string, seconds: int,
                                       startedAt: int, roundCount: nat)

  /** `models.GameLengthCategoryStats`. */
  datatype CategoryStats = CategoryStats(longestByRounds: DurationStat, shortestByRounds: DurationStat,
                                         longestByTime: DurationStat, shortestByTime: DurationStat,
                                         averageRoundTime: string, averageGameTime: string)

  const NoStat := DurationStat(0, "", 0, 0, 0)
  const NoStats := CategoryStats(NoStat, NoStat, NoStat, NoStat, "", "")

  ghost predicate AllFinished(games: seq<TimedGame>)
  {
    forall i :: 0 <= i < |games| ==> games[i].finishedAt.Some?
  }

  function Elapsed(g: TimedGame): int
    requires g.finishedAt.Some?
  {
    g.finishedAt.value - g.createdAt
  }

  /** A game stays in the statistics unless it is a complete game with no rounds. */
  predicate Kept(g: TimedGame)
  {
    g.partial || g.rounds > 0
  }

  /** The entry for one game; partial games carry no round count. */
  function StatOf(g: TimedGame): (st: DurationStat)
    requires g.finishedAt.Some?
    ensures st.gameId == g.id && st.startedAt == g.createdAt
    ensures st.roundCount > 0 <==> !g.partial && g.rounds > 0
  {
    var d := Elapsed(g);
    DurationStat(g.id, FormatDuration(d), Quot(d, Second), g.createdAt, if g.partial then 0 else g.rounds)
  }

  /** The entries of the kept games, in input order. */
  function Durations(games: seq<TimedGame>): (r: seq<DurationStat>)
    requires AllFinished(games)
    ensures |r| <= |games|
  {
    if games == [] then []
    else
      var g := games[|games| - 1];
      Durations(games[..|games| - 1]) + (if Kept(g) then [StatOf(g)] else [])
  }

  /** The entries are exactly those of the kept games: a complete game with no rounds is
      skipped, every other game has its entry. */
  lemma {:induction false} DurationsMeaning(games: seq<TimedGame>)
    requires AllFinished(games)
    ensures forall x :: x in Durations(games) ==> exists g :: g in games && Kept(g) && x == StatOf(g)
    ensures forall g :: g in games && Kept(g) ==> StatOf(g) in Durations(games)
  {
    if games != [] {
      var init := games[..|games| - 1];
      var g := games[|games| - 1];
      assert games == init + [g];
      DurationsMeaning(init);
    }
  }

  /** Seconds summed over the complete games kept (partial games do not count). */
  function RoundSeconds(games: seq<TimedGame>): int
    requires AllFinished(games)
  {
    if games == [] then 0
    else
      var g := games[|games| - 1];
      RoundSeconds(games[..|games| - 1]) + (if !g.partial && g.rounds > 0 then Quot(Elapsed(g), Second) else 0)
  }

  /** Rounds summed over the complete games. */
  function TotalRounds(games: seq<TimedGame>): (n: nat)
    requires AllFinished(games)
    ensures n == 0 <==> forall i :: 0 <= i < |games| ==> games[i].partial || games[i].rounds == 0
  {
    if games == [] then 0
    else
      var g := games[|games| - 1];
      TotalRounds(games[..|games| - 1]) + (if !g.partial then g.rounds else 0)
  }

  function SumSeconds(ds: seq<DurationStat>): int
  {
    if ds == [] then 0 else SumSeconds(ds[..|ds| - 1]) + ds[|ds| - 1].seconds
  }

  /** The entries with a positive round count, in order. */
  function WithRounds(ds: seq<DurationStat>): (r: seq<DurationStat>)
    ensures forall x :: x in r <==> x in ds && x.roundCount > 0
  {
    if ds == [] then []
    else
      var x := ds[|ds| - 1];
      assert ds == ds[..|ds| - 1] + [x];
      WithRounds(ds[..|ds| - 1]) + (if x.roundCount > 0 then [x] else [])
  }

  function BySeconds(a: DurationStat, b: DurationStat): bool { a.seconds <= b.seconds }
  function ByRounds(a: DurationStat, b: DurationStat): bool { a.roundCount <= b.roundCount }

  /** The entries with the fewest and the most seconds, by a sort on seconds. */
  function TimeEnds(ds: seq<DurationStat>): (DurationStat, DurationStat)
    requires ds != []
  {
    var byTime := SortBy(ds, BySeconds);
    (byTime[0], byTime[|byTime| - 1])
  }

  /** The entries with rounds having the fewest and the most rounds, or the zero value twice. */
  function RoundEnds(ds: seq<DurationStat>): (DurationStat, DurationStat)
  {
    var byRounds := SortBy(WithRounds(ds), ByRounds);
    if byRounds == [] then (NoStat, NoStat) else (byRounds[0], byRounds[|byRounds| - 1])
  }

  /** What `computeStats` returns. `sort.Slice` is not stable, so which of several equally long
      games comes first is the runtime's choice; the model takes the stable order. */
  function StatsOf(games: seq<TimedGame>): CategoryStats
    requires AllFinished(games)
  {
    var ds := Durations(games);
    if ds == [] then NoStats
    else
      var avgGame := FormatDuration(Quot(SumSeconds(ds), |ds|) * Second);
      var avgRound := if TotalRounds(games) > 0
                      then FormatDuration(Quot(RoundSeconds(games), TotalRounds(games)) * Second) else "";
      CategoryStats(RoundEnds(ds).1, RoundEnds(ds).0, TimeEnds(ds).1, TimeEnds(ds).0, avgRound, avgGame)
  }

  /** One iteration of the first loop of `computeStats`: the game's entry, whether it is kept,
      and what it adds to the round totals. */
  method MeasureGame(game: TimedGame) returns (keep: bool, stat: DurationStat, roundSeconds: int, rounds: nat)
    requires game.finishedAt.Some?
    ensures keep == Kept(game) && stat == StatOf(game)
    ensures roundSeconds == (if !game.partial && game.rounds > 0 then Quot(Elapsed(game), Second) else 0)
    ensures rounds == (if !game.partial then game.rounds else 0)
  {
    var duration := game.finishedAt.value - game.createdAt;
    var seconds := Quot(duration, Second);
    StatOfFields(game);
    stat := DurationStat(game.id, FormatDuration(duration), seconds, game.createdAt, 0);
    keep, roundSeconds, rounds := true, 0, 0;
    if !game.partial {
      var roundCount := game.rounds;
      if roundCount == 0 {
        keep := false;
      } else {
        roundSeconds := seconds;
      }
      stat := stat.(roundCount := roundCount);
      rounds := roundCount;
    }
  }

  /** The first loop of `computeStats`: the entries of the kept games and the round totals of
      the complete ones. */
  method CollectDurations(games: seq<TimedGame>) returns (durations: seq<DurationStat>, totalRoundSeconds: int, totalRounds: int)
    requires AllFinished(games)
    ensures durations == Durations(games)
    ensures totalRoundSeconds == RoundSeconds(games) && totalRounds == TotalRounds(games)
  {
    durations, totalRoundSeconds, totalRounds := [], 0, 0;
    var i := 0;
    while i < |games|
      invariant 0 <= i <= |games|
      invariant durations == Durations(games[..i])
      invariant totalRoundSeconds == RoundSeconds(games[..i])
      invariant totalRounds == TotalRounds(games[..i])
    {
      CollectStep(games, i);
      var keep, stat, roundSeconds, rounds := MeasureGame(games[i]);
      if keep {
        durations := durations + [stat];
      }
      totalRoundSeconds := totalRoundSeconds + roundSeconds;
      totalRounds := totalRounds + rounds;
      i := i + 1;
    }
    assert games[..|games|] == games;
  }

  lemma StatOfFields(g: TimedGame)
    requires g.finishedAt.Some?
    ensures var d := g.finishedAt.value - g.createdAt;
            StatOf(g) == DurationStat(g.id, FormatDuration(d), Quot(d, Second), g.createdAt,
                                      if g.partial then 0 else g.rounds)
  {
  }

  lemma CollectStep(games: seq<TimedGame>, i: nat)
    requires AllFinished(games) && i < |games|
    ensures var g := games[i];
            && Durations(games[..i + 1]) == Durations(games[..i]) + (if Kept(g) then [StatOf(g)] else [])
            && RoundSeconds(games[..i + 1])
               == RoundSeconds(games[..i]) + (if !g.partial && g.rounds > 0 then Quot(Elapsed(g), Second) else 0)
            && TotalRounds(games[..i + 1]) == TotalRounds(games[..i]) + (if !g.partial then g.rounds else 0)
  {
    assert games[..i + 1][..i] == games[..i];
  }

  /** The second loop: the seconds of all entries. */
  method TotalSeconds(durations: seq<DurationStat>) returns (total: int)
    ensures total == SumSeconds(durations)
  {
    total := 0;
    var i := 0;
    while i < |durations|
      invariant 0 <= i <= |durations|
      invariant total == SumSeconds(durations[..i])
    {
      assert durations[..i + 1][..i] == durations[..i];
      total := total + durations[i].seconds;
      i := i + 1;
    }
    assert durations[..|durations|] == durations;
  }

  /** The third loop: the entries with a positive round count. */
  method KeepWithRounds(durations: seq<DurationStat>) returns (kept: seq<DurationStat>)
    ensures kept == WithRounds(durations)
  {
    kept := [];
    var i := 0;
    while i < |durations|
      invariant 0 <= i <= |durations|
      invariant kept == WithRounds(durations[..i])
    {
      assert durations[..i + 1][..i] == durations[..i];
      if durations[i].roundCount > 0 {
        kept := kept + [durations[i]];
      }
      i := i + 1;
    }
    assert durations[..|durations|] == durations;
  }

  /** `computeStats`: the three loops, then both lists sorted and their ends taken. */
  method ComputeStats(games: seq<TimedGame>) returns (r: CategoryStats)
    requires AllFinished(games)
    ensures r == StatsOf(games)
  {
    var durations, totalRoundSeconds, totalRounds := CollectDurations(games);
    if |durations| == 0 {
      return NoStats;
    }
    var totalGameSeconds := TotalSeconds(durations);
    var avgGame := FormatDuration(Quot(totalGameSeconds, |durations|) * Second);
    var sortByRounds := KeepWithRounds(durations);
    var sortByTime := SortBy(durations, BySeconds);
    assert (sortByTime[0], sortByTime[|sortByTime| - 1]) == TimeEnds(durations);
    var shortestByRounds, longestByRounds := NoStat, NoStat;
    if |sortByRounds| > 0 {
      sortByRounds := SortBy(sortByRounds, ByRounds);
      shortestByRounds := sortByRounds[0];
      longestByRounds := sortByRounds[|sortByRounds| - 1];
    }
    var averageRound := "";
    if totalRounds > 0 {
      averageRound := FormatDuration(Quot(totalRoundSeconds, totalRounds) * Second);
    }
    return CategoryStats(longestByRounds, shortestByRounds, sortByTime[|sortByTime| - 1], sortByTime[0],
                         averageRound, avgGame);
  }

  lemma BySecondsOrders()
    ensures TotalPreorder(BySeconds)
  {
  }

  lemma ByRoundsOrders()
    ensures TotalPreorder(ByRounds)
  {
  }

  /** With no game kept, every field is the zero value. */
  lemma {:induction false} NothingKeptNoStats(games: seq<TimedGame>)
    requires AllFinished(games)
    requires forall i :: 0 <= i < |games| ==> !Kept(games[i])
    ensures StatsOf(games) == NoStats
  {
    if games != [] {
      NothingKeptNoStats(games[..|games| - 1]);
    }
  }

  /** Sorting by seconds puts an entry with the fewest seconds first and one with the most last. */
  lemma TimeEndsBound(ds: seq<DurationStat>)
    requires ds != []
    ensures TimeEnds(ds).0 in ds && TimeEnds(ds).1 in ds
    ensures forall x :: x in ds ==> TimeEnds(ds).0.seconds <= x.seconds <= TimeEnds(ds).1.seconds
  {
    var byTime := SortBy(ds, BySeconds);
    BySecondsOrders();
    SortBySorted(ds, BySeconds);
    SortedEnds(ds, byTime, BySeconds);
    assert byTime[0] in multiset(ds) && byTime[|byTime| - 1] in multiset(ds);
    forall x | x in ds ensures byTime[0].seconds <= x.seconds <= byTime[|byTime| - 1].seconds {
      var k :| 0 <= k < |ds| && ds[k] == x;
    }
  }

  /** Sorting the entries with rounds by round count puts one with the fewest rounds first and
      one with the most last; without such entries both ends are the zero value. */
  lemma RoundEndsBound(ds: seq<DurationStat>)
    ensures var wr := WithRounds(ds);
            (wr == [] ==> RoundEnds(ds) == (NoStat, NoStat))
            && (wr != [] ==>
                  RoundEnds(ds).0 in wr && RoundEnds(ds).1 in wr
                  && forall x :: x in wr ==> RoundEnds(ds).0.roundCount <= x.roundCount <= RoundEnds(ds).1.roundCount)
  {
    var wr := WithRounds(ds);
    if wr != [] {
      var byRounds := SortBy(wr, ByRounds);
      ByRoundsOrders();
      SortBySorted(wr, ByRounds);
      SortedEnds(wr, byRounds, ByRounds);
      assert byRounds[0] in multiset(wr) && byRounds[|byRounds| - 1] in multiset(wr);
      forall x | x in wr ensures byRounds[0].roundCount <= x.roundCount <= byRounds[|byRounds| - 1].roundCount {
        var k :| 0 <= k < |wr| && wr[k] == x;
      }
    }
  }

  /** The shortest and longest by time are entries of kept games, with the least and the most
      seconds of all of them. */
  lemma TimeExtremes(games: seq<TimedGame>)
    requires AllFinished(games)
    requires exists i :: 0 <= i < |games| && Kept(games[i])
    ensures var r := StatsOf(games);
            r.shortestByTime in Durations(games) && r.longestByTime in Durations(games)
            && forall g :: g in games && Kept(g) ==>
                 r.shortestByTime.seconds <= StatOf(g).seconds <= r.longestByTime.seconds
  {
    var ds := Durations(games);
    DurationsMeaning(games);
    var i :| 0 <= i < |games| && Kept(games[i]);
    assert StatOf(games[i]) in ds;
    TimeEndsBound(ds);
    assert StatsOf(games).shortestByTime == TimeEnds(ds).0 && StatsOf(games).longestByTime == TimeEnds(ds).1;
  }

  /** The round extremes come only from complete games with rounds, holding the fewest and the
      most rounds among them; with no such game both are the zero value. */
  lemma RoundExtremes(games: seq<TimedGame>)
    requires AllFinished(games)
    ensures var r := StatsOf(games);
            var withRounds := WithRounds(Durations(games));
            (withRounds == [] ==> r.shortestByRounds == NoStat && r.longestByRounds == NoStat)
            && (withRounds != [] ==>
                  r.shortestByRounds in withRounds && r.longestByRounds in withRounds
                  && forall x :: x in withRounds ==>
                       r.shortestByRounds.roundCount <= x.roundCount <= r.longestByRounds.roundCount)
  {
    var ds := Durations(games);
    RoundEndsBound(ds);
    if ds == [] {
      assert WithRounds(ds) == [];
    } else {
      assert StatsOf(games).shortestByRounds == RoundEnds(ds).0 && StatsOf(games).longestByRounds == RoundEnds(ds).1;
    }
  }

  /** The average round time is empty exactly when no complete game has a round. */
  lemma AverageRoundEmpty(games: seq<TimedGame>)
    requires AllFinished(games)
    ensures StatsOf(games).averageRoundTime == "" <==> TotalRounds(games) == 0
  {
    if TotalRounds(games) > 0 {
      var i :| 0 <= i < |games| && !games[i].partial && games[i].rounds > 0;
      DurationsMeaning(games);
      assert StatOf(games[i]) in Durations(games);
    }
  }

  // ---------------------------------------------------------------- GetGameLengthStats

  /** `models.GameLengthStats`. */
  datatype LengthStats = LengthStats(all: CategoryStats, threePlayer: CategoryStats, fourPlayer: CategoryStats)

  /** A game enters the statistics only once finished and with a start time set. */
  predicate Eligible(g: TimedGame)
  {
    g.finishedAt.Some? && g.createdAt != ZeroTime
  }

  /** The eligible games, restricted to `size` players when a size is given, in input order. */
  function Bucket(games: seq<TimedGame>, size: Option<nat>): (r: seq<TimedGame>)
    ensures AllFinished(r)
    ensures forall g :: g in r <==> g in games && Eligible(g) && (size.None? || g.players == size.value)
    ensures |r| <= |games|
  {
    if games == [] then []
    else
      var g := games[|games| - 1];
      assert games == games[..|games| - 1] + [g];
      Bucket(games[..|games| - 1], size)
        + (if Eligible(g) && (size.None? || g.players == size.value) then [g] else [])
  }

  /** The loop of `GetGameLengthStats`: every eligible game goes to `all`, and a three- or
      four-player game also to its own bucket. */
  method SplitGames(games: seq<TimedGame>) returns (all: seq<TimedGame>, three: seq<TimedGame>, four: seq<TimedGame>)
    ensures all == Bucket(games, None)
    ensures three == Bucket(games, Some(3)) && four == Bucket(games, Some(4))
  {
    all, three, four := [], [], [];
    var i := 0;
    while i < |games|
      invariant 0 <= i <= |games|
      invariant all == Bucket(games[..i], None)
      invariant three == Bucket(games[..i], Some(3)) && four == Bucket(games[..i], Some(4))
    {
      assert games[..i + 1][..i] == games[..i];
      var game := games[i];
      if game.finishedAt.Some? && game.createdAt != ZeroTime {
        var count := game.players;
        if count == 3 {
          three := three + [game];
        } else if count == 4 {
          four := four + [game];
        }
        all := all + [game];
      }
      i := i + 1;
    }
    assert games[..|games|] == games;
  }

  /** `GetGameLengthStats`: a failed load returns its error; otherwise the summary of each
      bucket. The loaded rows are a parameter. */
  method GetGameLengthStats(loaded: Result<seq<TimedGame>>) returns (r: Result<LengthStats>)
    ensures loaded.Err? ==> r == Err(loaded.msg)
    ensures loaded.Ok? ==>
              r == Ok(LengthStats(StatsOf(Bucket(loaded.value, None)), StatsOf(Bucket(loaded.value, Some(3))),
                                  StatsOf(Bucket(loaded.value, Some(4)))))
  {
    if loaded.Err? {
      return Err(loaded.msg);
    }
    var all, three, four := SplitGames(loaded.value);
    var allStats := ComputeStats(all);
    var threeStats := ComputeStats(three);
    var fourStats := ComputeStats(four);
    return Ok(LengthStats(allStats, threeStats, fourStats));
  }

  /** Every three- or four-player game counted in its own bucket is also counted in `all`. */
  lemma {:induction false} SizeBucketsInAll(games: seq<TimedGame>, size: nat)
    ensures forall g :: g in Bucket(games, Some(size)) ==> g in Bucket(games, None)
    ensures |Bucket(games, Some(size))| <= |Bucket(games, None)|
  {
    if games != [] {
      SizeBucketsInAll(games[..|games| - 1], size);
    }
  }
}
