/** Agenda resolutions: Political Censure, Seed of an Empire, Mutiny, Classified Document
    Leaks and Incentive Program (services/agenda_service.go). */
module AgendaService {
  import opened Wrappers
  import opened Text
  import opened Models
  import opened ScoringHelpers
  import opened ScoreValidation
  import opened Store

  // ---------------------------------------------------------------------------------------
  // Political Censure

  /** ApplyPoliticalCensure: +1 when the censure is gained, −1 when it is lost, as an agenda
      row titled "Political Censure". */
  method ApplyPoliticalCensure(db: Db, round: nat, player: nat, gained: bool)
    requires db.Valid()
    modifies db
    ensures db.Valid()
    ensures db.Snapshot() == old(db.Snapshot()).(scores := old(db.scores) + [AgendaScore(round, player, if gained then 1 else -1, PoliticalCensure, 0)])
    ensures PlayerTotal(db.scores, player) == PlayerTotal(old(db.scores), player) + (if gained then 1 else -1)
  {
    var row := AgendaScore(round, player, if gained then 1 else -1, PoliticalCensure, 0);
    AgendaRowInert(row);
    PlayerTotalSnoc(db.scores, row, player);
    AppendInertRows(db, [row]);
  }

  // ---------------------------------------------------------------------------------------
  // Seed of an Empire

  /** The listed players whose total is `v`, in listing order. */
  function WithTotal(order: seq<nat>, totals: map<nat, int>, v: int): (r: seq<nat>)
    requires forall k :: 0 <= k < |order| ==> order[k] in totals
    ensures forall t :: t in r <==> t in order && totals[t] == v
  {
    if |order| == 0 then []
    else
      var prev := WithTotal(order[..|order| - 1], totals, v);
      assert forall t :: t in order <==> t in order[..|order| - 1] || t == order[|order| - 1] by {
        assert order == order[..|order| - 1] + [order[|order| - 1]];
      }
      if totals[order[|order| - 1]] == v then prev + [order[|order| - 1]] else prev
  }

  /** Reading one more listed player adds them when their total is `v`. */
  lemma WithTotalNext(order: seq<nat>, totals: map<nat, int>, v: int, i: nat)
    requires forall k :: 0 <= k < |order| ==> order[k] in totals
    requires i < |order|
    ensures WithTotal(order[..i + 1], totals, v)
            == WithTotal(order[..i], totals, v) + (if totals[order[i]] == v then [order[i]] else [])
  {
    assert order[..i + 1][..i] == order[..i];
  }

  /** When no listed player has total `v`, the list of those who do is empty. */
  lemma {:induction false} WithTotalNone(order: seq<nat>, totals: map<nat, int>, v: int)
    requires forall k :: 0 <= k < |order| ==> order[k] in totals && totals[order[k]] != v
    ensures WithTotal(order, totals, v) == []
    decreases |order|
  {
    if |order| > 0 {
      WithTotalNone(order[..|order| - 1], totals, v);
    }
  }

  /** `t` is listed with a total of at least −1 that no listed total exceeds. */
  predicate AtHighest(order: seq<nat>, totals: map<nat, int>, t: nat)
    requires forall k :: 0 <= k < |order| ==> order[k] in totals
  {
    t in order && totals[t] >= -1 && forall q :: q in order ==> totals[q] <= totals[t]
  }

  /** `t` is listed with a total of at most 999 that no listed total undercuts. */
  predicate AtLowest(order: seq<nat>, totals: map<nat, int>, t: nat)
    requires forall k :: 0 <= k < |order| ==> order[k] in totals
  {
    t in order && totals[t] <= 999 && forall q :: q in order ==> totals[t] <= totals[q]
  }

  /** The value the "for" scan settles on: the highest listed total, or −1 when every listed
      total is below −1 or nobody is listed. */
  function HighestTotal(order: seq<nat>, totals: map<nat, int>): (r: int)
    requires forall k :: 0 <= k < |order| ==> order[k] in totals
    ensures r >= -1 && forall k :: 0 <= k < |order| ==> totals[order[k]] <= r
    ensures r == -1 || exists k :: 0 <= k < |order| && totals[order[k]] == r
  {
    if |order| == 0 then -1
    else
      var init := order[..|order| - 1];
      var prev := HighestTotal(init, totals);
      var last := totals[order[|order| - 1]];
      assert forall k :: 0 <= k < |init| ==> init[k] == order[k];
      if last > prev then last else prev
  }

  /** The value the "against" scan settles on: the lowest listed total, or 999 when every
      listed total is above 999 or nobody is listed. */
  function LowestTotal(order: seq<nat>, totals: map<nat, int>): (r: int)
    requires forall k :: 0 <= k < |order| ==> order[k] in totals
    ensures r <= 999 && forall k :: 0 <= k < |order| ==> r <= totals[order[k]]
    ensures r == 999 || exists k :: 0 <= k < |order| && totals[order[k]] == r
  {
    if |order| == 0 then 999
    else
      var init := order[..|order| - 1];
      var prev := LowestTotal(init, totals);
      var last := totals[order[|order| - 1]];
      assert forall k :: 0 <= k < |init| ==> init[k] == order[k];
      if last < prev then last else prev
  }

  /** A bound at least −1 that no listed total exceeds and that is reached unless it is −1 is
      the highest total. */
  lemma HighestTotalIs(order: seq<nat>, totals: map<nat, int>, top: int)
    requires forall k :: 0 <= k < |order| ==> order[k] in totals
    requires top >= -1 && forall k :: 0 <= k < |order| ==> totals[order[k]] <= top
    requires top == -1 || exists k :: 0 <= k < |order| && totals[order[k]] == top
    ensures HighestTotal(order, totals) == top
  {
    var h := HighestTotal(order, totals);
    if top != -1 {
      var k :| 0 <= k < |order| && totals[order[k]] == top;
      assert top <= h;
    }
    if h != -1 {
      var k :| 0 <= k < |order| && totals[order[k]] == h;
      assert h <= top;
    }
  }

  /** The mirror image for the lowest total. */
  lemma LowestTotalIs(order: seq<nat>, totals: map<nat, int>, bottom: int)
    requires forall k :: 0 <= k < |order| ==> order[k] in totals
    requires bottom <= 999 && forall k :: 0 <= k < |order| ==> bottom <= totals[order[k]]
    requires bottom == 999 || exists k :: 0 <= k < |order| && totals[order[k]] == bottom
    ensures LowestTotal(order, totals) == bottom
  {
    var l := LowestTotal(order, totals);
    if bottom != 999 {
      var k :| 0 <= k < |order| && totals[order[k]] == bottom;
      assert l <= bottom;
    }
    if l != 999 {
      var k :| 0 <= k < |order| && totals[order[k]] == l;
      assert bottom <= l;
    }
  }

  /** Listing the players of a duplicate-free order at one total lists each of them once. */
  lemma {:induction false} WithTotalDistinct(order: seq<nat>, totals: map<nat, int>, v: int)
    requires forall k :: 0 <= k < |order| ==> order[k] in totals
    requires Distinct(order)
    ensures Distinct(WithTotal(order, totals, v))
    decreases |order|
  {
    if |order| > 0 {
      var init, last := order[..|order| - 1], order[|order| - 1];
      assert Distinct(init) by {
        forall i, j | 0 <= i < j < |init| ensures init[i] != init[j] {
          assert init[i] == order[i] && init[j] == order[j];
        }
      }
      WithTotalDistinct(init, totals, v);
      var prev := WithTotal(init, totals, v);
      assert last !in init by {
        forall k | 0 <= k < |init| ensures init[k] != last {
          assert init[k] == order[k];
        }
      }
      assert last !in prev;
    }
  }

  /** The "for" scan: starting from −1, a strictly higher total restarts the list and an equal
      one joins it, so the result is every listed player at the highest total, provided that
      total is at least −1. */
  method HighestTotals(order: seq<nat>, totals: map<nat, int>) returns (targets: seq<nat>)
    requires forall k :: 0 <= k < |order| ==> order[k] in totals
    ensures forall t :: t in targets <==> AtHighest(order, totals, t)
    ensures targets == WithTotal(order, totals, HighestTotal(order, totals))
  {
    var top := -1;
    ghost var at := 0;
    targets := [];
    var i := 0;
    while i < |order|
      invariant 0 <= i <= |order|
      invariant HighScan(order, totals, i, top, at, targets)
    {
      var id := order[i];
      var points := totals[id];
      HighScanNext(order, totals, i, top, at, targets);
      if points > top {
        top := points;
        at := i;
        targets := [id];
      } else if points == top {
        targets := targets + [id];
      }
      i := i + 1;
    }
    assert order[..i] == order;
    HighestAtEnd(order, totals, top);
    HighestTotalIs(order, totals, top);
  }

  /** The "for" scan after `order[..i]`: `top` is the running maximum (or −1), `at` where it
      was read, and `targets` the players read so far at that total. */
  ghost predicate HighScan(order: seq<nat>, totals: map<nat, int>, i: nat, top: int, at: nat, targets: seq<nat>)
    requires forall k :: 0 <= k < |order| ==> order[k] in totals
    requires i <= |order|
  {
    top >= -1
    && (forall k :: 0 <= k < i ==> totals[order[k]] <= top)
    && (top == -1 || (at < i && totals[order[at]] == top))
    && targets == WithTotal(order[..i], totals, top)
  }

  /** One player read by the "for" scan keeps its state. */
  lemma HighScanNext(order: seq<nat>, totals: map<nat, int>, i: nat, top: int, at: nat, targets: seq<nat>)
    requires forall k :: 0 <= k < |order| ==> order[k] in totals
    requires i < |order| && HighScan(order, totals, i, top, at, targets)
    ensures var p := totals[order[i]];
            if p > top then HighScan(order, totals, i + 1, p, i, [order[i]])
            else if p == top then HighScan(order, totals, i + 1, top, at, targets + [order[i]])
            else HighScan(order, totals, i + 1, top, at, targets)
  {
    var p := totals[order[i]];
    if p > top {
      WithTotalNone(order[..i], totals, p);
      WithTotalNext(order, totals, p, i);
    } else {
      WithTotalNext(order, totals, top, i);
    }
  }

  /** Once every listed total has been read, the list at the running maximum is every player
      at the highest total, when that total is at least −1. */
  lemma HighestAtEnd(order: seq<nat>, totals: map<nat, int>, top: int)
    requires forall k :: 0 <= k < |order| ==> order[k] in totals
    requires top >= -1 && forall k :: 0 <= k < |order| ==> totals[order[k]] <= top
    requires top == -1 || exists k :: 0 <= k < |order| && totals[order[k]] == top
    ensures forall t :: t in WithTotal(order, totals, top) <==> AtHighest(order, totals, t)
  {
    forall t | t in order
      ensures totals[t] <= top
    {
      var j :| 0 <= j < |order| && order[j] == t;
    }
    forall t | AtHighest(order, totals, t)
      ensures totals[t] == top
    {
      if top != -1 {
        var k :| 0 <= k < |order| && totals[order[k]] == top;
        assert totals[order[k]] <= totals[t];
      }
    }
  }

  /** The "against" scan: starting from 999, a strictly lower total restarts the list and an
      equal one joins it, so the result is every listed player at the lowest total, provided
      that total is at most 999. */
  method LowestTotals(order: seq<nat>, totals: map<nat, int>) returns (targets: seq<nat>)
    requires forall k :: 0 <= k < |order| ==> order[k] in totals
    ensures forall t :: t in targets <==> AtLowest(order, totals, t)
    ensures targets == WithTotal(order, totals, LowestTotal(order, totals))
  {
    var bottom := 999;
    ghost var at := 0;
    targets := [];
    var i := 0;
    while i < |order|
      invariant 0 <= i <= |order|
      invariant LowScan(order, totals, i, bottom, at, targets)
    {
      var id := order[i];
      var points := totals[id];
      LowScanNext(order, totals, i, bottom, at, targets);
      if points < bottom {
        bottom := points;
        at := i;
        targets := [id];
      } else if points == bottom {
        targets := targets + [id];
      }
      i := i + 1;
    }
    assert order[..i] == order;
    LowestAtEnd(order, totals, bottom);
    LowestTotalIs(order, totals, bottom);
  }

  /** The "against" scan after `order[..i]`: `bottom` is the running minimum (or 999), `at`
      where it was read, and `targets` the players read so far at that total. */
  ghost predicate LowScan(order: seq<nat>, totals: map<nat, int>, i: nat, bottom: int, at: nat, targets: seq<nat>)
    requires forall k :: 0 <= k < |order| ==> order[k] in totals
    requires i <= |order|
  {
    bottom <= 999
    && (forall k :: 0 <= k < i ==> bottom <= totals[order[k]])
    && (bottom == 999 || (at < i && totals[order[at]] == bottom))
    && targets == WithTotal(order[..i], totals, bottom)
  }

  /** One player read by the "against" scan keeps its state. */
  lemma LowScanNext(order: seq<nat>, totals: map<nat, int>, i: nat, bottom: int, at: nat, targets: seq<nat>)
    requires forall k :: 0 <= k < |order| ==> order[k] in totals
    requires i < |order| && LowScan(order, totals, i, bottom, at, targets)
    ensures var p := totals[order[i]];
            if p < bottom then LowScan(order, totals, i + 1, p, i, [order[i]])
            else if p == bottom then LowScan(order, totals, i + 1, bottom, at, targets + [order[i]])
            else LowScan(order, totals, i + 1, bottom, at, targets)
  {
    var p := totals[order[i]];
    if p < bottom {
      WithTotalNone(order[..i], totals, p);
      WithTotalNext(order, totals, p, i);
    } else {
      WithTotalNext(order, totals, bottom, i);
    }
  }

  /** Once every listed total has been read, the list at the running minimum is every player
      at the lowest total, when that total is at most 999. */
  lemma LowestAtEnd(order: seq<nat>, totals: map<nat, int>, bottom: int)
    requires forall k :: 0 <= k < |order| ==> order[k] in totals
    requires bottom <= 999 && forall k :: 0 <= k < |order| ==> bottom <= totals[order[k]]
    requires bottom == 999 || exists k :: 0 <= k < |order| && totals[order[k]] == bottom
    ensures forall t :: t in WithTotal(order, totals, bottom) <==> AtLowest(order, totals, t)
  {
    forall t | t in order
      ensures bottom <= totals[t]
    {
      var j :| 0 <= j < |order| && order[j] == t;
    }
    forall t | AtLowest(order, totals, t)
      ensures totals[t] == bottom
    {
      if bottom != 999 {
        var k :| 0 <= k < |order| && totals[order[k]] == bottom;
        assert totals[t] <= totals[order[k]];
      }
    }
  }

  function SeedRows(round: nat, targets: seq<nat>): (r: seq<Score>)
    ensures |r| == |targets|
    ensures forall k :: 0 <= k < |r| ==> r[k] == AgendaScore(round, targets[k], 1, SeedOfAnEmpire, 0)
  {
    seq(|targets|, k requires 0 <= k < |targets| => AgendaScore(round, targets[k], 1, SeedOfAnEmpire, 0))
  }

  /** Appending the Seed of an Empire rows of duplicate-free targets gives each target exactly
      one point and leaves every other total as it was. */
  lemma {:induction false} SeedRowsTotal(s: seq<Score>, round: nat, targets: seq<nat>, p: nat)
    requires Distinct(targets)
    ensures PlayerTotal(s + SeedRows(round, targets), p) == PlayerTotal(s, p) + (if p in targets then 1 else 0)
    decreases |targets|
  {
    if |targets| == 0 {
      assert s + SeedRows(round, targets) == s;
    } else {
      var init, t := targets[..|targets| - 1], targets[|targets| - 1];
      assert Distinct(init) by {
        forall i, j | 0 <= i < j < |init| ensures init[i] != init[j] {
          assert init[i] == targets[i] && init[j] == targets[j];
        }
      }
      assert t !in init by {
        forall k | 0 <= k < |init| ensures init[k] != t {
          assert init[k] == targets[k];
        }
      }
      assert targets == init + [t];
      var row := AgendaScore(round, t, 1, SeedOfAnEmpire, 0);
      assert SeedRows(round, targets) == SeedRows(round, init) + [row];
      assert s + SeedRows(round, targets) == (s + SeedRows(round, init)) + [row];
      SeedRowsTotal(s, round, init, p);
      PlayerTotalSnoc(s + SeedRows(round, init), row, p);
    }
  }

  /** ApplySeedOfEmpire. Every seated player starts at 0 and the ledger's points are added;
      `order` is the order in which Go happens to iterate that totals map. "for" gives +1 to
      every player tied for the highest total, "against" to every player tied for the lowest,
      and any other result to nobody. The players who received the point are returned. */
  method ApplySeedOfEmpire(db: Db, round: nat, result: string, order: seq<nat>) returns (targets: seq<nat>)
    requires db.Valid()
    requires Distinct(order)
    requires (set p | p in order) == SeatPlayerIds(db.players) + PlayerIds(db.scores)
    modifies db
    ensures db.Valid()
    ensures result == "for" ==>
              forall t :: t in targets <==> t in order && PlayerTotal(old(db.scores), t) >= -1
                                            && forall q :: q in order ==> PlayerTotal(old(db.scores), q) <= PlayerTotal(old(db.scores), t)
    ensures result == "against" ==>
              forall t :: t in targets <==> t in order && PlayerTotal(old(db.scores), t) <= 999
                                            && forall q :: q in order ==> PlayerTotal(old(db.scores), t) <= PlayerTotal(old(db.scores), q)
    ensures result != "for" && result != "against" ==> targets == []
    ensures Distinct(targets)
    ensures db.Snapshot() == old(db.Snapshot()).(scores := old(db.scores) + SeedRows(round, targets))
    ensures forall p :: PlayerTotal(db.scores, p) == PlayerTotal(old(db.scores), p) + (if p in targets then 1 else 0)
  {
    var totals := GetPlayerScoresMap(db.players, db.scores);
    assert forall k :: 0 <= k < |order| ==> order[k] in totals by {
      forall k | 0 <= k < |order| ensures order[k] in totals {
        assert order[k] in (set p | p in order);
      }
    }
    targets := SeedTargets(result, order, totals);
    var rows := SeedRows(round, targets);
    forall k | 0 <= k < |rows| ensures Inert(rows[k]) {
      AgendaRowInert(rows[k]);
    }
    ghost var before := db.scores;
    AppendInertRows(db, rows);
    SeedRowsTotals(before, round, targets);
  }

  /** Step 4 of ApplySeedOfEmpire: the scan the result selects, each target listed once. */
  method SeedTargets(result: string, order: seq<nat>, totals: map<nat, int>) returns (targets: seq<nat>)
    requires Distinct(order)
    requires forall k :: 0 <= k < |order| ==> order[k] in totals
    ensures result == "for" ==> forall t :: t in targets <==> AtHighest(order, totals, t)
    ensures result == "against" ==> forall t :: t in targets <==> AtLowest(order, totals, t)
    ensures result != "for" && result != "against" ==> targets == []
    ensures Distinct(targets)
  {
    if result == "for" {
      targets := HighestTotals(order, totals);
      WithTotalDistinct(order, totals, HighestTotal(order, totals));
    } else if result == "against" {
      targets := LowestTotals(order, totals);
      WithTotalDistinct(order, totals, LowestTotal(order, totals));
    } else {
      targets := [];
    }
  }

  /** SeedRowsTotal for every player at once. */
  lemma SeedRowsTotals(s: seq<Score>, round: nat, targets: seq<nat>)
    requires Distinct(targets)
    ensures forall p :: PlayerTotal(s + SeedRows(round, targets), p) == PlayerTotal(s, p) + (if p in targets then 1 else 0)
  {
    forall p ensures PlayerTotal(s + SeedRows(round, targets), p) == PlayerTotal(s, p) + (if p in targets then 1 else 0) {
      SeedRowsTotal(s, round, targets, p);
    }
  }

  // ---------------------------------------------------------------------------------------
  // Mutiny

  function MutinyRow(round: nat, player: nat, points: int): Score
  {
    AgendaScore(round, player, points, Mutiny, 0)
  }

  /** Some row of the game is titled "Mutiny". */
  predicate MutinyResolved(scores: seq<Score>)
  {
    exists i :: 0 <= i < |scores| && scores[i].agendaTitle == Mutiny
  }

  function MutinyForRows(round: nat, votes: seq<nat>): (r: seq<Score>)
    ensures |r| == |votes|
    ensures forall k :: 0 <= k < |r| ==> r[k] == MutinyRow(round, votes[k], 1)
  {
    seq(|votes|, k requires 0 <= k < |votes| => MutinyRow(round, votes[k], 1))
  }

  lemma MutinyForRowsInert(round: nat, votes: seq<nat>)
    ensures forall k :: 0 <= k < |votes| ==> Inert(MutinyForRows(round, votes)[k])
  {
    forall k | 0 <= k < |votes| ensures Inert(MutinyForRows(round, votes)[k]) {
      AgendaRowInert(MutinyForRows(round, votes)[k]);
    }
  }

  /** The rows of the "against" loop: each for-voter, in order, loses a point if their total
      at that moment (earlier deductions included) is positive. */
  function MutinyAgainstRows(base: seq<Score>, round: nat, votes: seq<nat>): seq<Score>
  {
    if |votes| == 0 then []
    else
      var prev := MutinyAgainstRows(base, round, votes[..|votes| - 1]);
      prev + DeductionRows(base + prev, round, votes[|votes| - 1])
  }

  /** One more voter's deduction is appended after the earlier ones, read against them. */
  lemma MutinyAgainstNext(base: seq<Score>, round: nat, votes: seq<nat>, i: nat)
    requires i < |votes|
    ensures base + MutinyAgainstRows(base, round, votes[..i + 1])
            == (base + MutinyAgainstRows(base, round, votes[..i]))
               + DeductionRows(base + MutinyAgainstRows(base, round, votes[..i]), round, votes[i])
  {
    assert votes[..i + 1][..i] == votes[..i];
    var prev := MutinyAgainstRows(base, round, votes[..i]);
    assert base + prev + DeductionRows(base + prev, round, votes[i])
           == base + (prev + DeductionRows(base + prev, round, votes[i]));
  }

  /** The usage marker is written when the result is neither "for" nor "against", or when
      there are no for-votes. */
  predicate MutinyNeedsMarker(result: string, votes: seq<nat>)
  {
    (result != "for" && result != "against") || |votes| == 0
  }

  /** Everything ApplyMutinyAgenda appends to an unresolved game. */
  function MutinyRows(base: seq<Score>, round: nat, result: string, votes: seq<nat>): seq<Score>
  {
    var marker := if MutinyNeedsMarker(result, votes) then [MutinyRow(round, 0, 0)] else [];
    if result == "for" then MutinyForRows(round, votes) + marker
    else if result == "against" then MutinyAgainstRows(base, round, votes) + marker
    else marker
  }

  /** "against" with a for-voter who has no row in the game: the loop's sum scan fails. */
  predicate MutinyScanFails(scores: seq<Score>, result: string, votes: seq<nat>)
  {
    result == "against" && FirstRowless(scores, votes).Some?
  }

  const MsgMutinyResolved := "Mutiny has already been resolved for this game"

  /** The "for" loop of ApplyMutinyAgenda: each for-voter gains a point. */
  method AwardVoters(db: Db, round: nat, votes: seq<nat>)
    requires db.Valid()
    modifies db
    ensures db.Valid()
    ensures db.Snapshot() == old(db.Snapshot()).(scores := old(db.scores) + MutinyForRows(round, votes))
  {
    MutinyForRowsInert(round, votes);
    AppendInertRows(db, MutinyForRows(round, votes));
  }

  /** The 0-point Mutiny row of player 0 that records the agenda's use. */
  method RecordMutinyUse(db: Db, round: nat)
    requires db.Valid()
    modifies db
    ensures db.Valid()
    ensures db.Snapshot() == old(db.Snapshot()).(scores := old(db.scores) + [MutinyRow(round, 0, 0)])
  {
    var row := MutinyRow(round, 0, 0);
    AgendaRowInert(row);
    AppendInertRows(db, [row]);
  }

  /** The row one for-voter loses under "against": -1 when their total is positive. */
  function DeductionRows(scores: seq<Score>, round: nat, player: nat): seq<Score>
  {
    if PlayerTotal(scores, player) > 0 then [MutinyRow(round, player, -1)] else []
  }

  method DeductIfPositive(db: Db, round: nat, player: nat)
    requires db.Valid()
    modifies db
    ensures db.Valid()
    ensures db.Snapshot() == old(db.Snapshot()).(scores := old(db.scores) + DeductionRows(old(db.scores), round, player))
  {
    var total := PlayerTotal(db.scores, player);
    if total > 0 {
      var row := MutinyRow(round, player, -1);
      AgendaRowInert(row);
      AppendInertRows(db, [row]);
    } else {
      assert db.scores + [] == db.scores;
    }
  }

  /** Some row of the game belongs to the player. Without one, `SUM(points)` is NULL, and
      scanning NULL into the loop's int64 total fails. */
  predicate HasRows(scores: seq<Score>, player: nat)
  {
    exists i :: 0 <= i < |scores| && scores[i].playerId == player
  }

  /** The message of the failed scan of a NULL sum. */
  const MsgNullSum := "sql: Scan error on column index 0, name \"SUM(points)\": converting NULL to int64 is unsupported"

  /** The first for-voter without a row in the game, if any. */
  function FirstRowless(scores: seq<Score>, votes: seq<nat>): (r: Option<nat>)
    ensures r.Some? ==> r.value < |votes| && !HasRows(scores, votes[r.value])
                        && forall k :: 0 <= k < r.value ==> HasRows(scores, votes[k])
    ensures r.None? ==> forall k :: 0 <= k < |votes| ==> HasRows(scores, votes[k])
  {
    if |votes| == 0 then None
    else if !HasRows(scores, votes[0]) then Some(0)
    else
      match FirstRowless(scores, votes[1..])
      case None => None
      case Some(k) => Some(k + 1)
  }

  /** The for-voters the "against" loop gets through: all of them, or those before the first
      voter without a row, at whom it stops with an error. */
  function ReachedVoters(scores: seq<Score>, votes: seq<nat>): (r: seq<nat>)
    ensures r <= votes
    ensures r == votes <==> FirstRowless(scores, votes).None?
  {
    match FirstRowless(scores, votes)
    case None => votes
    case Some(i) => votes[..i]
  }

  /** A player without rows has a zero total. */
  lemma {:induction false} RowlessTotalZero(scores: seq<Score>, player: nat)
    requires !HasRows(scores, player)
    ensures PlayerTotal(scores, player) == 0
    decreases |scores|
  {
    if |scores| > 0 {
      var n := |scores| - 1;
      assert !HasRows(scores[..n], player) by {
        forall i | 0 <= i < n ensures scores[..n][i].playerId != player {
          assert scores[..n][i] == scores[i];
        }
      }
      RowlessTotalZero(scores[..n], player);
      PlayerTotalLast(scores, player);
    }
  }

  /** Deductions go only to voters who already have rows, so they give no one a first row. */
  lemma {:induction false} AgainstKeepsRows(base: seq<Score>, round: nat, votes: seq<nat>, p: nat)
    ensures HasRows(base + MutinyAgainstRows(base, round, votes), p) <==> HasRows(base, p)
    decreases |votes|
  {
    if |votes| > 0 {
      var n := |votes| - 1;
      var v := votes[n];
      var u := base + MutinyAgainstRows(base, round, votes[..n]);
      AgainstKeepsRows(base, round, votes[..n], p);
      AgainstKeepsRows(base, round, votes[..n], v);
      var d := DeductionRows(u, round, v);
      assert base + MutinyAgainstRows(base, round, votes) == u + d;
      if PlayerTotal(u, v) > 0 {
        if !HasRows(u, v) {
          RowlessTotalZero(u, v);
        }
        assert d == [MutinyRow(round, v, -1)];
        HasRowsSnoc(u, MutinyRow(round, v, -1), p);
      } else {
        assert u + d == u;
      }
    } else {
      assert base + MutinyAgainstRows(base, round, votes) == base;
    }
  }

  /** One more row gives its own player rows and no one else. */
  lemma HasRowsSnoc(s: seq<Score>, r: Score, p: nat)
    ensures HasRows(s + [r], p) <==> HasRows(s, p) || r.playerId == p
  {
    if HasRows(s + [r], p) {
      var i :| 0 <= i < |s| + 1 && (s + [r])[i].playerId == p;
      if i < |s| {
        assert s[i] == (s + [r])[i];
      }
    }
    if HasRows(s, p) {
      var i :| 0 <= i < |s| && s[i].playerId == p;
      assert (s + [r])[i] == s[i];
    }
    assert (s + [r])[|s|] == r;
  }

  /** The "against" loop of ApplyMutinyAgenda: each for-voter whose current total is positive
      loses a point; the loop stops with the scan error at the first voter without a row,
      keeping the deductions already written. */
  method DeductFromVoters(db: Db, round: nat, votes: seq<nat>) returns (err: Option<string>)
    requires db.Valid()
    modifies db
    ensures db.Valid()
    ensures err.Some? <==> FirstRowless(old(db.scores), votes).Some?
    ensures err.Some? ==> err.value == MsgNullSum
    ensures db.Snapshot() == old(db.Snapshot()).(scores := old(db.scores)
              + MutinyAgainstRows(old(db.scores), round, ReachedVoters(old(db.scores), votes)))
  {
    ghost var s0 := db.Snapshot();
    var i := 0;
    while i < |votes|
      invariant 0 <= i <= |votes|
      invariant AgainstProgress(db, s0, round, votes, i)
    {
      AgainstKeepsRows(s0.scores, round, votes[..i], votes[i]);
      if !HasRows(db.scores, votes[i]) {
        StopsAtFirstRowless(s0.scores, votes, i);
        return Some(MsgNullSum);
      }
      DeductNext(db, s0, round, votes, i);
      i := i + 1;
    }
    ReachesEveryVoter(s0.scores, votes);
    err := None;
  }

  /** The state after the "against" loop has handled `votes[..i]`. */
  ghost predicate AgainstProgress(db: Db, s0: State, round: nat, votes: seq<nat>, i: nat)
    reads db
  {
    i <= |votes| && db.Valid()
    && (forall k :: 0 <= k < i ==> HasRows(s0.scores, votes[k]))
    && db.Snapshot() == s0.(scores := s0.scores + MutinyAgainstRows(s0.scores, round, votes[..i]))
  }

  /** One pass of the "against" loop for a voter who has rows. */
  method DeductNext(db: Db, ghost s0: State, round: nat, votes: seq<nat>, i: nat)
    requires i < |votes| && AgainstProgress(db, s0, round, votes, i)
    requires HasRows(db.scores, votes[i])
    modifies db
    ensures AgainstProgress(db, s0, round, votes, i + 1)
  {
    AgainstKeepsRows(s0.scores, round, votes[..i], votes[i]);
    MutinyAgainstNext(s0.scores, round, votes, i);
    DeductIfPositive(db, round, votes[i]);
  }

  /** The loop stops at the first for-voter without rows, having reached those before. */
  lemma StopsAtFirstRowless(base: seq<Score>, votes: seq<nat>, i: nat)
    requires i < |votes| && !HasRows(base, votes[i])
    requires forall k :: 0 <= k < i ==> HasRows(base, votes[k])
    ensures FirstRowless(base, votes) == Some(i)
    ensures ReachedVoters(base, votes) == votes[..i]
  {
  }

  /** When every for-voter has rows the loop reaches them all. */
  lemma ReachesEveryVoter(base: seq<Score>, votes: seq<nat>)
    requires forall k :: 0 <= k < |votes| ==> HasRows(base, votes[k])
    ensures FirstRowless(base, votes).None?
    ensures ReachedVoters(base, votes) == votes[..|votes|]
  {
    assert votes[..|votes|] == votes;
  }

  /** ApplyMutinyAgenda: refused once any Mutiny row exists; otherwise appends the rows
      described by MutinyRows. */
  method ApplyMutinyAgenda(db: Db, round: nat, result: string, votes: seq<nat>) returns (err: Option<string>)
    requires db.Valid()
    modifies db
    ensures db.Valid()
    ensures MutinyResolved(old(db.scores)) ==> err == Some(MsgMutinyResolved) && db.Snapshot() == old(db.Snapshot())
    ensures !MutinyResolved(old(db.scores)) && !MutinyScanFails(old(db.scores), result, votes) ==>
              err.None? && db.Snapshot() == old(db.Snapshot()).(scores := old(db.scores) + MutinyRows(old(db.scores), round, result, votes))
    ensures !MutinyResolved(old(db.scores)) && MutinyScanFails(old(db.scores), result, votes) ==>
              err == Some(MsgNullSum)
              && db.Snapshot() == old(db.Snapshot()).(scores := old(db.scores)
                   + MutinyAgainstRows(old(db.scores), round, ReachedVoters(old(db.scores), votes)))
  {
    CountWherePositive(db.scores, (x: Score) => x.agendaTitle == Mutiny);
    if CountWhere(db.scores, (x: Score) => x.agendaTitle == Mutiny) > 0 {
      return Some(MsgMutinyResolved);
    }
    if result == "for" {
      AwardVoters(db, round, votes);
    }
    if result == "against" {
      var failed := DeductFromVoters(db, round, votes);
      if failed.Some? {
        return failed;
      }
    }
    if (result != "for" && result != "against") || |votes| == 0 {
      RecordMutinyUse(db, round);
    }
    err := None;
  }

  /** "against" takes a point only from for-voters whose total is positive: listing each
      voter once, a voter with a positive total loses exactly one point and everyone else is
      unchanged. */
  lemma {:induction false} MutinyAgainstTotals(base: seq<Score>, round: nat, votes: seq<nat>, p: nat)
    requires Distinct(votes)
    ensures PlayerTotal(base + MutinyAgainstRows(base, round, votes), p)
            == PlayerTotal(base, p) - (if p in votes && PlayerTotal(base, p) > 0 then 1 else 0)
    decreases |votes|
  {
    if |votes| > 0 {
      var n := |votes| - 1;
      var front := votes[..n];
      var v := votes[n];
      assert Distinct(front);
      var prev := MutinyAgainstRows(base, round, front);
      MutinyAgainstTotals(base, round, front, p);
      MutinyAgainstTotals(base, round, front, v);
      assert v !in front;
      assert votes == front + [v];
      assert MutinyAgainstRows(base, round, votes)
             == if PlayerTotal(base + prev, v) > 0 then prev + [MutinyRow(round, v, -1)] else prev;
      assert PlayerTotal(base + prev, v) == PlayerTotal(base, v);
      assert (p in votes) == (p in front || p == v);
      if PlayerTotal(base + prev, v) > 0 {
        assert base + (prev + [MutinyRow(round, v, -1)]) == (base + prev) + [MutinyRow(round, v, -1)];
        PlayerTotalSnoc(base + prev, MutinyRow(round, v, -1), p);
        assert PlayerTotal(base + MutinyAgainstRows(base, round, votes), p)
               == PlayerTotal(base + prev, p) + (if p == v then -1 else 0);
      } else {
        assert PlayerTotal(base + MutinyAgainstRows(base, round, votes), p) == PlayerTotal(base + prev, p);
      }
    } else {
      assert base + MutinyAgainstRows(base, round, votes) == base;
    }
  }

  /** The "against" loop writes nothing exactly when no for-voter has a positive total. */
  lemma {:induction false} MutinyAgainstEmpty(base: seq<Score>, round: nat, votes: seq<nat>)
    ensures MutinyAgainstRows(base, round, votes) == [] <==> forall v :: v in votes ==> PlayerTotal(base, v) <= 0
    decreases |votes|
  {
    if |votes| > 0 {
      var n := |votes| - 1;
      MutinyAgainstEmpty(base, round, votes[..n]);
      assert votes == votes[..n] + [votes[n]];
      if MutinyAgainstRows(base, round, votes[..n]) == [] {
        assert base + [] == base;
      }
    }
  }

  /** Whether a Mutiny resolution leaves a trace: it does, and so blocks a second resolution,
      except for "against" with for-voters none of whom has a positive total, which writes
      nothing at all. */
  lemma MutinyLeavesTrace(base: seq<Score>, round: nat, result: string, votes: seq<nat>)
    ensures MutinyResolved(base + MutinyRows(base, round, result, votes))
            <==> MutinyResolved(base)
                 || !(result == "against" && |votes| > 0 && forall v :: v in votes ==> PlayerTotal(base, v) <= 0)
  {
    var rows := MutinyRows(base, round, result, votes);
    var t := base + rows;
    MutinyAgainstEmpty(base, round, votes);
    MutinyAgainstTitled(base, round, votes);
    if MutinyResolved(base) {
      var i :| 0 <= i < |base| && base[i].agendaTitle == Mutiny;
      assert t[i] == base[i];
    } else if result == "against" && |votes| > 0 && forall v :: v in votes ==> PlayerTotal(base, v) <= 0 {
      assert rows == [];
      assert t == base;
    } else {
      assert |rows| > 0;
      assert rows[0].agendaTitle == Mutiny;
      assert t[|base|] == rows[0];
    }
    if MutinyResolved(t) && !MutinyResolved(base) {
      var i :| 0 <= i < |t| && t[i].agendaTitle == Mutiny;
      assert i >= |base|;
    }
  }

  lemma {:induction false} MutinyAgainstTitled(base: seq<Score>, round: nat, votes: seq<nat>)
    ensures forall k :: 0 <= k < |MutinyAgainstRows(base, round, votes)| ==> MutinyAgainstRows(base, round, votes)[k].agendaTitle == Mutiny
    decreases |votes|
  {
    if |votes| > 0 {
      MutinyAgainstTitled(base, round, votes[..|votes| - 1]);
    }
  }

  // ---------------------------------------------------------------------------------------
  // Classified Document Leaks

  /** Some row of the game is titled "Classified Document Leaks". */
  predicate CdlResolved(scores: seq<Score>)
  {
    exists i :: 0 <= i < |scores| && scores[i].agendaTitle == ClassifiedDocumentLeaks
  }

  /** The first row typed exactly "secret" for this player and objective. */
  function FirstSecretRow(scores: seq<Score>, player: nat, objective: nat): (r: Option<nat>)
    ensures r.None? <==> forall i :: 0 <= i < |scores| ==>
                           !(scores[i].playerId == player && scores[i].objectiveId == objective && scores[i].kind == TypeSecret)
    ensures r.Some? ==> r.value < |scores| && scores[r.value].playerId == player
                        && scores[r.value].objectiveId == objective && scores[r.value].kind == TypeSecret
    ensures r.Some? ==> forall i :: 0 <= i < r.value ==>
                          !(scores[i].playerId == player && scores[i].objectiveId == objective && scores[i].kind == TypeSecret)
  {
    if |scores| == 0 then None
    else if scores[0].playerId == player && scores[0].objectiveId == objective && scores[0].kind == TypeSecret then Some(0)
    else
      var r := FirstSecretRow(scores[1..], player, objective);
      assert forall i :: 1 <= i < |scores| ==> scores[i] == scores[1..][i - 1];
      if r.Some? then Some(r.value + 1) else None
  }

  const MsgCdlResolved := "Classified Document Leaks has already been resolved for this game"
  const MsgSecretNotFound := "Secret objective score not found for that player"

  /** The ledger after a successful Classified Document Leaks: the secret row at `k` is
      retyped "public" and a 0-point agenda marker naming the objective is appended. */
  function CdlScores(scores: seq<Score>, k: nat, player: nat, objective: nat): seq<Score>
    requires k < |scores|
  {
    scores[k := scores[k].(kind := TypePublic)] + [AgendaScore(0, player, 0, ClassifiedDocumentLeaks, objective)]
  }

  /** ApplyClassifiedDocumentLeaks: refused once resolved in the game, or when the player has
      no row typed "secret" for the objective; otherwise the first such row becomes public. */
  method ApplyClassifiedDocumentLeaks(db: Db, player: nat, objective: nat) returns (err: Option<string>)
    requires db.Valid()
    modifies db
    ensures db.Valid()
    ensures CdlResolved(old(db.scores)) ==> err == Some(MsgCdlResolved)
    ensures !CdlResolved(old(db.scores)) && FirstSecretRow(old(db.scores), player, objective).None? ==> err == Some(MsgSecretNotFound)
    ensures err.Some? ==> db.Snapshot() == old(db.Snapshot())
    ensures err.None? <==> !CdlResolved(old(db.scores)) && FirstSecretRow(old(db.scores), player, objective).Some?
    ensures err.None? ==>
              db.Snapshot() == old(db.Snapshot()).(scores := CdlScores(old(db.scores), FirstSecretRow(old(db.scores), player, objective).value, player, objective))
    ensures forall q :: PlayerTotal(db.scores, q) == PlayerTotal(old(db.scores), q)
  {
    CountWherePositive(db.scores, (x: Score) => x.agendaTitle == ClassifiedDocumentLeaks);
    if CountWhere(db.scores, (x: Score) => x.agendaTitle == ClassifiedDocumentLeaks) > 0 {
      return Some(MsgCdlResolved);
    }
    var found := FirstSecretRow(db.scores, player, objective);
    if found.None? {
      return Some(MsgSecretNotFound);
    }
    var k := found.value;
    var retyped := db.scores[k].(kind := TypePublic);
    ghost var before := db.scores;
    CountWhereUpdate(db.scores, k, retyped, (x: Score) => x.kind == TypeMecatol);
    SumPointsUpdate(db.scores, k, retyped, (x: Score) => x.kind == TypeSupport);
    RetypeKeepsWithinCapFromSecret(db.scores, db.catalog, k, retyped);
    RetypeKeepsUnique(db.scores, k, retyped);
    db.scores := db.scores[k := retyped];
    var marker := AgendaScore(0, player, 0, ClassifiedDocumentLeaks, objective);
    AgendaRowInert(marker);
    AppendInertRows(db, [marker]);
    forall q ensures PlayerTotal(db.scores, q) == PlayerTotal(before, q) {
      CdlKeepsTotals(before, k, player, objective, q);
    }
    err := None;
  }

  lemma RetypeKeepsWithinCapFromSecret(scores: seq<Score>, catalog: seq<Objective>, k: nat, y: Score)
    requires k < |scores| && scores[k].kind == TypeSecret && y.kind == TypePublic
    requires WithinCaps(scores, catalog)
    ensures WithinCaps(scores[k := y], catalog)
  {
    assert ToLower(TypeSecret)[0] == 's';
    assert ToLower(TypePublic)[0] == 'p';
    RetypeKeepsWithinCap(scores, catalog, k, y);
  }

  /** Classified Document Leaks moves no points: every player's total is unchanged. */
  lemma CdlKeepsTotals(scores: seq<Score>, k: nat, player: nat, objective: nat, q: nat)
    requires k < |scores|
    ensures PlayerTotal(CdlScores(scores, k, player, objective), q) == PlayerTotal(scores, q)
  {
    var retyped := scores[k := scores[k].(kind := TypePublic)];
    SumPointsUpdate(scores, k, scores[k].(kind := TypePublic), (x: Score) => x.playerId == q);
    PlayerTotalSnoc(retyped, AgendaScore(0, player, 0, ClassifiedDocumentLeaks, objective), q);
  }

  // ---------------------------------------------------------------------------------------
  // Incentive Program

  /** The objective is already placed in the game. */
  predicate Assigned(objectives: seq<GameObjective>, id: nat)
  {
    exists i :: 0 <= i < |objectives| && objectives[i].objectiveId == id
  }

  /** `WHERE stage = ? AND id NOT IN (...) ORDER BY id LIMIT 1`: the lowest-id catalog
      objective of the stage that the game does not have yet. */
  function LowestUnassigned(catalog: seq<Objective>, stage: string, objectives: seq<GameObjective>): (r: Option<Objective>)
    ensures r.None? <==> forall o :: o in catalog ==> o.stage != stage || Assigned(objectives, o.id)
    ensures r.Some? ==> r.value in catalog && r.value.stage == stage && !Assigned(objectives, r.value.id)
    ensures r.Some? ==> forall o :: o in catalog && o.stage == stage && !Assigned(objectives, o.id) ==> r.value.id <= o.id
  {
    if |catalog| == 0 then None
    else
      var rest := LowestUnassigned(catalog[1..], stage, objectives);
      assert forall o :: o in catalog ==> o == catalog[0] || o in catalog[1..];
      var c := catalog[0];
      if c.stage == stage && !Assigned(objectives, c.id) && (rest.None? || c.id <= rest.value.id) then Some(c)
      else rest
  }

  /** The row the objective query returns. GORM renders an empty id list as `NOT IN (NULL)`,
      which no row satisfies, so a game with no objectives at all gets none. */
  function IncentiveCandidate(catalog: seq<Objective>, stage: string, objectives: seq<GameObjective>): Option<Objective>
  {
    if |objectives| == 0 then None else LowestUnassigned(catalog, stage, objectives)
  }

  const MsgInvalidOutcome := "Invalid outcome: must be 'for' or 'against'"

  /** ApplyIncentiveProgramEffect: a no-op for games without objective decks; otherwise "for"
      reveals a Stage I objective and "against" a Stage II one (any other outcome is an error),
      choosing the lowest-id objective of that stage not yet in the game, revealed with round
      id 0, after a 0-point "Incentive Program" marker row. A game holding no objectives gets
      the "none remain" error. */
  method ApplyIncentiveProgramEffect(db: Db, outcome: string) returns (err: Option<string>)
    requires db.Valid()
    modifies db
    ensures db.Valid()
    ensures !old(db.game.useObjectiveDecks) ==> err.None? && db.Snapshot() == old(db.Snapshot())
    ensures old(db.game.useObjectiveDecks) && outcome != "for" && outcome != "against" ==> err == Some(MsgInvalidOutcome)
    ensures err.Some? ==> db.Snapshot() == old(db.Snapshot())
    ensures old(db.game.useObjectiveDecks) && (outcome == "for" || outcome == "against") ==>
              var stage := if outcome == "for" then "I" else "II";
              match IncentiveCandidate(db.catalog, stage, old(db.objectives))
              case None => err == Some("No additional objectives remain in Stage " + stage)
              case Some(o) =>
                err.None?
                && db.Snapshot() == old(db.Snapshot()).(
                     scores := old(db.scores) + [AgendaScore(0, 0, 0, IncentiveProgram, 0)],
                     objectives := old(db.objectives) + [GameObjective(o.id, 0, o.stage, true, 0, false)])
  {
    if !db.game.useObjectiveDecks {
      return None;
    }
    var stage;
    if outcome == "for" {
      stage := "I";
    } else if outcome == "against" {
      stage := "II";
    } else {
      return Some(MsgInvalidOutcome);
    }
    var next := IncentiveCandidate(db.catalog, stage, db.objectives);
    if next.None? {
      return Some("No additional objectives remain in Stage " + stage);
    }
    var o := next.value;
    var marker := AgendaScore(0, 0, 0, IncentiveProgram, 0);
    AgendaRowInert(marker);
    AppendInertRows(db, [marker]);
    db.objectives := db.objectives + [GameObjective(o.id, 0, o.stage, true, 0, false)];
    err := None;
  }

  /** The objective revealed is the lowest-id one of the stage that the game lacks; the
      "none remain" error means the game holds no objectives, or holds every one of the stage. */
  lemma IncentiveCandidateMeaning(catalog: seq<Objective>, stage: string, objectives: seq<GameObjective>)
    ensures IncentiveCandidate(catalog, stage, objectives).Some? ==>
              var o := IncentiveCandidate(catalog, stage, objectives).value;
              o in catalog && o.stage == stage && !Assigned(objectives, o.id)
              && forall q :: q in catalog && q.stage == stage && !Assigned(objectives, q.id) ==> o.id <= q.id
    ensures IncentiveCandidate(catalog, stage, objectives).None? <==>
              |objectives| == 0 || forall q :: q in catalog ==> q.stage != stage || Assigned(objectives, q.id)
  {
  }
}
