/** The holders of each record achievement (helpers/acheivements.go): the player_achievements
    rows, replaced wholesale on a new record and extended on a tie. The transaction is modelled
    as one step; a database error inside it is not part of this model. */
module RecordHolders {
  import opened Wrappers

  /** An achievement row: its id and its key. */
  datatype Achievement = Achievement(id: nat, key: string)

  /** A player_achievements row. */
  datatype PlayerAchievement = PlayerAchievement(
    playerId: nat,
    achievementId: nat,
    gameId: Option<nat>,
    roundId: Option<nat>,
    value: int)

  /** A holder to record: the player, where the record was set, and its value. */
  datatype RecordHolder = RecordHolder(playerId: nat, gameId: Option<nat>, roundId: Option<nat>, value: int)

  const MsgRecordMissing := "record not found"

  /** GetAchievementByKey: the first achievement with the key. */
  function FindAchievement(achievements: seq<Achievement>, key: string): (r: Option<Achievement>)
    ensures r.Some? ==> r.value in achievements && r.value.key == key
    ensures r.None? ==> forall k :: 0 <= k < |achievements| ==> achievements[k].key != key
  {
    if |achievements| == 0 then None
    else if achievements[0].key == key then Some(achievements[0])
    else FindAchievement(achievements[1..], key)
  }

  /** The rows of one achievement, in row order. */
  function RowsOf(rows: seq<PlayerAchievement>, achievementId: nat): (r: seq<PlayerAchievement>)
    ensures forall x :: x in r <==> x in rows && x.achievementId == achievementId
  {
    if |rows| == 0 then []
    else
      var n := |rows| - 1;
      assert rows == rows[..n] + [rows[n]];
      RowsOf(rows[..n], achievementId) + (if rows[n].achievementId == achievementId then [rows[n]] else [])
  }

  /** The rows of every other achievement (`DELETE ... WHERE achievement_id = ?` keeps these). */
  function Without(rows: seq<PlayerAchievement>, achievementId: nat): (r: seq<PlayerAchievement>)
    ensures forall x :: x in r <==> x in rows && x.achievementId != achievementId
  {
    if |rows| == 0 then []
    else
      var n := |rows| - 1;
      assert rows == rows[..n] + [rows[n]];
      Without(rows[..n], achievementId) + (if rows[n].achievementId != achievementId then [rows[n]] else [])
  }

  /** The row created for a holder by UpsertRecordHolders (with game and round). */
  function Award(h: RecordHolder, achievementId: nat): PlayerAchievement
  {
    PlayerAchievement(h.playerId, achievementId, h.gameId, h.roundId, h.value)
  }

  /** The rows created for the holders, in holder order. */
  function Awards(holders: seq<RecordHolder>, achievementId: nat): (r: seq<PlayerAchievement>)
    ensures |r| == |holders|
    ensures forall k :: 0 <= k < |r| ==> r[k] == Award(holders[k], achievementId)
  {
    seq(|holders|, k requires 0 <= k < |holders| => Award(holders[k], achievementId))
  }

  /** The row created for a holder by ReplaceRecordHolders (without game and round). */
  function PlainAward(h: RecordHolder, achievementId: nat): PlayerAchievement
  {
    PlayerAchievement(h.playerId, achievementId, None, None, h.value)
  }

  function PlainAwards(holders: seq<RecordHolder>, achievementId: nat): (r: seq<PlayerAchievement>)
    ensures |r| == |holders|
    ensures forall k :: 0 <= k < |r| ==> r[k] == PlainAward(holders[k], achievementId)
  {
    seq(|holders|, k requires 0 <= k < |holders| => PlainAward(holders[k], achievementId))
  }

  predicate HasRow(rows: seq<PlayerAchievement>, playerId: nat, achievementId: nat)
  {
    exists k :: 0 <= k < |rows| && rows[k].playerId == playerId && rows[k].achievementId == achievementId
  }

  /** The equal-record pass: each holder in turn is added unless the player already has a row
      for the achievement, counting rows added earlier in the same pass. */
  function AddMissing(rows: seq<PlayerAchievement>, holders: seq<RecordHolder>, achievementId: nat): (r: seq<PlayerAchievement>)
    ensures |rows| <= |r| && r[..|rows|] == rows
    ensures forall k :: |rows| <= k < |r| ==> r[k].achievementId == achievementId
  {
    if |holders| == 0 then rows
    else
      var n := |holders| - 1;
      var r := AddMissing(rows, holders[..n], achievementId);
      var h := holders[n];
      if HasRow(r, h.playerId, achievementId) then r
      else
        assert (r + [Award(h, achievementId)])[..|rows|] == r[..|rows|];
        r + [Award(h, achievementId)]
  }

  /** No player holds an achievement twice. */
  predicate OneRowPerHolder(rows: seq<PlayerAchievement>, achievementId: nat)
  {
    forall i, j :: 0 <= i < j < |rows| && rows[i].achievementId == achievementId && rows[j].achievementId == achievementId
                   ==> rows[i].playerId != rows[j].playerId
  }

  /** The store of achievement holders. */
  class AchievementStore {
    const achievements: seq<Achievement>
    var rows: seq<PlayerAchievement>

    constructor(achievements: seq<Achievement>, rows: seq<PlayerAchievement>)
      ensures this.achievements == achievements && this.rows == rows
    {
      this.achievements := achievements;
      this.rows := rows;
    }

    /** UpsertRecordHolders: an unknown key fails; a new record replaces the achievement's
        holders by the given ones; otherwise an equal record adds the players not yet holding
        it; with neither flag nothing changes. */
    method UpsertRecordHolders(key: string, holders: seq<RecordHolder>, newRecord: bool, equalRecord: bool)
      returns (r: Outcome)
      modifies this
      ensures FindAchievement(achievements, key).None? ==> r == Fail(MsgRecordMissing) && rows == old(rows)
      ensures FindAchievement(achievements, key).Some? ==> r == Pass
      ensures FindAchievement(achievements, key).Some? && newRecord ==>
                var a := FindAchievement(achievements, key).value.id;
                rows == Without(old(rows), a) + Awards(holders, a)
      ensures FindAchievement(achievements, key).Some? && !newRecord && equalRecord ==>
                rows == AddMissing(old(rows), holders, FindAchievement(achievements, key).value.id)
      ensures !newRecord && !equalRecord ==> rows == old(rows)
    {
      var ach := FindAchievement(achievements, key);
      if ach.None? {
        return Fail(MsgRecordMissing);
      }
      var a := ach.value.id;
      if newRecord {
        var kept := KeepOthers(rows, a);
        rows := kept + Awards(holders, a);
        return Pass;
      }
      if equalRecord {
        var j := 0;
        while j < |holders|
          invariant j <= |holders|
          invariant rows == AddMissing(old(rows), holders[..j], a)
        {
          assert holders[..j + 1][..j] == holders[..j];
          var h := holders[j];
          var count := CountRows(rows, h.playerId, a);
          if count == 0 {
            rows := rows + [Award(h, a)];
          }
          j := j + 1;
        }
        assert holders[..j] == holders;
      }
      r := Pass;
    }

    /** ReplaceRecordHolders: an unknown key fails; otherwise the achievement's holders become
        exactly the given ones, recorded without game or round. */
    method ReplaceRecordHolders(key: string, holders: seq<RecordHolder>) returns (r: Outcome)
      modifies this
      ensures FindAchievement(achievements, key).None? ==> r == Fail(MsgRecordMissing) && rows == old(rows)
      ensures FindAchievement(achievements, key).Some? ==>
                var a := FindAchievement(achievements, key).value.id;
                r == Pass && rows == Without(old(rows), a) + PlainAwards(holders, a)
    {
      var ach := FindAchievement(achievements, key);
      if ach.None? {
        return Fail(MsgRecordMissing);
      }
      var a := ach.value.id;
      var kept := KeepOthers(rows, a);
      rows := kept + PlainAwards(holders, a);
      r := Pass;
    }
  }

  /** `DELETE FROM player_achievements WHERE achievement_id = ?`: the other rows, in order. */
  method KeepOthers(rows: seq<PlayerAchievement>, a: nat) returns (kept: seq<PlayerAchievement>)
    ensures kept == Without(rows, a)
  {
    kept := [];
    var i := 0;
    while i < |rows|
      invariant i <= |rows|
      invariant kept == Without(rows[..i], a)
    {
      assert rows[..i + 1][..i] == rows[..i];
      if rows[i].achievementId != a {
        kept := kept + [rows[i]];
      }
      i := i + 1;
    }
    assert rows[..i] == rows;
  }

  /** `SELECT COUNT(*) ... WHERE player_id = ? AND achievement_id = ?`. */
  method CountRows(rows: seq<PlayerAchievement>, playerId: nat, achievementId: nat) returns (count: nat)
    ensures count == 0 <==> !HasRow(rows, playerId, achievementId)
  {
    count := 0;
    var i := 0;
    while i < |rows|
      invariant i <= |rows|
      invariant count == 0 <==> !HasRow(rows[..i], playerId, achievementId)
    {
      if rows[i].playerId == playerId && rows[i].achievementId == achievementId {
        assert rows[..i + 1][i] == rows[i];
        count := count + 1;
      }
      assert forall k :: 0 <= k < i ==> rows[..i + 1][k] == rows[..i][k];
      i := i + 1;
    }
    assert rows[..i] == rows;
  }

  /** After a new record the achievement's rows are exactly the given holders', in order, and
      every other achievement keeps its rows. */
  lemma NewRecordReplacesHolders(rows: seq<PlayerAchievement>, holders: seq<RecordHolder>, a: nat, other: nat)
    requires other != a
    ensures RowsOf(Without(rows, a) + Awards(holders, a), a) == Awards(holders, a)
    ensures RowsOf(Without(rows, a) + Awards(holders, a), other) == RowsOf(rows, other)
  {
    RowsOfAppend(Without(rows, a), Awards(holders, a), a);
    RowsOfAppend(Without(rows, a), Awards(holders, a), other);
    RowsOfWithout(rows, a, a);
    RowsOfWithout(rows, a, other);
    RowsOfAll(Awards(holders, a), a);
    RowsOfNone(Awards(holders, a), a, other);
  }

  /** The same for ReplaceRecordHolders. */
  lemma ReplaceSetsHolders(rows: seq<PlayerAchievement>, holders: seq<RecordHolder>, a: nat, other: nat)
    requires other != a
    ensures RowsOf(Without(rows, a) + PlainAwards(holders, a), a) == PlainAwards(holders, a)
    ensures RowsOf(Without(rows, a) + PlainAwards(holders, a), other) == RowsOf(rows, other)
  {
    RowsOfAppend(Without(rows, a), PlainAwards(holders, a), a);
    RowsOfAppend(Without(rows, a), PlainAwards(holders, a), other);
    RowsOfWithout(rows, a, a);
    RowsOfWithout(rows, a, other);
    RowsOfAll(PlainAwards(holders, a), a);
    RowsOfNone(PlainAwards(holders, a), a, other);
  }

  lemma RowsOfLast(rows: seq<PlayerAchievement>, a: nat)
    requires |rows| > 0
    ensures RowsOf(rows, a) == RowsOf(rows[..|rows| - 1], a)
                               + (if rows[|rows| - 1].achievementId == a then [rows[|rows| - 1]] else [])
  {
  }

  lemma Associative<T>(x: seq<T>, y: seq<T>, z: seq<T>)
    ensures x + y + z == x + (y + z)
  {
  }

  lemma {:induction false} RowsOfAppend(s: seq<PlayerAchievement>, t: seq<PlayerAchievement>, a: nat)
    ensures RowsOf(s + t, a) == RowsOf(s, a) + RowsOf(t, a)
    decreases |t|
  {
    if |t| == 0 {
      assert s + t == s;
    } else {
      var n := |t| - 1;
      var last := if t[n].achievementId == a then [t[n]] else [];
      RowsOfLast(s + t, a);
      RowsOfLast(t, a);
      assert (s + t)[..|s + t| - 1] == s + t[..n];
      RowsOfAppend(s, t[..n], a);
      Associative(RowsOf(s, a), RowsOf(t[..n], a), last);
    }
  }

  lemma {:induction false} RowsOfWithout(rows: seq<PlayerAchievement>, a: nat, b: nat)
    ensures RowsOf(Without(rows, a), b) == if a == b then [] else RowsOf(rows, b)
    decreases |rows|
  {
    if |rows| > 0 {
      var n := |rows| - 1;
      var x := rows[n];
      RowsOfWithout(rows[..n], a, b);
      var w := Without(rows[..n], a);
      if x.achievementId != a {
        assert Without(rows, a) == w + [x];
        RowsOfSnoc(w, x, b);
      } else {
        assert Without(rows, a) == w;
      }
    }
  }

  lemma RowsOfSnoc(s: seq<PlayerAchievement>, x: PlayerAchievement, b: nat)
    ensures RowsOf(s + [x], b) == RowsOf(s, b) + (if x.achievementId == b then [x] else [])
  {
    assert (s + [x])[..|s|] == s;
  }

  lemma {:induction false} RowsOfAll(s: seq<PlayerAchievement>, a: nat)
    requires forall k :: 0 <= k < |s| ==> s[k].achievementId == a
    ensures RowsOf(s, a) == s
    decreases |s|
  {
    if |s| > 0 {
      var n := |s| - 1;
      RowsOfAll(s[..n], a);
      RowsOfLast(s, a);
      assert s == s[..n] + [s[n]];
    }
  }

  lemma {:induction false} RowsOfNone(s: seq<PlayerAchievement>, a: nat, b: nat)
    requires a != b
    requires forall k :: 0 <= k < |s| ==> s[k].achievementId == a
    ensures RowsOf(s, b) == []
    decreases |s|
  {
    if |s| > 0 {
      RowsOfNone(s[..|s| - 1], a, b);
    }
  }

  /** The equal-record pass never gives a player a second row for the achievement, and every
      given holder has a row afterwards. */
  lemma {:induction false} AddMissingKeepsOneRow(rows: seq<PlayerAchievement>, holders: seq<RecordHolder>, a: nat)
    requires OneRowPerHolder(rows, a)
    ensures OneRowPerHolder(AddMissing(rows, holders, a), a)
    ensures forall k :: 0 <= k < |holders| ==> HasRow(AddMissing(rows, holders, a), holders[k].playerId, a)
    decreases |holders|
  {
    if |holders| > 0 {
      var n := |holders| - 1;
      AddMissingKeepsOneRow(rows, holders[..n], a);
      var r := AddMissing(rows, holders[..n], a);
      var h := holders[n];
      if !HasRow(r, h.playerId, a) {
        var t := r + [Award(h, a)];
        assert t[|r|].playerId == h.playerId && t[|r|].achievementId == a;
        forall k | 0 <= k < n ensures HasRow(t, holders[k].playerId, a) {
          assert holders[..n][k] == holders[k];
          var j :| 0 <= j < |r| && r[j].playerId == holders[k].playerId && r[j].achievementId == a;
          assert t[j] == r[j];
        }
      } else {
        forall k | 0 <= k < n ensures HasRow(r, holders[k].playerId, a) {
          assert holders[..n][k] == holders[k];
        }
      }
    }
  }

  /** Rows of other achievements are untouched by the equal-record pass. */
  lemma {:induction false} AddMissingLeavesOthers(rows: seq<PlayerAchievement>, holders: seq<RecordHolder>, a: nat, other: nat)
    requires other != a
    ensures RowsOf(AddMissing(rows, holders, a), other) == RowsOf(rows, other)
    decreases |holders|
  {
    if |holders| > 0 {
      var n := |holders| - 1;
      AddMissingLeavesOthers(rows, holders[..n], a, other);
      var r := AddMissing(rows, holders[..n], a);
      var h := holders[n];
      if !HasRow(r, h.playerId, a) {
        assert (r + [Award(h, a)])[..|r|] == r;
      }
    }
  }
}
