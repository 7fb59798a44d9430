/** The player rows the game page shows (src/hooks/useMergedPlayerData.js): each game player
    with their name, faction, icon key, colour and points, optionally sorted by points. */
module MergedPlayers {
  import opened Wrappers
  import opened Text
  import opened JsValues
  import opened Sorting

  /** One merged row. The values are the page's JavaScript values, except the faction, which
      has been used as a string. */
  datatype MergedPlayer = MergedPlayer(
    playerId: JsValue,
    id: JsValue,
    name: JsValue,
    faction: string,
    factionKey: string,
    color: JsValue,
    points: JsValue)

  // ---------------------------------------------------------------- the score map

  /** `new Map(scores.map(s => [s.player_id, s]))`: a later row for the same player replaces
      an earlier one. */
  function ScoreMap(rows: seq<JsValue>): (r: map<JsValue, JsValue>)
    ensures forall k :: k in r <==> exists i :: 0 <= i < |rows| && Get(rows[i], "player_id") == k
  {
    if rows == [] then map[]
    else
      var row := rows[|rows| - 1];
      var init := rows[..|rows| - 1];
      assert forall i :: 0 <= i < |init| ==> init[i] == rows[i];
      ScoreMap(init)[Get(row, "player_id") := row]
  }

  /** A player's entry is their last row. */
  lemma {:induction false} ScoreMapLastWins(rows: seq<JsValue>, i: nat)
    requires i < |rows|
    requires forall j :: i < j < |rows| ==> Get(rows[j], "player_id") != Get(rows[i], "player_id")
    ensures ScoreMap(rows)[Get(rows[i], "player_id")] == rows[i]
  {
    if i < |rows| - 1 {
      var init := rows[..|rows| - 1];
      assert forall j :: i < j < |init| ==> init[j] == rows[j];
      ScoreMapLastWins(init, i);
    }
  }

  /** `scoreMap.get(id)?.points || 0`. */
  function PointsFor(scoreMap: map<JsValue, JsValue>, id: JsValue): (r: JsValue)
    ensures id !in scoreMap ==> r == Num(0)
    ensures id in scoreMap && Truthy(Get(scoreMap[id], "points")) ==> r == Get(scoreMap[id], "points")
    ensures !Truthy(r) ==> r == Num(0)
  {
    if id in scoreMap then Or(Get(scoreMap[id], "points"), Num(0)) else Num(0)
  }

  // ---------------------------------------------------------------- faction keys

  /** `s.replace(/^The\s+/i, "")`: a leading "The" in any case followed by white space loses
      both. */
  function StripThe(s: string): (r: string)
    ensures |s| >= 4 && ToLower(s[..3]) == "the" && IsJsSpace(s[3]) ==> r == SkipJsSpace(s[3..])
    ensures !(|s| >= 4 && ToLower(s[..3]) == "the" && IsJsSpace(s[3])) ==> r == s
  {
    if |s| >= 4 && ToLower(s[..3]) == "the" && IsJsSpace(s[3]) then SkipJsSpace(s[3..]) else s
  }

  /** `s.replace(/\s+/g, "")`. */
  function RemoveJsSpace(s: string): (r: string)
    ensures |r| <= |s| && forall i :: 0 <= i < |r| ==> !IsJsSpace(r[i])
    ensures (forall i :: 0 <= i < |s| ==> !IsJsSpace(s[i])) ==> r == s
  {
    if s == [] then ""
    else (if IsJsSpace(s[0]) then "" else [s[0]]) + RemoveJsSpace(s[1..])
  }

  /** `s.replace(/[^a-zA-Z0-9]/g, "")`. */
  function KeepAlnum(s: string): (r: string)
    ensures |r| <= |s| && forall i :: 0 <= i < |r| ==> IsAlnum(r[i])
    ensures (forall i :: 0 <= i < |s| ==> IsAlnum(s[i])) ==> r == s
  {
    if s == [] then ""
    else (if IsAlnum(s[0]) then [s[0]] else "") + KeepAlnum(s[1..])
  }

  const KeleresSuffix: string := "FactionSymbol"

  lemma SuffixIsAlnum()
    ensures forall i :: 0 <= i < |KeleresSuffix| ==> IsAlnum(KeleresSuffix[i])
  {
    var t := KeleresSuffix;
    assert t == ['F', 'a', 'c', 't', 'i', 'o', 'n', 'S', 'y', 'm', 'b', 'o', 'l'];
  }

  lemma ConcatParts(a: string, b: string)
    requires forall i :: 0 <= i < |a| ==> IsAlnum(a[i])
    requires forall i :: 0 <= i < |b| ==> IsAlnum(b[i])
    ensures (a + b)[..|a|] == a && (a + b)[|a|..] == b
    ensures forall i :: 0 <= i < |a + b| ==> IsAlnum((a + b)[i])
  {
    forall i | 0 <= i < |a + b| ensures IsAlnum((a + b)[i]) {
      if i >= |a| {
        assert (a + b)[i] == b[i - |a|];
      }
    }
  }

  /** `faction.toLowerCase().includes("keleres")`. */
  predicate MentionsKeleres(faction: string)
  {
    Contains(ToLower(faction), "keleres")
  }

  /** The letters and digits of the faction name after a leading "The ". */
  function IconBase(faction: string): (r: string)
    ensures forall i :: 0 <= i < |r| ==> IsAlnum(r[i])
  {
    KeepAlnum(RemoveJsSpace(StripThe(faction)))
  }

  /** The icon key of a faction: its letters and digits after a leading "The ", with
      "FactionSymbol" appended for any Keleres faction. */
  function FactionKey(faction: string): (r: string)
    ensures forall i :: 0 <= i < |r| ==> IsAlnum(r[i])
    ensures HasPrefix(r, IconBase(faction))
  {
    var base := IconBase(faction);
    var suffix := if MentionsKeleres(faction) then KeleresSuffix else "";
    SuffixIsAlnum();
    ConcatParts(base, suffix);
    base + suffix
  }

  /** The key ends in "FactionSymbol" exactly for a Keleres faction, and is otherwise the
      name's letters and digits. */
  lemma FactionKeySuffix(faction: string)
    ensures MentionsKeleres(faction) ==> FactionKey(faction)[|IconBase(faction)|..] == KeleresSuffix
    ensures !MentionsKeleres(faction) ==> FactionKey(faction) == IconBase(faction)
  {
    var suffix := if MentionsKeleres(faction) then KeleresSuffix else "";
    SuffixIsAlnum();
    ConcatParts(IconBase(faction), suffix);
  }

  /** A key that does not spell "keleres" is its own key: keys are stable under re-keying. */
  lemma FactionKeyStable(faction: string)
    requires !MentionsKeleres(FactionKey(faction))
    ensures FactionKey(FactionKey(faction)) == FactionKey(faction)
  {
    var k := FactionKey(faction);
    AlnumIsOwnBase(k);
    FactionKeySuffix(k);
  }

  /** A name made only of letters and digits is its own icon base. */
  lemma AlnumIsOwnBase(k: string)
    requires forall i :: 0 <= i < |k| ==> IsAlnum(k[i])
    ensures IconBase(k) == k
  {
    assert StripThe(k) == k by {
      if |k| >= 4 {
        assert IsAlnum(k[3]) && !IsJsSpace(k[3]);
      }
    }
    assert RemoveJsSpace(k) == k;
  }

  // ---------------------------------------------------------------- merging

  /** The reads `useMergedPlayerData` makes go through: `game?.scores` and
      `game?.game_players` are arrays or missing, their rows are set, and every faction read
      is a string or falsy. */
  predicate Mergeable(game: JsValue)
  {
    var scores := Get(game, "scores");
    var players := Get(game, "game_players");
    ListOrNullish(scores) && (forall i :: 0 <= i < |Elements(scores)| ==> !Nullish(Elements(scores)[i]))
    && ListOrFalsy(players)
    && forall i :: 0 <= i < |Elements(players)| ==>
         !Nullish(Elements(players)[i]) && Or(Get(Elements(players)[i], "Faction"), Str("Unknown Faction")).Str?
  }

  /** One game player's row. */
  function MergeOne(gp: JsValue, scoreMap: map<JsValue, JsValue>): (r: MergedPlayer)
    requires Or(Get(gp, "Faction"), Str("Unknown Faction")).Str?
    ensures r.playerId == Get(Or(Get(gp, "Player"), Obj(map[])), "ID") && r.id == Get(gp, "ID")
    ensures !Truthy(Get(gp, "Faction")) ==> r.faction == "Unknown Faction"
    ensures Truthy(Get(gp, "Faction")) ==> Str(r.faction) == Get(gp, "Faction")
    ensures var p := Or(Get(gp, "Player"), Obj(map[]));
            r.name == if Truthy(Get(p, "Name")) then Get(p, "Name") else Str("Unknown")
    ensures r.color == if Truthy(Get(gp, "color")) then Get(gp, "color") else Str("#000")
    ensures r.factionKey == FactionKey(r.faction)
    ensures Truthy(r.name) && Truthy(r.color)
    ensures r.points == PointsFor(scoreMap, r.playerId)
  {
    var p := Or(Get(gp, "Player"), Obj(map[]));
    var faction := Or(Get(gp, "Faction"), Str("Unknown Faction")).s;
    MergedPlayer(
      Get(p, "ID"),
      Get(gp, "ID"),
      Or(Get(p, "Name"), Str("Unknown")),
      faction,
      FactionKey(faction),
      Or(Get(gp, "color"), Str("#000")),
      PointsFor(scoreMap, Get(p, "ID")))
  }

  function MergeAll(players: seq<JsValue>, scoreMap: map<JsValue, JsValue>): (r: seq<MergedPlayer>)
    requires forall i :: 0 <= i < |players| ==> Or(Get(players[i], "Faction"), Str("Unknown Faction")).Str?
    ensures |r| == |players|
    ensures forall i :: 0 <= i < |players| ==> r[i] == MergeOne(players[i], scoreMap)
  {
    seq(|players|, i requires 0 <= i < |players| => MergeOne(players[i], scoreMap))
  }

  /** `b.points - a.points <= 0`: `a` may come before `b` when it has at least as many points. */
  predicate MorePoints(a: MergedPlayer, b: MergedPlayer)
  {
    PointsValue(a) >= PointsValue(b)
  }

  function PointsValue(m: MergedPlayer): int
  {
    if m.points.Num? then m.points.n else 0
  }

  lemma MorePointsIsTotalPreorder()
    ensures TotalPreorder(MorePoints)
  {
  }

  /** `useMergedPlayerData(game, sort)`: one row per game player in game order, or, when
      sorting, the same rows by points, most first (sorting subtracts the points, so they are
      numbers). */
  function MergedPlayerData(game: JsValue, sort: bool): (r: seq<MergedPlayer>)
    requires Mergeable(game)
    requires sort ==> forall i :: 0 <= i < |Elements(Get(game, "game_players"))| ==>
      MergeOne(Elements(Get(game, "game_players"))[i], ScoreMap(Elements(Get(game, "scores")))).points.Num?
    ensures !sort ==> r == MergeAll(Elements(Get(game, "game_players")), ScoreMap(Elements(Get(game, "scores"))))
    ensures sort ==> multiset(r) == multiset(MergeAll(Elements(Get(game, "game_players")), ScoreMap(Elements(Get(game, "scores")))))
  {
    var players := Elements(Get(game, "game_players"));
    var merged := MergeAll(players, ScoreMap(Elements(Get(game, "scores"))));
    if sort then SortBy(merged, MorePoints) else merged
  }

  /** Sorted rows run from the most points to the fewest. */
  lemma SortedByPoints(game: JsValue)
    requires Mergeable(game)
    requires forall i :: 0 <= i < |Elements(Get(game, "game_players"))| ==>
      MergeOne(Elements(Get(game, "game_players"))[i], ScoreMap(Elements(Get(game, "scores")))).points.Num?
    ensures var r := MergedPlayerData(game, true);
            (forall i :: 0 <= i < |r| ==> r[i].points.Num?)
            && forall i, j :: 0 <= i < j < |r| ==> PointsValue(r[i]) >= PointsValue(r[j])
  {
    var players := Elements(Get(game, "game_players"));
    var merged := MergeAll(players, ScoreMap(Elements(Get(game, "scores"))));
    var r := MergedPlayerData(game, true);
    MorePointsIsTotalPreorder();
    SortBySorted(merged, MorePoints);
    forall i | 0 <= i < |r| ensures r[i].points.Num? {
      assert r[i] in multiset(merged) by { assert r[i] in r; }
    }
  }

  /** A player with no score row shows 0 points; a player with one shows that row's points,
      or 0 when they are falsy. */
  lemma PointsOfPlayer(rows: seq<JsValue>, gp: JsValue, i: nat)
    requires Or(Get(gp, "Faction"), Str("Unknown Faction")).Str?
    ensures var id := Get(Or(Get(gp, "Player"), Obj(map[])), "ID");
            (forall j :: 0 <= j < |rows| ==> Get(rows[j], "player_id") != id) ==> MergeOne(gp, ScoreMap(rows)).points == Num(0)
    ensures var id := Get(Or(Get(gp, "Player"), Obj(map[])), "ID");
            i < |rows| && Get(rows[i], "player_id") == id
            && (forall j :: i < j < |rows| ==> Get(rows[j], "player_id") != id)
            ==> MergeOne(gp, ScoreMap(rows)).points == Or(Get(rows[i], "points"), Num(0))
  {
    var id := Get(Or(Get(gp, "Player"), Obj(map[])), "ID");
    if i < |rows| && Get(rows[i], "player_id") == id && (forall j :: i < j < |rows| ==> Get(rows[j], "player_id") != id) {
      ScoreMapLastWins(rows, i);
    }
  }
}
