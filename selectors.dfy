/** The frontend's score selectors (frontend/src/utils/selectors.js): reads over a game's
    `AllScores` list that accept either spelling of each key. */
module Selectors {
  import opened Wrappers
  import opened Text
  import opened JsValues

  /** `s.Type || s.type`. */
  function TypeField(s: JsValue): JsValue
  {
    Or(Get(s, "Type"), Get(s, "type"))
  }

  /** The lower-cased type of a score, "" when it has none. */
  function KindOf(s: JsValue): (r: string)
    ensures TypeField(s).Str? ==> r == ToLower(TypeField(s).s)
    ensures !TypeField(s).Str? ==> r == ""
  {
    var t := TypeField(s);
    if t.Str? then ToLower(t.s) else ""
  }

  /** `(s.Type || s.type || "").toLowerCase()` does not throw: `s` is set and its type is a
      string or falsy. */
  predicate KindListable(s: JsValue)
  {
    !Nullish(s) && (TypeField(s).Str? || !Truthy(TypeField(s)))
  }

  /** `(s?.Type || s?.type)?.toLowerCase()` does not throw: the type is a string or nullish. */
  predicate KindReadable(s: JsValue)
  {
    TypeField(s).Str? || Nullish(TypeField(s))
  }

  /** `s.PlayerID ?? s.player_id`. */
  function PlayerRef(s: JsValue): JsValue
  {
    Coalesce(Get(s, "PlayerID"), Get(s, "player_id"))
  }

  /** `s.ObjectiveID ?? s.objective_id`. */
  function ObjectiveRef(s: JsValue): JsValue
  {
    Coalesce(Get(s, "ObjectiveID"), Get(s, "objective_id"))
  }

  /** `s.AgendaTitle || s.agenda_title` and `s.RelicTitle || s.relic_title`. */
  function AgendaTitleOf(s: JsValue): JsValue
  {
    Or(Get(s, "AgendaTitle"), Get(s, "agenda_title"))
  }

  function RelicTitleOf(s: JsValue): JsValue
  {
    Or(Get(s, "RelicTitle"), Get(s, "relic_title"))
  }

  /** `s.Points ?? s.points ?? 0`. */
  function PointsOf(s: JsValue): JsValue
  {
    Coalesce(Coalesce(Get(s, "Points"), Get(s, "points")), Num(0))
  }

  /** `game?.AllScores || []`. */
  function ScoresOf(game: JsValue): seq<JsValue>
  {
    Elements(Get(game, "AllScores"))
  }

  /** Every read of `game?.AllScores` goes through without a TypeError: the list is an array
      or missing, and no element is null. */
  predicate ScoresListed(game: JsValue)
  {
    ListOrFalsy(Get(game, "AllScores"))
    && forall i :: 0 <= i < |ScoresOf(game)| ==> !Nullish(ScoresOf(game)[i])
  }

  /** As `ScoresListed`, and `byType` can lower-case each element's type. */
  predicate ScoresTyped(game: JsValue)
  {
    ListOrFalsy(Get(game, "AllScores"))
    && forall i :: 0 <= i < |ScoresOf(game)| ==> KindListable(ScoresOf(game)[i])
  }

  /** The elements of `xs` whose lower-cased type is `kind`, in order. */
  function OfKind(xs: seq<JsValue>, kind: string): (r: seq<JsValue>)
    ensures |r| <= |xs|
    ensures forall x :: x in r <==> x in xs && KindOf(x) == kind
    ensures (forall j :: 0 <= j < |xs| ==> KindOf(xs[j]) != kind) ==> r == []
  {
    if xs == [] then []
    else
      var x := xs[|xs| - 1];
      assert xs == xs[..|xs| - 1] + [x];
      OfKind(xs[..|xs| - 1], kind) + (if KindOf(x) == kind then [x] else [])
  }

  /** The first element of `OfKind` is the first element of the list with that type. */
  lemma {:induction false} OfKindFirst(xs: seq<JsValue>, kind: string, i: nat)
    requires i < |xs| && KindOf(xs[i]) == kind
    requires forall j :: 0 <= j < i ==> KindOf(xs[j]) != kind
    ensures OfKind(xs, kind) != [] && OfKind(xs, kind)[0] == xs[i]
  {
    var init := xs[..|xs| - 1];
    if i < |xs| - 1 {
      OfKindFirst(init, kind, i);
    } else {
      assert forall j :: 0 <= j < |init| ==> init[j] == xs[j];
    }
  }

  /** `byType(scores, type)`: the elements whose lower-cased type is `kind`, in order. */
  function ByType(scores: JsValue, kind: string): (r: seq<JsValue>)
    requires ListOrFalsy(scores)
    requires forall i :: 0 <= i < |Elements(scores)| ==> KindListable(Elements(scores)[i])
    ensures forall x :: x in r <==> x in Elements(scores) && KindOf(x) == kind
  {
    OfKind(Elements(scores), kind)
  }

  /** `s.AgendaTitle === title || s.agenda_title === title`. */
  predicate CarriesAgendaTitle(s: JsValue, title: JsValue)
  {
    StrictEq(Get(s, "AgendaTitle"), title) || StrictEq(Get(s, "agenda_title"), title)
  }

  /** `isAgendaUsed(game, title)`: some agenda score carries the title under either key. */
  function IsAgendaUsed(game: JsValue, title: JsValue): (r: bool)
    requires ScoresTyped(game)
    ensures r <==> exists i :: 0 <= i < |ScoresOf(game)| && KindOf(ScoresOf(game)[i]) == "agenda"
                                && CarriesAgendaTitle(ScoresOf(game)[i], title)
  {
    var xs := ScoresOf(game);
    var used := ByType(Get(game, "AllScores"), "agenda");
    var keep := s => KindOf(s) == "agenda";
    var q := s => CarriesAgendaTitle(s, title);
    AnyOfSublist(xs, used, keep, q);
    assert forall i :: 0 <= i < |xs| ==> (keep(xs[i]) && q(xs[i])) == (KindOf(xs[i]) == "agenda" && CarriesAgendaTitle(xs[i], title));
    Any(used, q)
  }

  /** `s.RelicTitle === title || s.relic_title === title`. */
  predicate CarriesRelicTitle(s: JsValue, title: JsValue)
  {
    StrictEq(Get(s, "RelicTitle"), title) || StrictEq(Get(s, "relic_title"), title)
  }

  /** `isRelicUsed(game, title)`: some relic score carries the title under either key. */
  function IsRelicUsed(game: JsValue, title: JsValue): (r: bool)
    requires ScoresTyped(game)
    ensures r <==> exists i :: 0 <= i < |ScoresOf(game)| && KindOf(ScoresOf(game)[i]) == "relic"
                                && CarriesRelicTitle(ScoresOf(game)[i], title)
  {
    var xs := ScoresOf(game);
    var used := ByType(Get(game, "AllScores"), "relic");
    var keep := s => KindOf(s) == "relic";
    var q := s => CarriesRelicTitle(s, title);
    AnyOfSublist(xs, used, keep, q);
    assert forall i :: 0 <= i < |xs| ==> (keep(xs[i]) && q(xs[i])) == (KindOf(xs[i]) == "relic" && CarriesRelicTitle(xs[i], title));
    Any(used, q)
  }

  /** `custodiansScorerId(game)`: the player of the first score typed "mecatol", in list order,
      or null when there is none. */
  function CustodiansScorerId(game: JsValue): (r: JsValue)
    requires ScoresTyped(game)
    ensures (forall i :: 0 <= i < |ScoresOf(game)| ==> KindOf(ScoresOf(game)[i]) != "mecatol") ==> r == Null
    ensures !r.Undefined?
  {
    var xs := ScoresOf(game);
    var mecatol := ByType(Get(game, "AllScores"), "mecatol");
    assert mecatol == OfKind(xs, "mecatol");
    var first := Find(mecatol, Truthy);
    assert mecatol != [] ==> first == mecatol[0] by {
      if mecatol != [] {
        assert mecatol[0] in mecatol;
        assert KindOf(mecatol[0]) == "mecatol";
      }
    }
    assert mecatol == [] ==> first == Undefined;
    Coalesce(Coalesce(Get(first, "PlayerID"), Get(first, "player_id")), Null)
  }

  /** Only an object has a type. */
  lemma KindedIsObject(s: JsValue)
    requires KindOf(s) != ""
    ensures s.Obj?
  {
  }

  /** With a "mecatol" score in the list, the scorer is the player of the first one. */
  lemma CustodiansScorerIdFirst(game: JsValue, i: nat)
    requires ScoresTyped(game)
    requires i < |ScoresOf(game)| && KindOf(ScoresOf(game)[i]) == "mecatol"
    requires forall j :: 0 <= j < i ==> KindOf(ScoresOf(game)[j]) != "mecatol"
    ensures CustodiansScorerId(game) == Coalesce(PlayerRef(ScoresOf(game)[i]), Null)
  {
    var xs := ScoresOf(game);
    var mecatol := ByType(Get(game, "AllScores"), "mecatol");
    assert mecatol == OfKind(xs, "mecatol");
    OfKindFirst(xs, "mecatol", i);
    KindedIsObject(xs[i]);
    FindHead(mecatol, Truthy);
  }

  /** The position of the first "mecatol" score. */
  function FirstMecatol(xs: seq<JsValue>): (k: nat)
    requires exists i :: 0 <= i < |xs| && KindOf(xs[i]) == "mecatol"
    ensures k < |xs| && KindOf(xs[k]) == "mecatol"
    ensures forall j :: 0 <= j < k ==> KindOf(xs[j]) != "mecatol"
  {
    if KindOf(xs[0]) == "mecatol" then 0
    else
      assert exists i :: 0 <= i < |xs[1..]| && KindOf(xs[1..][i]) == "mecatol" by {
        var i :| 0 <= i < |xs| && KindOf(xs[i]) == "mecatol";
        assert xs[1..][i - 1] == xs[i];
      }
      var k := FirstMecatol(xs[1..]);
      assert forall j :: 1 <= j <= k ==> xs[j] == xs[1..][j - 1];
      k + 1
  }

  /** Agreement on every score's type and player, position by position. */
  predicate SameReads(xs: seq<JsValue>, ys: seq<JsValue>)
  {
    |ys| == |xs| &&
    forall i :: 0 <= i < |xs| ==>
      KindOf(ys[i]) == KindOf(xs[i]) && PlayerRef(ys[i]) == PlayerRef(xs[i])
      && ObjectiveRef(ys[i]) == ObjectiveRef(xs[i])
      && TypeField(ys[i]) == TypeField(xs[i]) && !Nullish(ys[i])
  }

  lemma TypedByReads(g1: JsValue, g2: JsValue)
    requires ScoresTyped(g1) && SameReads(ScoresOf(g1), ScoresOf(g2))
    requires ListOrFalsy(Get(g2, "AllScores"))
    ensures ScoresTyped(g2)
  {
  }

  /** Two score lists that agree, position by position, on each score's type and player
      name the same Custodians scorer. */
  lemma CustodiansByReads(g1: JsValue, g2: JsValue)
    requires ScoresTyped(g1) && SameReads(ScoresOf(g1), ScoresOf(g2))
    requires ListOrFalsy(Get(g2, "AllScores"))
    ensures ScoresTyped(g2)
    ensures CustodiansScorerId(g1) == CustodiansScorerId(g2)
  {
    TypedByReads(g1, g2);
    var xs := ScoresOf(g1);
    var ys := ScoresOf(g2);
    if i :| 0 <= i < |xs| && KindOf(xs[i]) == "mecatol" {
      CustodiansByReadsAt(g1, g2, FirstMecatol(xs));
    } else {
      forall j | 0 <= j < |ys| ensures KindOf(ys[j]) != "mecatol" {
        assert KindOf(ys[j]) == KindOf(xs[j]);
      }
      assert CustodiansScorerId(g1) == Null;
    }
  }

  lemma CustodiansByReadsAt(g1: JsValue, g2: JsValue, k: nat)
    requires ScoresTyped(g1) && ScoresTyped(g2) && SameReads(ScoresOf(g1), ScoresOf(g2))
    requires k < |ScoresOf(g1)| && KindOf(ScoresOf(g1)[k]) == "mecatol"
    requires forall j :: 0 <= j < k ==> KindOf(ScoresOf(g1)[j]) != "mecatol"
    ensures CustodiansScorerId(g1) == CustodiansScorerId(g2)
  {
    var xs, ys := ScoresOf(g1), ScoresOf(g2);
    assert KindOf(ys[k]) == KindOf(xs[k]) && PlayerRef(ys[k]) == PlayerRef(xs[k]);
    forall j | 0 <= j < k ensures KindOf(ys[j]) != "mecatol" {
      assert KindOf(ys[j]) == KindOf(xs[j]);
    }
    CustodiansScorerIdFirst(g1, k);
    CustodiansScorerIdFirst(g2, k);
  }

  /** A score pairs the player with the objective, each under either spelling of its key. */
  predicate Pairs(s: JsValue, playerId: JsValue, objectiveId: JsValue)
  {
    StrictEq(PlayerRef(s), playerId) && StrictEq(ObjectiveRef(s), objectiveId)
  }

  /** `hasScoredObjective(game, playerId, objectiveId)`: some score pairs the two ids. */
  function HasScoredObjective(game: JsValue, playerId: JsValue, objectiveId: JsValue): (r: bool)
    requires ScoresListed(game)
    ensures r <==> exists i :: 0 <= i < |ScoresOf(game)| && Pairs(ScoresOf(game)[i], playerId, objectiveId)
  {
    var xs := ScoresOf(game);
    var p := s => Pairs(s, playerId, objectiveId);
    assert forall i :: 0 <= i < |xs| ==> p(xs[i]) == Pairs(xs[i], playerId, objectiveId);
    Any(xs, p)
  }

  /** Two score lists that agree on every score's player and objective find the same claims. */
  lemma ClaimsByReads(g1: JsValue, g2: JsValue, playerId: JsValue, objectiveId: JsValue)
    requires ScoresListed(g1) && SameReads(ScoresOf(g1), ScoresOf(g2))
    requires ListOrFalsy(Get(g2, "AllScores"))
    ensures ScoresListed(g2)
    ensures HasScoredObjective(g1, playerId, objectiveId) == HasScoredObjective(g2, playerId, objectiveId)
  {
    ListedByReads(g1, g2);
    if HasScoredObjective(g1, playerId, objectiveId) {
      ClaimForward(g1, g2, playerId, objectiveId);
    }
    if HasScoredObjective(g2, playerId, objectiveId) {
      ClaimBackward(g1, g2, playerId, objectiveId);
    }
  }

  lemma ClaimForward(g1: JsValue, g2: JsValue, playerId: JsValue, objectiveId: JsValue)
    requires ScoresListed(g1) && ScoresListed(g2) && SameReads(ScoresOf(g1), ScoresOf(g2))
    requires HasScoredObjective(g1, playerId, objectiveId)
    ensures HasScoredObjective(g2, playerId, objectiveId)
  {
    var xs, ys := ScoresOf(g1), ScoresOf(g2);
    var i :| 0 <= i < |xs| && Pairs(xs[i], playerId, objectiveId);
    PairsByReads(xs, ys, i, playerId, objectiveId);
  }

  lemma ClaimBackward(g1: JsValue, g2: JsValue, playerId: JsValue, objectiveId: JsValue)
    requires ScoresListed(g1) && ScoresListed(g2) && SameReads(ScoresOf(g1), ScoresOf(g2))
    requires HasScoredObjective(g2, playerId, objectiveId)
    ensures HasScoredObjective(g1, playerId, objectiveId)
  {
    var xs, ys := ScoresOf(g1), ScoresOf(g2);
    var i :| 0 <= i < |ys| && Pairs(ys[i], playerId, objectiveId);
    PairsByReads(xs, ys, i, playerId, objectiveId);
  }

  lemma ListedByReads(g1: JsValue, g2: JsValue)
    requires ScoresListed(g1) && SameReads(ScoresOf(g1), ScoresOf(g2))
    requires ListOrFalsy(Get(g2, "AllScores"))
    ensures ScoresListed(g2)
  {
  }

  lemma PairsByReads(xs: seq<JsValue>, ys: seq<JsValue>, i: nat, playerId: JsValue, objectiveId: JsValue)
    requires SameReads(xs, ys) && i < |xs|
    ensures Pairs(ys[i], playerId, objectiveId) == Pairs(xs[i], playerId, objectiveId)
  {
  }

  /** `(s.PlayerID ?? s.player_id) === playerId`. */
  predicate OwnedBy(s: JsValue, playerId: JsValue)
  {
    StrictEq(PlayerRef(s), playerId)
  }

  /** The sum of the points of the scores owned by `playerId`. */
  function PointsSum(xs: seq<JsValue>, playerId: JsValue): (r: int)
    requires forall i :: 0 <= i < |xs| && OwnedBy(xs[i], playerId) ==> PointsOf(xs[i]).Num?
  {
    if xs == [] then 0
    else
      var x := xs[|xs| - 1];
      var rest := PointsSum(xs[..|xs| - 1], playerId);
      if OwnedBy(x, playerId) then rest + PointsOf(x).n else rest
  }

  /** A player with no score has no points; a player whose points are never negative has a
      non-negative total. */
  lemma {:induction false} PointsSumBounds(xs: seq<JsValue>, playerId: JsValue)
    requires forall i :: 0 <= i < |xs| && OwnedBy(xs[i], playerId) ==> PointsOf(xs[i]).Num?
    ensures (forall i :: 0 <= i < |xs| ==> !OwnedBy(xs[i], playerId)) ==> PointsSum(xs, playerId) == 0
    ensures (forall i :: 0 <= i < |xs| && OwnedBy(xs[i], playerId) ==> PointsOf(xs[i]).n >= 0)
            ==> PointsSum(xs, playerId) >= 0
  {
    if xs != [] {
      PointsSumBounds(xs[..|xs| - 1], playerId);
    }
  }

  /** `playerTotalPoints(game, playerId)`: the sum of `Points ?? points ?? 0` over the scores
      whose player is `playerId`. The points of those scores are numbers (a string would make
      `+` concatenate). */
  function PlayerTotalPoints(game: JsValue, playerId: JsValue): (r: int)
    requires ScoresListed(game)
    requires forall i :: 0 <= i < |ScoresOf(game)| && OwnedBy(ScoresOf(game)[i], playerId)
                         ==> PointsOf(ScoresOf(game)[i]).Num?
  {
    PointsSum(ScoresOf(game), playerId)
  }

  /** `winnerPlayerId(game)`: `winner_id`, else `WinnerID`, else null; never undefined. */
  function WinnerPlayerId(game: JsValue): (r: JsValue)
    ensures !Nullish(Get(game, "winner_id")) ==> r == Get(game, "winner_id")
    ensures Nullish(Get(game, "winner_id")) && !Nullish(Get(game, "WinnerID")) ==> r == Get(game, "WinnerID")
    ensures !r.Undefined?
  {
    Coalesce(Coalesce(Get(game, "winner_id"), Get(game, "WinnerID")), Null)
  }

  /** `isMecatolScoreForPlayer(s, playerId)`. */
  predicate IsMecatolScoreForPlayer(s: JsValue, playerId: JsValue)
    requires KindReadable(s)
  {
    KindOf(s) == "mecatol" && OwnedBy(s, playerId)
  }

  /** `isImperialScoreForPlayer(s, playerId)`. */
  predicate IsImperialScoreForPlayer(s: JsValue, playerId: JsValue)
    requires KindReadable(s)
  {
    KindOf(s) == "imperial" && OwnedBy(s, playerId)
  }

  /** `isAgendaScoreForPlayer(s, playerId, title = null)`: a falsy title matches any agenda. */
  predicate IsAgendaScoreForPlayer(s: JsValue, playerId: JsValue, title: JsValue := Null)
    requires KindReadable(s)
  {
    KindOf(s) == "agenda" && OwnedBy(s, playerId) && (Truthy(title) ==> StrictEq(AgendaTitleOf(s), title))
  }

  /** `isAgendaScore(s, title)`. */
  predicate IsAgendaScore(s: JsValue, title: JsValue)
    requires KindReadable(s)
  {
    KindOf(s) == "agenda" && StrictEq(AgendaTitleOf(s), title)
  }

  /** `isRelicScore(s, title)`. */
  predicate IsRelicScore(s: JsValue, title: JsValue)
    requires KindReadable(s)
  {
    KindOf(s) == "relic" && StrictEq(RelicTitleOf(s), title)
  }

  /** The Custodians test matches the type without regard to case, and the player under
      either key. */
  lemma MecatolTestMeaning(s: JsValue, playerId: JsValue)
    requires KindReadable(s)
    ensures IsMecatolScoreForPlayer(s, playerId) <==>
              TypeField(s).Str? && ToLower(TypeField(s).s) == "mecatol" && StrictEq(PlayerRef(s), playerId)
  {
  }

  /** An agenda test without a title is the plain agenda test for that player; with one it
      adds the title test. */
  lemma AgendaTestMeaning(s: JsValue, playerId: JsValue, title: JsValue)
    requires KindReadable(s)
    ensures !Truthy(title) ==> (IsAgendaScoreForPlayer(s, playerId, title) <==> IsAgendaScoreForPlayer(s, playerId))
    ensures Truthy(title) ==> (IsAgendaScoreForPlayer(s, playerId, title) <==> IsAgendaScore(s, title) && OwnedBy(s, playerId))
  {
  }

  /** A score has one kind: a relic score is neither an agenda nor a Custodians score. */
  lemma KindsExclusive(s: JsValue, playerId: JsValue, title: JsValue)
    requires KindReadable(s)
    ensures IsRelicScore(s, title) ==> !IsAgendaScore(s, title) && !IsMecatolScoreForPlayer(s, playerId)
  {
  }

  /** "Mecatol", "MECATOL" and "mecatol" are one kind, whether under `Type` or `type`. */
  lemma KindIgnoresCase(fields: map<string, JsValue>, key: string)
    requires key == "Type" || key == "type"
    ensures KindOf(Obj(map[key := Str("MECATOL")])) == "mecatol"
    ensures KindOf(Obj(map[key := Str("Mecatol")])) == KindOf(Obj(map["Type" := Str("mecatol")]))
  {
    var m := Obj(map[key := Str("MECATOL")]);
    assert TypeField(m) == Str("MECATOL");
    assert ToLower("MECATOL") == "mecatol";
    assert ToLower("Mecatol") == "mecatol";
    assert ToLower("mecatol") == "mecatol";
  }
}
