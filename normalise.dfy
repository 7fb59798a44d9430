/** The frontend's normalisers (frontend/src/utils/normalise.js and the score and objective
    normalisers of frontend/src/hooks/useGameData.js): they copy a record and add the
    canonical spelling of each key the backend may send in either spelling. */
module Normalise {
  import opened Text
  import opened JsValues
  import opened Selectors

  /** The own keys `{...v}` copies: an object's fields; nothing from `null`, `undefined`,
      numbers or booleans. Strings and arrays would contribute their indices; the page only
      spreads objects or missing values, and those other values are read here as contributing
      nothing. */
  function Spread(v: JsValue): (r: map<string, JsValue>)
    ensures v.Obj? ==> r == v.fields
    ensures !v.Obj? ==> r == map[]
  {
    if v.Obj? then v.fields else map[]
  }

  /** The keys a normalised score always has. */
  const ScoreKeys: set<string> :=
    {"PlayerID", "ObjectiveID", "RoundID", "Type", "Points", "AgendaTitle", "RelicTitle"}

  /** The second spelling the backend may use for a canonical score key. */
  function SnakeKey(k: string): string
  {
    if k == "PlayerID" then "player_id"
    else if k == "ObjectiveID" then "objective_id"
    else if k == "RoundID" then "round_id"
    else if k == "Type" then "type"
    else if k == "Points" then "points"
    else if k == "AgendaTitle" then "agenda_title"
    else "relic_title"
  }

  /** `normalizeScore(s)`: a copy of `s` with each canonical key set to `s.Key ?? s.key`. */
  function NormalizeScore(s: JsValue): (r: JsValue)
    requires !Nullish(s)
    ensures r.Obj? && r.fields.Keys == Spread(s).Keys + ScoreKeys
    ensures forall k :: k in Spread(s) && k !in ScoreKeys ==> r.fields[k] == Spread(s)[k]
    ensures forall k :: k in ScoreKeys ==> r.fields[k] == Coalesce(Get(s, k), Get(s, SnakeKey(k)))
  {
    Obj(map k | k in Spread(s).Keys + ScoreKeys ::
          if k in ScoreKeys then Coalesce(Get(s, k), Get(s, SnakeKey(k))) else Spread(s)[k])
  }

  /** The snake-case spellings are never canonical keys: they start in lower case. */
  lemma SnakeKeyNotCanonical(k: string)
    ensures SnakeKey(k) !in ScoreKeys
  {
    assert !IsAsciiUpper(SnakeKey(k)[0]);
    assert forall c :: c in ScoreKeys ==> IsAsciiUpper(c[0]);
  }

  /** A normalised score holds the either-spelling read under the canonical key, and still
      holds the snake-case value under its own key. */
  lemma NormalizedField(s: JsValue, k: string)
    requires !Nullish(s) && k in ScoreKeys
    ensures Get(NormalizeScore(s), k) == Coalesce(Get(s, k), Get(s, SnakeKey(k)))
    ensures Get(NormalizeScore(s), SnakeKey(k)) == Get(s, SnakeKey(k))
  {
    SnakeKeyNotCanonical(k);
  }

  /** `(a ?? b) || b` is `a || b`. */
  lemma OrAfterCoalesce(a: JsValue, b: JsValue)
    ensures Or(Coalesce(a, b), b) == Or(a, b)
  {
  }

  /** After normalising, the selectors read every field as they read it before: the
      canonical key now holds what the either-spelling read found. */
  lemma NormalizeScoreKeepsReads(s: JsValue)
    requires !Nullish(s)
    ensures PlayerRef(NormalizeScore(s)) == PlayerRef(s)
    ensures ObjectiveRef(NormalizeScore(s)) == ObjectiveRef(s)
    ensures TypeField(NormalizeScore(s)) == TypeField(s)
    ensures KindOf(NormalizeScore(s)) == KindOf(s)
    ensures AgendaTitleOf(NormalizeScore(s)) == AgendaTitleOf(s)
    ensures RelicTitleOf(NormalizeScore(s)) == RelicTitleOf(s)
    ensures PointsOf(NormalizeScore(s)) == PointsOf(s)
  {
    var n := NormalizeScore(s);
    assert PlayerRef(n) == PlayerRef(s) by {
      NormalizedField(s, "PlayerID");
      CoalesceAbsorbs(Get(s, "PlayerID"), Get(s, "player_id"));
    }
    assert ObjectiveRef(n) == ObjectiveRef(s) by {
      NormalizedField(s, "ObjectiveID");
      CoalesceAbsorbs(Get(s, "ObjectiveID"), Get(s, "objective_id"));
    }
    assert TypeField(n) == TypeField(s) by {
      NormalizedField(s, "Type");
      OrAfterCoalesce(Get(s, "Type"), Get(s, "type"));
    }
    assert AgendaTitleOf(n) == AgendaTitleOf(s) by {
      NormalizedField(s, "AgendaTitle");
      OrAfterCoalesce(Get(s, "AgendaTitle"), Get(s, "agenda_title"));
    }
    assert RelicTitleOf(n) == RelicTitleOf(s) by {
      NormalizedField(s, "RelicTitle");
      OrAfterCoalesce(Get(s, "RelicTitle"), Get(s, "relic_title"));
    }
    assert PointsOf(n) == PointsOf(s) by {
      NormalizedField(s, "Points");
      CoalesceAbsorbs(Get(s, "Points"), Get(s, "points"));
    }
  }

  /** Normalising a normalised score changes nothing. */
  lemma NormalizeScoreIdempotent(s: JsValue)
    requires !Nullish(s)
    ensures NormalizeScore(NormalizeScore(s)) == NormalizeScore(s)
  {
    var n := NormalizeScore(s);
    var m := NormalizeScore(n);
    forall k | k in n.fields ensures m.fields[k] == n.fields[k] {
      if k in ScoreKeys {
        NormalizedField(s, k);
        CoalesceAbsorbs(Get(s, k), Get(s, SnakeKey(k)));
      }
    }
    assert m.fields == n.fields;
  }

  /** `list.map(normalizeScore)`. */
  function NormalizeAll(xs: seq<JsValue>): (r: seq<JsValue>)
    requires forall i :: 0 <= i < |xs| ==> !Nullish(xs[i])
    ensures |r| == |xs|
    ensures forall i :: 0 <= i < |xs| ==> r[i] == NormalizeScore(xs[i])
  {
    if xs == [] then [] else [NormalizeScore(xs[0])] + NormalizeAll(xs[1..])
  }

  /** `g.all_scores || g.AllScores || []`: the list `normalizeGame` maps. */
  function RawScores(raw: JsValue): JsValue
  {
    Or(Or(Get(raw, "all_scores"), Get(raw, "AllScores")), Arr([]))
  }

  /** `normalizeGame` does not throw: the score list is an array (or missing) and holds no
      null element. */
  predicate NormalizableGame(raw: JsValue)
  {
    RawScores(raw).Arr? && forall i :: 0 <= i < |RawScores(raw).items| ==> !Nullish(RawScores(raw).items[i])
  }

  /** The keys `normalizeGame` sets. */
  const GameKeys: set<string> := {"AllScores", "game_players", "winner_id"}

  /** `normalizeGame(raw)`: a copy of the game whose `AllScores` holds the normalised scores
      (read from `all_scores` first), whose `game_players` is `players || game_players || []`
      and whose `winner_id` is `winner_id ?? WinnerID ?? null`. */
  function NormalizeGame(raw: JsValue): (r: JsValue)
    requires NormalizableGame(raw)
    ensures r.Obj? && r.fields.Keys == Spread(raw).Keys + GameKeys
    ensures forall k :: k in Spread(raw) && k !in GameKeys ==> r.fields[k] == Spread(raw)[k]
    ensures Get(r, "AllScores") == Arr(NormalizeAll(RawScores(raw).items))
    ensures Get(r, "game_players") == Or(Or(Get(raw, "players"), Get(raw, "game_players")), Arr([]))
    ensures Get(r, "winner_id") == WinnerPlayerId(raw)
  {
    Obj(map k | k in Spread(raw).Keys + GameKeys ::
          if k == "AllScores" then Arr(NormalizeAll(RawScores(raw).items))
          else if k == "game_players" then Or(Or(Get(raw, "players"), Get(raw, "game_players")), Arr([]))
          else if k == "winner_id" then Coalesce(Coalesce(Get(raw, "winner_id"), Get(raw, "WinnerID")), Null)
          else Spread(raw)[k])
  }

  /** The keys `normalizeGame` reads but does not set keep their values. */
  lemma NormalizeGameKeeps(raw: JsValue)
    requires NormalizableGame(raw)
    ensures Get(NormalizeGame(raw), "all_scores") == Get(raw, "all_scores")
    ensures Get(NormalizeGame(raw), "players") == Get(raw, "players")
    ensures Get(NormalizeGame(raw), "WinnerID") == Get(raw, "WinnerID")
  {
    assert "all_scores" !in GameKeys && "players" !in GameKeys && "WinnerID" !in GameKeys;
  }

  /** The normalised game's score list is the normalised raw list, and a game list is always
      there to read. */
  lemma NormalizeGameScores(raw: JsValue)
    requires NormalizableGame(raw)
    ensures ScoresOf(NormalizeGame(raw)) == NormalizeAll(RawScores(raw).items)
    ensures Truthy(Get(NormalizeGame(raw), "game_players"))
  {
  }

  /** Normalising a normalised list changes nothing. */
  lemma {:induction false} NormalizeAllIdempotent(xs: seq<JsValue>)
    requires forall i :: 0 <= i < |xs| ==> !Nullish(xs[i])
    ensures NormalizeAll(NormalizeAll(xs)) == NormalizeAll(xs)
  {
    if xs != [] {
      var ys := NormalizeAll(xs);
      NormalizeAllIdempotent(xs[1..]);
      assert ys[1..] == NormalizeAll(xs[1..]);
      NormalizeScoreIdempotent(xs[0]);
    }
  }

  /** A second pass reads back a list that normalises to the same scores. */
  lemma RenormalizedScores(raw: JsValue)
    requires NormalizableGame(raw)
    ensures NormalizableGame(NormalizeGame(raw))
    ensures NormalizeAll(RawScores(NormalizeGame(raw)).items) == NormalizeAll(RawScores(raw).items)
  {
    var n := NormalizeGame(raw);
    var xs := RawScores(raw).items;
    NormalizeGameKeeps(raw);
    if !Truthy(Get(raw, "all_scores")) {
      assert RawScores(n) == Arr(NormalizeAll(xs));
      NormalizeAllIdempotent(xs);
    } else {
      assert RawScores(n) == RawScores(raw);
    }
  }

  /** A second pass finds `game_players` and `winner_id` already settled. */
  lemma RenormalizedPlayersAndWinner(raw: JsValue)
    requires NormalizableGame(raw)
    ensures var n := NormalizeGame(raw);
            Or(Or(Get(n, "players"), Get(n, "game_players")), Arr([])) == Get(n, "game_players")
            && WinnerPlayerId(n) == Get(n, "winner_id")
  {
    NormalizeGameKeeps(raw);
  }

  /** A normalised game normalises again without error and to itself: `all_scores` is still
      there to be read first, and every other rewritten key is already settled. */
  lemma NormalizeGameIdempotent(raw: JsValue)
    requires NormalizableGame(raw)
    ensures NormalizableGame(NormalizeGame(raw))
    ensures NormalizeGame(NormalizeGame(raw)) == NormalizeGame(raw)
  {
    var n := NormalizeGame(raw);
    RenormalizedScores(raw);
    RenormalizedPlayersAndWinner(raw);
    var m := NormalizeGame(n);
    assert m.fields.Keys == n.fields.Keys;
    forall k | k in n.fields ensures m.fields[k] == n.fields[k] {
      if k == "AllScores" {
        assert m.fields[k] == Get(m, "AllScores");
      } else if k == "game_players" {
        assert m.fields[k] == Get(m, "game_players");
      } else if k == "winner_id" {
        assert m.fields[k] == Get(m, "winner_id");
      }
    }
    assert m.fields == n.fields;
  }

  /** A game whose scores come under `AllScores` alone keeps, score by score, every read the
      selectors make once normalised. */
  lemma NormalizeGameKeepsScoreReads(raw: JsValue)
    requires NormalizableGame(raw)
    requires !Truthy(Get(raw, "all_scores"))
    ensures SameReads(ScoresOf(raw), ScoresOf(NormalizeGame(raw)))
    ensures ListOrFalsy(Get(NormalizeGame(raw), "AllScores"))
  {
    var xs := ScoresOf(raw);
    assert RawScores(raw).items == xs;
    NormalizeGameScores(raw);
    forall i | 0 <= i < |xs| ensures NormalizeAll(xs)[i] == NormalizeScore(xs[i]) {
    }
    forall i | 0 <= i < |xs|
      ensures var y := NormalizeScore(xs[i]);
              KindOf(y) == KindOf(xs[i]) && PlayerRef(y) == PlayerRef(xs[i])
              && ObjectiveRef(y) == ObjectiveRef(xs[i]) && TypeField(y) == TypeField(xs[i]) && !Nullish(y)
    {
      NormalizeScoreKeepsReads(xs[i]);
    }
  }

  /** ... and so names the same Custodians scorer. */
  lemma NormalizeGameKeepsCustodians(raw: JsValue)
    requires NormalizableGame(raw) && ScoresTyped(raw)
    requires !Truthy(Get(raw, "all_scores"))
    ensures ScoresTyped(NormalizeGame(raw))
    ensures CustodiansScorerId(NormalizeGame(raw)) == CustodiansScorerId(raw)
  {
    NormalizeGameKeepsScoreReads(raw);
    CustodiansByReads(raw, NormalizeGame(raw));
  }

  /** ... and finds the same objective claims. */
  lemma NormalizeGameKeepsClaims(raw: JsValue, playerId: JsValue, objectiveId: JsValue)
    requires NormalizableGame(raw) && ScoresListed(raw)
    requires !Truthy(Get(raw, "all_scores"))
    ensures ScoresListed(NormalizeGame(raw))
    ensures HasScoredObjective(NormalizeGame(raw), playerId, objectiveId) == HasScoredObjective(raw, playerId, objectiveId)
  {
    NormalizeGameKeepsScoreReads(raw);
    ClaimsByReads(raw, NormalizeGame(raw), playerId, objectiveId);
  }

  /** The winner reads the same before and after normalising. */
  lemma NormalizeGameKeepsWinner(raw: JsValue)
    requires NormalizableGame(raw)
    ensures WinnerPlayerId(NormalizeGame(raw)) == WinnerPlayerId(raw)
  {
    var r := NormalizeGame(raw);
    var w := WinnerPlayerId(raw);
    if Nullish(w) {
      assert "WinnerID" !in GameKeys;
      assert Get(r, "WinnerID") == Get(raw, "WinnerID");
    }
  }

  /** The keys a normalised objective always has. */
  const ObjectiveKeys: set<string> := {"id", "name", "phase"}

  /** `obj.phase ?? obj.Phase ?? ""`, lower-cased when it is a string, else "". */
  function PhaseOf(obj: JsValue): (r: string)
    ensures forall i :: 0 <= i < |r| ==> !IsAsciiUpper(r[i])
  {
    var raw := Coalesce(Coalesce(Get(obj, "phase"), Get(obj, "Phase")), Str(""));
    if raw.Str? then ToLower(raw.s) else ""
  }

  /** `normalizeObjective(obj)`: `id`, `name` and a lower-cased `phase` filled in from either
      spelling, then every own key of `obj` copied over them. */
  function NormalizeObjective(obj: JsValue): (r: JsValue)
    requires !Nullish(obj)
    ensures r.Obj? && r.fields.Keys == ObjectiveKeys + Spread(obj).Keys
    ensures forall k :: k in Spread(obj) ==> r.fields[k] == Spread(obj)[k]
    ensures "id" !in Spread(obj) ==> Get(r, "id") == (if Nullish(Get(obj, "ID")) then Undefined else Get(obj, "ID"))
    ensures "name" !in Spread(obj) ==> Get(r, "name") == Get(obj, "Name")
    ensures "phase" !in Spread(obj) ==> Get(r, "phase") == Str(PhaseOf(obj))
  {
    var filled := map[
      "id" := Coalesce(Get(obj, "ID"), Get(obj, "id")),
      "name" := Coalesce(Get(obj, "name"), Get(obj, "Name")),
      "phase" := Str(PhaseOf(obj))];
    Obj(filled + Spread(obj))
  }

  /** An objective sent with a lower-case `phase` key keeps that value as sent, capitals
      included: the copy of the object's own keys comes last. Only a phase sent as `Phase`
      alone is lower-cased. */
  lemma ObjectivePhaseAsSent(title: string)
    ensures Get(NormalizeObjective(Obj(map["phase" := Str("Stage I")])), "phase") == Str("Stage I")
    ensures Get(NormalizeObjective(Obj(map["Phase" := Str("Stage I")])), "phase") == Str("stage i")
  {
    var o := Obj(map["Phase" := Str("Stage I")]);
    assert Coalesce(Coalesce(Get(o, "phase"), Get(o, "Phase")), Str("")) == Str("Stage I");
    assert ToLower("Stage I") == "stage i";
  }

  /** Every normalised phase is free of capitals, whichever key it came from, when the object
      has no `phase` key of its own. */
  lemma ObjectivePhaseLowered(obj: JsValue)
    requires !Nullish(obj) && "phase" !in Spread(obj)
    ensures var p := Get(NormalizeObjective(obj), "phase");
            p.Str? && forall i :: 0 <= i < |p.s| ==> !IsAsciiUpper(p.s[i])
  {
  }
}
