/** What the game page loads (frontend/src/hooks/useGameData.js): the normalised score list,
    objectives and per-objective claims, and the flags and holders derived from the scores.
    The fetches are parameters: the model starts from the decoded JSON bodies. */
module GameData {
  import opened Wrappers
  import opened Text
  import opened Models
  import opened JsValues
  import opened Selectors
  import opened Normalise

  /** `gameData.all_scores || []` can be mapped: it is an array or falsy, and no score is null. */
  predicate LoadableScores(gameData: JsValue)
  {
    var raw := Get(gameData, "all_scores");
    ListOrFalsy(raw) && forall i :: 0 <= i < |Elements(raw)| ==> !Nullish(Elements(raw)[i])
  }

  /** `(gameData.all_scores || []).map(normalizeScore)`: only `all_scores` is read. */
  function NormalizedScores(gameData: JsValue): (r: seq<JsValue>)
    requires LoadableScores(gameData)
    ensures |r| == |Elements(Get(gameData, "all_scores"))|
    ensures forall i :: 0 <= i < |r| ==> r[i] == NormalizeScore(Elements(Get(gameData, "all_scores"))[i])
  {
    NormalizeAll(Elements(Get(gameData, "all_scores")))
  }

  /** The game object the page keeps after the first load: the payload with `AllScores`
      replaced by the normalised scores and `game_players` by `players || []`. */
  function LoadedGame(gameData: JsValue): (r: JsValue)
    requires LoadableScores(gameData)
    ensures r.Obj? && r.fields.Keys == Spread(gameData).Keys + {"AllScores", "game_players"}
    ensures forall k :: k in Spread(gameData) && k !in {"AllScores", "game_players"} ==> r.fields[k] == Spread(gameData)[k]
    ensures Get(r, "AllScores") == Arr(NormalizedScores(gameData))
    ensures Get(r, "game_players") == Or(Get(gameData, "players"), Arr([]))
  {
    Obj(Spread(gameData)["AllScores" := Arr(NormalizedScores(gameData))]["game_players" := Or(Get(gameData, "players"), Arr([]))])
  }

  /** The game object after `refreshGameState`: as after the first load, with `winner_id` set
      to `winner_id ?? WinnerID`. */
  function RefreshedGame(gameData: JsValue): (r: JsValue)
    requires LoadableScores(gameData)
    ensures r.Obj? && r.fields.Keys == Spread(gameData).Keys + {"AllScores", "game_players", "winner_id"}
    ensures forall k :: k in Spread(gameData) && k !in {"AllScores", "game_players", "winner_id"}
                        ==> r.fields[k] == Spread(gameData)[k]
    ensures Get(r, "AllScores") == Arr(NormalizedScores(gameData))
    ensures Get(r, "game_players") == Or(Get(gameData, "players"), Arr([]))
    ensures Get(r, "winner_id") == Coalesce(Get(gameData, "winner_id"), Get(gameData, "WinnerID"))
  {
    Obj(LoadedGame(gameData).fields["winner_id" := Coalesce(Get(gameData, "winner_id"), Get(gameData, "WinnerID"))])
  }

  /** Both game objects name the winner the payload names. */
  lemma LoadedGamesKeepWinner(gameData: JsValue)
    requires LoadableScores(gameData)
    ensures WinnerPlayerId(LoadedGame(gameData)) == WinnerPlayerId(gameData)
    ensures WinnerPlayerId(RefreshedGame(gameData)) == WinnerPlayerId(gameData)
  {
    var l := LoadedGame(gameData);
    assert "winner_id" !in {"AllScores", "game_players"} && "WinnerID" !in {"AllScores", "game_players"};
    assert Get(l, "winner_id") == Get(gameData, "winner_id");
    assert Get(l, "WinnerID") == Get(gameData, "WinnerID");
    var f := RefreshedGame(gameData);
    assert "WinnerID" !in {"AllScores", "game_players", "winner_id"};
    assert Get(f, "WinnerID") == Get(gameData, "WinnerID");
  }

  /** `objectivesData` as a list of normalised objectives when it is an array, else its
      `value` field, else an empty list. */
  function NormalizedObjectives(objectivesData: JsValue): (r: JsValue)
    requires objectivesData.Arr? ==> forall i :: 0 <= i < |objectivesData.items| ==> !Nullish(objectivesData.items[i])
    ensures objectivesData.Arr? ==>
              r.Arr? && |r.items| == |objectivesData.items|
              && forall i :: 0 <= i < |r.items| ==> r.items[i] == NormalizeObjective(objectivesData.items[i])
    ensures !objectivesData.Arr? ==> r == Or(Get(objectivesData, "value"), Arr([]))
  {
    if objectivesData.Arr? then Arr(NormalizeObjectives(objectivesData.items))
    else Or(Get(objectivesData, "value"), Arr([]))
  }

  /** `list.map(normalizeObjective)`. */
  function NormalizeObjectives(xs: seq<JsValue>): (r: seq<JsValue>)
    requires forall i :: 0 <= i < |xs| ==> !Nullish(xs[i])
    ensures |r| == |xs| && forall i :: 0 <= i < |xs| ==> r[i] == NormalizeObjective(xs[i])
  {
    if xs == [] then [] else [NormalizeObjective(xs[0])] + NormalizeObjectives(xs[1..])
  }

  // ---------------------------------------------------------------- objective claims

  /** `scoresData` as a list of claim entries: the array itself, else its `value`, else []. */
  function ClaimEntries(scoresData: JsValue): JsValue
  {
    if scoresData.Arr? then scoresData else Or(Get(scoresData, "value"), Arr([]))
  }

  /** The `forEach` over the claim entries does not throw: they form an array of set values. */
  predicate ReadableClaims(scoresData: JsValue)
  {
    var e := ClaimEntries(scoresData);
    e.Arr? && forall i :: 0 <= i < |e.items| ==> !Nullish(e.items[i])
  }

  /** The claim map after visiting `entries` in order: `scoreMap[entry.objective_id] =
      entry.scored_by || []`, a later entry for the same objective replacing an earlier one. */
  function ClaimMap(entries: seq<JsValue>): (r: map<string, JsValue>)
    ensures forall k :: k in r <==> exists i :: 0 <= i < |entries| && KeyText(Get(entries[i], "objective_id")) == k
  {
    if entries == [] then map[]
    else
      var e := entries[|entries| - 1];
      var prev := ClaimMap(entries[..|entries| - 1]);
      assert forall i :: 0 <= i < |entries| - 1 ==> entries[..|entries| - 1][i] == entries[i];
      prev[KeyText(Get(e, "objective_id")) := Or(Get(e, "scored_by"), Arr([]))]
  }

  /** The value kept for an objective is the one from its last entry. */
  lemma {:induction false} ClaimMapLastWins(entries: seq<JsValue>, i: nat)
    requires i < |entries|
    requires forall j :: i < j < |entries| ==>
               KeyText(Get(entries[j], "objective_id")) != KeyText(Get(entries[i], "objective_id"))
    ensures ClaimMap(entries)[KeyText(Get(entries[i], "objective_id"))] == Or(Get(entries[i], "scored_by"), Arr([]))
  {
    if i < |entries| - 1 {
      var init := entries[..|entries| - 1];
      assert forall j :: i < j < |init| ==> init[j] == entries[j];
      ClaimMapLastWins(init, i);
    }
  }

  /** The loop that builds `scoreMap`. */
  method BuildClaimMap(scoresData: JsValue) returns (scoreMap: map<string, JsValue>)
    requires ReadableClaims(scoresData)
    ensures scoreMap == ClaimMap(ClaimEntries(scoresData).items)
  {
    var entries := ClaimEntries(scoresData).items;
    scoreMap := map[];
    var i := 0;
    while i < |entries|
      invariant 0 <= i <= |entries|
      invariant scoreMap == ClaimMap(entries[..i])
    {
      var entry := entries[i];
      assert entries[..i + 1][..i] == entries[..i];
      scoreMap := scoreMap[KeyText(Get(entry, "objective_id")) := Or(Get(entry, "scored_by"), Arr([]))];
      i := i + 1;
    }
    assert entries[..i] == entries;
  }

  // ---------------------------------------------------------------- flags and holders

  /** `s.AgendaTitle === title` on a normalised score. */
  predicate AgendaTitled(s: JsValue, title: string)
  {
    StrictEq(Get(s, "AgendaTitle"), Str(title))
  }

  /** `isRelicScore(s, title)`, for a score whose type can be read. */
  predicate RelicTitled(s: JsValue, title: string)
  {
    KindReadable(s) && IsRelicScore(s, Str(title))
  }

  /** `isAgendaScore(s, title)`, for a score whose type can be read. */
  predicate AgendaScoreTitled(s: JsValue, title: string)
  {
    KindReadable(s) && IsAgendaScore(s, Str(title))
  }

  /** `normalizedScores.some(s => s.AgendaTitle === "Mutiny")`. */
  function MutinyUsed(scores: seq<JsValue>): (r: bool)
    ensures r <==> exists i :: 0 <= i < |scores| && AgendaTitled(scores[i], Mutiny)
  {
    var p := s => AgendaTitled(s, Mutiny);
    assert forall i :: 0 <= i < |scores| ==> p(scores[i]) == AgendaTitled(scores[i], Mutiny);
    Any(scores, p)
  }

  /** `normalizedScores.some(s => s.AgendaTitle === "Classified Document Leaks")`. */
  function CdlUsed(scores: seq<JsValue>): (r: bool)
    ensures r <==> exists i :: 0 <= i < |scores| && AgendaTitled(scores[i], ClassifiedDocumentLeaks)
  {
    var p := s => AgendaTitled(s, ClassifiedDocumentLeaks);
    assert forall i :: 0 <= i < |scores| ==> p(scores[i]) == AgendaTitled(scores[i], ClassifiedDocumentLeaks);
    Any(scores, p)
  }

  /** `normalizedScores.some(s => isRelicScore(s, "The Crown of Emphidia"))`. */
  function CrownUsed(scores: seq<JsValue>): (r: bool)
    ensures r <==> exists i :: 0 <= i < |scores| && RelicTitled(scores[i], CrownOfEmphidia)
  {
    var p := s => RelicTitled(s, CrownOfEmphidia);
    assert forall i :: 0 <= i < |scores| ==> p(scores[i]) == RelicTitled(scores[i], CrownOfEmphidia);
    Any(scores, p)
  }

  /** `find(…)?.PlayerID || null`: the player of the first score passing the test, or null
      when there is none or its player id is falsy. */
  function FirstPlayer(scores: seq<JsValue>, test: JsValue -> bool): (r: JsValue)
    ensures (forall i :: 0 <= i < |scores| ==> !test(scores[i])) ==> r == Null
    ensures forall i :: 0 <= i < |scores| && test(scores[i]) && (forall j :: 0 <= j < i ==> !test(scores[j]))
                        ==> r == Or(Get(scores[i], "PlayerID"), Null)
  {
    var k := FindIndex(scores, test);
    assert forall i :: 0 <= i < |scores| && test(scores[i]) && (forall j :: 0 <= j < i ==> !test(scores[j]))
                       ==> k == Some(i) by {
      forall i | 0 <= i < |scores| && test(scores[i]) && (forall j :: 0 <= j < i ==> !test(scores[j]))
        ensures k == Some(i)
      {
        assert k.Some?;
        assert !(k.value < i);
      }
    }
    Or(Get(Find(scores, test), "PlayerID"), Null)
  }

  /** The holder of The Obsidian: the player of the first relic score titled so. */
  function ObsidianHolder(scores: seq<JsValue>): (r: JsValue)
  {
    FirstPlayer(scores, s => RelicTitled(s, TheObsidian))
  }

  /** The holder of Political Censure: the player of the first agenda score titled so. */
  function CensureHolder(scores: seq<JsValue>): (r: JsValue)
  {
    FirstPlayer(scores, s => AgendaScoreTitled(s, PoliticalCensure))
  }

  /** The Obsidian's holder is null without an Obsidian score and otherwise the player of the
      first one. */
  lemma ObsidianHolderMeaning(scores: seq<JsValue>, i: nat)
    ensures (forall j :: 0 <= j < |scores| ==> !RelicTitled(scores[j], TheObsidian)) ==> ObsidianHolder(scores) == Null
    ensures i < |scores| && RelicTitled(scores[i], TheObsidian)
            && (forall j :: 0 <= j < i ==> !RelicTitled(scores[j], TheObsidian))
            ==> ObsidianHolder(scores) == Or(Get(scores[i], "PlayerID"), Null)
  {
    var p := s => RelicTitled(s, TheObsidian);
    assert forall j :: 0 <= j < |scores| ==> p(scores[j]) == RelicTitled(scores[j], TheObsidian);
  }

  /** Political Censure's holder, likewise. */
  lemma CensureHolderMeaning(scores: seq<JsValue>, i: nat)
    ensures (forall j :: 0 <= j < |scores| ==> !AgendaScoreTitled(scores[j], PoliticalCensure)) ==> CensureHolder(scores) == Null
    ensures i < |scores| && AgendaScoreTitled(scores[i], PoliticalCensure)
            && (forall j :: 0 <= j < i ==> !AgendaScoreTitled(scores[j], PoliticalCensure))
            ==> CensureHolder(scores) == Or(Get(scores[i], "PlayerID"), Null)
  {
    var p := s => AgendaScoreTitled(s, PoliticalCensure);
    assert forall j :: 0 <= j < |scores| ==> p(scores[j]) == AgendaScoreTitled(scores[j], PoliticalCensure);
  }

  // ---------------------------------------------------------------- secret counts

  /** The key a player's secret count is stored under: `p.PlayerID || p.id`. */
  function PlayerKey(p: JsValue): string
  {
    KeyText(Or(Get(p, "PlayerID"), Get(p, "id")))
  }

  /** `(gameData.players || []).forEach(…)` does not throw: an array of set values, or falsy. */
  predicate ReadablePlayers(players: JsValue)
  {
    ListOrFalsy(players) && forall i :: 0 <= i < |Elements(players)| ==> !Nullish(Elements(players)[i])
  }

  /** The initial secret counts: a zero under every player's key, and nothing else. */
  method InitialSecretCounts(players: JsValue) returns (counts: map<string, int>)
    requires ReadablePlayers(players)
    ensures forall k :: k in counts <==> exists i :: 0 <= i < |Elements(players)| && PlayerKey(Elements(players)[i]) == k
    ensures forall k :: k in counts ==> counts[k] == 0
  {
    var ps := Elements(players);
    counts := map[];
    var i := 0;
    while i < |ps|
      invariant 0 <= i <= |ps|
      invariant forall k :: k in counts <==> exists j :: 0 <= j < i && PlayerKey(ps[j]) == k
      invariant forall k :: k in counts ==> counts[k] == 0
    {
      counts := counts[PlayerKey(ps[i]) := 0];
      i := i + 1;
    }
  }
}
