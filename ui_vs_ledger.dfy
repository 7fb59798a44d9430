/** Where the frontend and the backend decide the same question from the same ledger: who
    holds the Custodians point, when Support for the Throne is capped, who gets the Obsidian's
    fourth secret slot, and whether Imperial may be scored. Ledger rows reach the page as
    JSON objects under the Go field names; `Encode` is that encoding. */
module UiVsLedger {
  import opened Wrappers
  import opened Text
  import opened Models
  import opened ScoringHelpers
  import opened ScoreValidation
  import opened Store
  import GameRetrieval
  import opened JsValues
  import opened Selectors
  import GameData
  import Sidebar

  // ---------------------------------------------------------------- the JSON rows

  const ScoreJsonKeys: set<string> := {"RoundID", "PlayerID", "ObjectiveID", "Points", "Type", "AgendaTitle", "RelicTitle"}

  /** The JSON value of one field of a row. */
  function JsonField(x: Score, key: string): JsValue
  {
    if key == "RoundID" then Num(x.roundId)
    else if key == "PlayerID" then Num(x.playerId)
    else if key == "ObjectiveID" then Num(x.objectiveId)
    else if key == "Points" then Num(x.points)
    else if key == "Type" then Str(x.kind)
    else if key == "AgendaTitle" then Str(x.agendaTitle)
    else Str(x.relicTitle)
  }

  /** A ledger row as the page receives it. */
  function Encode(x: Score): (r: JsValue)
    ensures r.Obj? && r.fields.Keys == ScoreJsonKeys
  {
    Obj(map k | k in ScoreJsonKeys :: JsonField(x, k))
  }

  function EncodeAll(scores: seq<Score>): (r: seq<JsValue>)
    ensures |r| == |scores| && forall i :: 0 <= i < |scores| ==> r[i] == Encode(scores[i])
  {
    seq(|scores|, i requires 0 <= i < |scores| => Encode(scores[i]))
  }

  /** A game object holding `xs` as its `AllScores`. */
  function PageGame(xs: seq<JsValue>): (r: JsValue)
    ensures ScoresOf(r) == xs
  {
    Obj(map["AllScores" := Arr(xs)])
  }

  /** What the selectors read off a page row that carries ledger row `x`: its type as stored
      (an empty type reads as missing, `""` being falsy), its player id, its relic title and
      its points. */
  predicate ReadsAs(e: JsValue, x: Score)
  {
    !Nullish(e)
    && TypeField(e) == (if x.kind == "" then Undefined else Str(x.kind))
    && KindOf(e) == ToLower(x.kind)
    && Get(e, "PlayerID") == Num(x.playerId) && PlayerRef(e) == Num(x.playerId)
    && RelicTitleOf(e) == (if x.relicTitle == "" then Undefined else Str(x.relicTitle))
    && Sidebar.SupportPointsOf(e) == Num(x.points)
  }

  /** The page's score list carries the ledger's rows, in ledger order. */
  predicate ReadAsLedger(xs: seq<JsValue>, scores: seq<Score>)
  {
    |xs| == |scores| && forall i :: 0 <= i < |xs| ==> ReadsAs(xs[i], scores[i])
  }

  lemma EncodedReads(x: Score)
    ensures ReadsAs(Encode(x), x)
  {
    assert "Type" in ScoreJsonKeys && "type" !in ScoreJsonKeys;
    assert "PlayerID" in ScoreJsonKeys && "RelicTitle" in ScoreJsonKeys && "relic_title" !in ScoreJsonKeys;
    assert "Points" in ScoreJsonKeys;
  }

  /** The JSON rows the backend sends read as the ledger rows they encode. */
  lemma EncodedListReadsAsLedger(scores: seq<Score>)
    ensures ReadAsLedger(EncodeAll(scores), scores)
  {
    forall i | 0 <= i < |scores| ensures ReadsAs(EncodeAll(scores)[i], scores[i]) {
      EncodedReads(scores[i]);
    }
  }

  lemma ReadAsLedgerPrefix(xs: seq<JsValue>, scores: seq<Score>, n: nat)
    requires ReadAsLedger(xs, scores) && n <= |xs|
    ensures ReadAsLedger(xs[..n], scores[..n])
  {
  }

  /** A row the page reads as a ledger row is listable and its type readable. */
  lemma PageRowsTyped(xs: seq<JsValue>, scores: seq<Score>)
    requires ReadAsLedger(xs, scores)
    ensures ScoresTyped(PageGame(xs))
  {
  }

  /** The JSON form of an optional player id. */
  function IdValue(id: Option<nat>): JsValue
  {
    if id.Some? then Num(id.value) else Null
  }

  lemma LowerMecatol()
    ensures ToLower(TypeMecatol) == TypeMecatol
  {
    var t := TypeMecatol;
    assert t == ['m', 'e', 'c', 'a', 't', 'o', 'l'];
  }

  // ---------------------------------------------------------------- Custodians

  /** No row spells "mecatol" in another case: the backend writes the type in lower case. */
  predicate MecatolSpelledCanonically(scores: seq<Score>)
  {
    forall i :: 0 <= i < |scores| && ToLower(scores[i].kind) == TypeMecatol ==> scores[i].kind == TypeMecatol
  }

  /** A page row is a Custodians score exactly when the ledger row is typed "mecatol". */
  lemma PageMecatolRows(scores: seq<Score>, xs: seq<JsValue>)
    requires ReadAsLedger(xs, scores)
    requires MecatolSpelledCanonically(scores)
    ensures forall j :: 0 <= j < |xs| ==> (KindOf(xs[j]) == TypeMecatol <==> scores[j].kind == TypeMecatol)
  {
    LowerMecatol();
    forall j | 0 <= j < |xs| ensures KindOf(xs[j]) == TypeMecatol <==> scores[j].kind == TypeMecatol {
      assert ReadsAs(xs[j], scores[j]);
    }
  }

  /** The page takes the first "mecatol" row's player and the backend the last; under the
      ledger's at-most-one rule they name the same player, or both nobody. */
  lemma CustodiansAgree(scores: seq<Score>, xs: seq<JsValue>)
    requires ReadAsLedger(xs, scores)
    requires MecatolCount(scores) <= 1
    requires MecatolSpelledCanonically(scores)
    ensures ScoresTyped(PageGame(xs))
    ensures CustodiansScorerId(PageGame(xs)) == IdValue(GameRetrieval.LastMecatol(scores))
  {
    PageRowsTyped(xs, scores);
    PageMecatolRows(scores, xs);
    var last := GameRetrieval.LastMecatol(scores);
    if last.Some? {
      var k :| 0 <= k < |scores| && scores[k].kind == TypeMecatol && scores[k].playerId == last.value;
      GameRetrieval.SingleMecatolRow(scores);
      forall j | 0 <= j < k
        ensures KindOf(xs[j]) != TypeMecatol
      {
        assert scores[j].kind != TypeMecatol;
      }
      PageScorerAt(scores, xs, k);
    } else {
      assert forall j :: 0 <= j < |xs| ==> KindOf(xs[j]) != TypeMecatol;
    }
  }

  /** The page's scorer is the player of the first Custodians row it reads. */
  lemma PageScorerAt(scores: seq<Score>, xs: seq<JsValue>, k: nat)
    requires ReadAsLedger(xs, scores) && ScoresTyped(PageGame(xs))
    requires k < |xs| && KindOf(xs[k]) == TypeMecatol
    requires forall j :: 0 <= j < k ==> KindOf(xs[j]) != TypeMecatol
    ensures CustodiansScorerId(PageGame(xs)) == Num(scores[k].playerId)
  {
    CustodiansScorerIdFirst(PageGame(xs), k);
    assert ReadsAs(xs[k], scores[k]);
  }

  /** Without the rule the two disagree: with player 1's row before player 2's the page shows
      player 1 and the backend reports player 2. */
  lemma CustodiansDisagreeOnTwoRows()
    ensures var scores := [Score(1, 1, 0, 1, TypeMecatol, "", "", false), Score(1, 2, 0, 1, TypeMecatol, "", "", false)];
            CustodiansScorerId(PageGame(EncodeAll(scores))) == Num(1) && GameRetrieval.LastMecatol(scores) == Some(2)
  {
    var scores := [Score(1, 1, 0, 1, TypeMecatol, "", "", false), Score(1, 2, 0, 1, TypeMecatol, "", "", false)];
    var xs := EncodeAll(scores);
    LowerMecatol();
    EncodedListReadsAsLedger(scores);
    PageRowsTyped(xs, scores);
    CustodiansScorerIdFirst(PageGame(xs), 0);
  }

  // ---------------------------------------------------------------- Support for the Throne

  /** The net Support points of one player's rows. */
  function PlayerSupport(scores: seq<Score>, player: nat): int
  {
    if scores == [] then 0
    else
      var x := scores[|scores| - 1];
      PlayerSupport(scores[..|scores| - 1], player) + (if x.kind == TypeSupport && x.playerId == player then x.points else 0)
  }

  /** The page's per-player Support sum is the player's ledger sum. */
  lemma {:induction false} PageSupportIsLedgerSupport(scores: seq<Score>, xs: seq<JsValue>, player: nat)
    requires ReadAsLedger(xs, scores)
    ensures Sidebar.SupportSummable(Arr(xs), Num(player))
    ensures Sidebar.PlayerSupportPoints(Arr(xs), Num(player)) == PlayerSupport(scores, player)
  {
    if scores != [] {
      var n := |scores| - 1;
      ReadAsLedgerPrefix(xs, scores, n);
      PageSupportIsLedgerSupport(scores[..n], xs[..n], player);
      assert xs[..n] == Elements(Arr(xs))[..|xs| - 1];
    }
  }

  /** With no negative Support row, one player's Support is part of the game-wide total. */
  lemma {:induction false} PlayerSupportWithinTotal(scores: seq<Score>, player: nat)
    requires forall i :: 0 <= i < |scores| && scores[i].kind == TypeSupport ==> scores[i].points >= 0
    ensures 0 <= PlayerSupport(scores, player) <= SupportTotal(scores)
  {
    if scores != [] {
      PlayerSupportWithinTotal(scores[..|scores| - 1], player);
    }
  }

  /** When the page disables "+" for a player, the backend would refuse the point too: the
      player's own points already reach the game-wide cap. */
  lemma UiSupportRefusalIsBackendRefusal(scores: seq<Score>, xs: seq<JsValue>, playersSorted: JsValue, player: nat)
    requires ReadAsLedger(xs, scores)
    requires forall i :: 0 <= i < |scores| && scores[i].kind == TypeSupport ==> scores[i].points >= 0
    ensures Sidebar.SupportSummable(Arr(xs), Num(player))
    ensures Sidebar.SupportPlusDisabled(playersSorted, Arr(xs), Num(player))
            ==> SupportTotal(scores) >= Sidebar.PlayerCount(playersSorted) - 1
  {
    PageSupportIsLedgerSupport(scores, xs, player);
    PlayerSupportWithinTotal(scores, player);
  }

  /** The converse fails: in a three-player game where players 1 and 2 each hold one Support
      point, the backend refuses every further point, yet the page keeps "+" enabled for
      players 1 and 3. */
  lemma SupportCapsDisagree()
    ensures var scores := [Score(1, 1, 0, 1, TypeSupport, "", "", false), Score(1, 2, 0, 1, TypeSupport, "", "", false)];
            var seats := Arr([Obj(map[]), Obj(map[]), Obj(map[])]);
            SupportTotal(scores) >= 3 - 1
            && Sidebar.SupportSummable(Arr(EncodeAll(scores)), Num(1))
            && Sidebar.SupportSummable(Arr(EncodeAll(scores)), Num(3))
            && !Sidebar.SupportPlusDisabled(seats, Arr(EncodeAll(scores)), Num(1))
            && !Sidebar.SupportPlusDisabled(seats, Arr(EncodeAll(scores)), Num(3))
  {
    var scores := [Score(1, 1, 0, 1, TypeSupport, "", "", false), Score(1, 2, 0, 1, TypeSupport, "", "", false)];
    assert scores[..1] == [scores[0]] && [scores[0]][..0] == [];
    assert SupportTotal([]) == 0;
    assert SupportTotal([scores[0]]) == 1;
    assert SupportTotal(scores) == 2;
    assert PlayerSupport([], 1) == 0 && PlayerSupport([scores[0]], 1) == 1;
    assert PlayerSupport(scores, 1) == PlayerSupport([scores[0]], 1) + 0;
    assert PlayerSupport([scores[0]], 3) == 0 && PlayerSupport(scores, 3) == 0;
    EncodedListReadsAsLedger(scores);
    PageSupportIsLedgerSupport(scores, EncodeAll(scores), 1);
    PageSupportIsLedgerSupport(scores, EncodeAll(scores), 3);
    assert Sidebar.PlayerCount(Arr([Obj(map[]), Obj(map[]), Obj(map[])])) == 3;
  }

  // ---------------------------------------------------------------- the Obsidian's slot

  /** The backend's Obsidian test: a relic row titled "the obsidian", both without regard to
      case. */
  predicate BackendObsidianRow(x: Score)
  {
    ToLower(x.kind) == TypeRelic && ToLower(x.relicTitle) == "the obsidian"
  }

  lemma LowerObsidian()
    ensures ToLower(TheObsidian) == "the obsidian"
  {
    var t := TheObsidian;
    assert t == ['T', 'h', 'e', ' ', 'O', 'b', 's', 'i', 'd', 'i', 'a', 'n'];
  }

  /** Obsidian rows carry the title as the backend writes it, and a real player id. */
  predicate ObsidianRowsCanonical(scores: seq<Score>)
  {
    forall i :: 0 <= i < |scores| && BackendObsidianRow(scores[i]) ==> scores[i].relicTitle == TheObsidian && scores[i].playerId >= 1
  }

  /** A page row is an Obsidian score exactly when the ledger row is one to the backend. */
  lemma PageObsidianRows(scores: seq<Score>, xs: seq<JsValue>)
    requires ReadAsLedger(xs, scores)
    requires ObsidianRowsCanonical(scores)
    ensures forall i :: 0 <= i < |xs| ==> (GameData.RelicTitled(xs[i], TheObsidian) <==> BackendObsidianRow(scores[i]))
  {
    LowerObsidian();
    forall i | 0 <= i < |xs| ensures GameData.RelicTitled(xs[i], TheObsidian) <==> BackendObsidianRow(scores[i]) {
      assert ReadsAs(xs[i], scores[i]);
    }
  }

  /** With a single Obsidian row, at `k`, the backend allows a fourth secret to that row's
      player and to no one else. */
  lemma BackendCapOfSingleObsidian(scores: seq<Score>, k: nat, player: nat)
    requires k < |scores| && BackendObsidianRow(scores[k])
    requires forall i, j :: 0 <= i < j < |scores| ==> !(BackendObsidianRow(scores[i]) && BackendObsidianRow(scores[j]))
    ensures SecretCap(scores, player) == 4 <==> player == scores[k].playerId
  {
    if SecretCap(scores, player) == 4 {
      var i :| 0 <= i < |scores| && scores[i].playerId == player && BackendObsidianRow(scores[i]);
      assert i == k;
    }
  }

  /** Between numeric ids the page's slot count is four exactly for the holder. */
  lemma MaxSecretsOfIds(player: nat, holder: nat)
    ensures Sidebar.MaxSecrets(Num(player), Num(holder)) == if player == holder then 4 else 3
  {
  }

  /** The page gives the fourth slot to the first Obsidian row's player, the backend to every
      player with an Obsidian row; with a single such row they agree for every player. */
  lemma ObsidianSlotsAgree(scores: seq<Score>, xs: seq<JsValue>, player: nat)
    requires ReadAsLedger(xs, scores)
    requires ObsidianRowsCanonical(scores)
    requires forall i, j :: 0 <= i < j < |scores| ==> !(BackendObsidianRow(scores[i]) && BackendObsidianRow(scores[j]))
    ensures Sidebar.MaxSecrets(Num(player), GameData.ObsidianHolder(xs)) == SecretCap(scores, player)
  {
    PageObsidianRows(scores, xs);
    if k :| 0 <= k < |scores| && BackendObsidianRow(scores[k]) {
      assert forall j :: 0 <= j < k ==> !GameData.RelicTitled(xs[j], TheObsidian);
      GameData.ObsidianHolderMeaning(xs, k);
      assert Get(xs[k], "PlayerID") == Num(scores[k].playerId);
      var holder := scores[k].playerId;
      assert GameData.ObsidianHolder(xs) == Num(holder);
      BackendCapOfSingleObsidian(scores, k, player);
      MaxSecretsOfIds(player, holder);
    } else {
      GameData.ObsidianHolderMeaning(xs, 0);
      assert SecretCap(scores, player) == 3;
      Sidebar.NoHolderThreeSlots(Num(player));
    }
  }

  /** With two Obsidian rows, player 1's then player 2's, the backend allows both players a
      fourth secret, while the page shows player 2 only three slots. */
  lemma ObsidianSlotsDisagree()
    ensures var scores := [Score(1, 1, 0, 0, TypeRelic, "", TheObsidian, false), Score(2, 2, 0, 0, TypeRelic, "", TheObsidian, false)];
            SecretCap(scores, 2) == 4
            && Sidebar.MaxSecrets(Num(2), GameData.ObsidianHolder(EncodeAll(scores))) == 3
  {
    var scores := [Score(1, 1, 0, 0, TypeRelic, "", TheObsidian, false), Score(2, 2, 0, 0, TypeRelic, "", TheObsidian, false)];
    var xs := EncodeAll(scores);
    LowerObsidian();
    assert ToLower(TypeRelic) == TypeRelic by {
      var t := TypeRelic;
      assert t == ['r', 'e', 'l', 'i', 'c'];
    }
    assert BackendObsidianRow(scores[0]) && BackendObsidianRow(scores[1]);
    EncodedReads(scores[0]);
    assert ReadsAs(xs[0], scores[0]);
    assert GameData.RelicTitled(xs[0], TheObsidian);
    GameData.ObsidianHolderMeaning(xs, 0);
    assert GameData.ObsidianHolder(xs) == Num(1);
    MaxSecretsOfIds(2, 1);
  }

  // ---------------------------------------------------------------- Imperial

  /** The condition under which the backend's Imperial endpoint appends the point: a current
      round exists and the game is not finished. */
  predicate BackendAcceptsImperial(st: State)
  {
    CurrentRoundId(st).Ok? && !st.game.finished
  }

  /** The Custodians gate on Imperial exists only in the page: the backend's answer does not
      depend on the ledger at all, while the page, without the prop, hides Imperial until some
      row is a Custodians row. */
  lemma ImperialGateIsUiOnly(st: State, otherScores: seq<Score>, xs: seq<JsValue>, custodiansScored: JsValue)
    requires ReadAsLedger(xs, st.scores)
    requires !custodiansScored.Bool?
    ensures BackendAcceptsImperial(st.(scores := otherScores)) == BackendAcceptsImperial(st)
    ensures Sidebar.SidebarScores(Arr(xs))
    ensures Sidebar.ShowImperial(custodiansScored, Arr(xs))
            <==> exists i :: 0 <= i < |st.scores| && ToLower(st.scores[i].kind) == TypeMecatol
  {
    assert forall i :: 0 <= i < |xs| ==> KindListable(xs[i]) && KindOf(xs[i]) == ToLower(st.scores[i].kind);
  }
}
