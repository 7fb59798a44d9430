/** The rules the player sidebar (frontend/src/components/players/PlayerSidebar.js) applies
    before it lets a player act: which buttons are enabled, which secrets still count as
    secret, how many secret slots a player has. `allScores` is the page's list of normalised
    scores; rendering and the requests the buttons send are not modelled. */
module Sidebar {
  import opened Wrappers
  import opened Text
  import opened Models
  import opened JsValues
  import opened Selectors
  import opened GameData

  /** Every test the sidebar runs over `allScores` goes through: the list is an array or
      missing, each score is set and its type is a string or falsy. */
  predicate SidebarScores(allScores: JsValue)
  {
    ListOrNullish(allScores)
    && forall i :: 0 <= i < |Elements(allScores)| ==> KindListable(Elements(allScores)[i])
  }

  // ---------------------------------------------------------------- Custodians and Imperial

  predicate IsMecatol(s: JsValue)
  {
    KindOf(s) == TypeMecatol
  }

  /** `allScores?.some(s => scoreType(s) === "mecatol")`: some score of any player is a
      Custodians score. It both derives `custodiansScoredLocal` and disables the Custodians
      button. */
  function MecatolScored(allScores: JsValue): (r: bool)
    requires SidebarScores(allScores)
    ensures r <==> exists i :: 0 <= i < |Elements(allScores)| && KindOf(Elements(allScores)[i]) == TypeMecatol
  {
    var xs := Elements(allScores);
    var p := s => IsMecatol(s);
    assert forall i :: 0 <= i < |xs| ==> p(xs[i]) == IsMecatol(xs[i]);
    Any(xs, p)
  }

  /** `showImperial`: the `custodiansScored` prop when it is a boolean, and otherwise whether
      a Custodians score exists. */
  function ShowImperial(custodiansScored: JsValue, allScores: JsValue): (r: bool)
    requires SidebarScores(allScores)
    ensures custodiansScored.Bool? ==> r == custodiansScored.b
    ensures !custodiansScored.Bool? ==>
              (r <==> exists i :: 0 <= i < |Elements(allScores)| && KindOf(Elements(allScores)[i]) == TypeMecatol)
  {
    if custodiansScored.Bool? then custodiansScored.b else MecatolScored(allScores)
  }

  /** Without the prop, the Imperial section appears exactly when the Custodians button is
      disabled: one shows once the other is spent. */
  lemma ImperialFollowsCustodians(custodiansScored: JsValue, allScores: JsValue)
    requires SidebarScores(allScores)
    requires !custodiansScored.Bool?
    ensures ShowImperial(custodiansScored, allScores) <==> MecatolScored(allScores)
  {
  }

  // ---------------------------------------------------------------- Classified Document Leaks

  predicate RevealsObjective(s: JsValue, objectiveId: JsValue)
  {
    AgendaTitled(s, ClassifiedDocumentLeaks) && StrictEq(Get(s, "ObjectiveID"), objectiveId)
  }

  /** `cdlRevealedObjectiveIds.has(objectiveId)`: some score of any player titled "Classified
      Document Leaks" carries this objective id. */
  function CdlRevealed(allScores: JsValue, objectiveId: JsValue): (r: bool)
    ensures r <==> exists i :: 0 <= i < |Elements(allScores)| && AgendaTitled(Elements(allScores)[i], ClassifiedDocumentLeaks)
                               && StrictEq(Get(Elements(allScores)[i], "ObjectiveID"), objectiveId)
  {
    var xs := Elements(allScores);
    var p := s => RevealsObjective(s, objectiveId);
    assert forall i :: 0 <= i < |xs| ==> p(xs[i]) == RevealsObjective(xs[i], objectiveId);
    Any(xs, p)
  }

  /** `isStillSecret(score)`: a secret-typed score whose objective no leak has revealed. */
  predicate IsStillSecret(allScores: JsValue, score: JsValue)
  {
    KindOf(score) == TypeSecret && !CdlRevealed(allScores, Get(score, "ObjectiveID"))
  }

  /** A leak recorded by any player makes every secret score on that objective public. */
  lemma LeakRevealsForEveryone(allScores: JsValue, score: JsValue, i: nat)
    requires i < |Elements(allScores)|
    requires AgendaTitled(Elements(allScores)[i], ClassifiedDocumentLeaks)
    requires StrictEq(Get(Elements(allScores)[i], "ObjectiveID"), Get(score, "ObjectiveID"))
    ensures !IsStillSecret(allScores, score)
  {
  }

  // ---------------------------------------------------------------- Support for the Throne

  /** `(s?.Type || s?.type) === "Support" && s.PlayerID === playerId`: the type is matched
      exactly, not lower-cased. */
  predicate IsSupportOf(s: JsValue, playerId: JsValue)
  {
    StrictEq(TypeField(s), Str(TypeSupport)) && StrictEq(Get(s, "PlayerID"), playerId)
  }

  /** The "−" Support button is disabled when the player has no Support score at all. */
  function SupportMinusDisabled(allScores: JsValue, playerId: JsValue): (r: bool)
    requires ListOrNullish(allScores)
    ensures r <==> forall i :: 0 <= i < |Elements(allScores)| ==> !IsSupportOf(Elements(allScores)[i], playerId)
  {
    var xs := Elements(allScores);
    var p := s => IsSupportOf(s, playerId);
    assert forall i :: 0 <= i < |xs| ==> p(xs[i]) == IsSupportOf(xs[i], playerId);
    !Any(xs, p)
  }

  /** `s.Points || 0`. */
  function SupportPointsOf(s: JsValue): JsValue
  {
    Or(Get(s, "Points"), Num(0))
  }

  /** The sum of `Points || 0` over the player's Support scores (the `filter` then `reduce`). */
  function SupportSum(xs: seq<JsValue>, playerId: JsValue): (r: int)
    requires forall i :: 0 <= i < |xs| && IsSupportOf(xs[i], playerId) ==> SupportPointsOf(xs[i]).Num?
  {
    if xs == [] then 0
    else
      var x := xs[|xs| - 1];
      var rest := SupportSum(xs[..|xs| - 1], playerId);
      if IsSupportOf(x, playerId) then rest + SupportPointsOf(x).n else rest
  }

  /** The Support points that count against a player: the sum over that player's Support
      scores. The points read are numbers (a string would make `+` concatenate). */
  predicate SupportSummable(allScores: JsValue, playerId: JsValue)
  {
    ListOrNullish(allScores)
    && forall i :: 0 <= i < |Elements(allScores)| && IsSupportOf(Elements(allScores)[i], playerId)
                   ==> SupportPointsOf(Elements(allScores)[i]).Num?
  }

  function PlayerSupportPoints(allScores: JsValue, playerId: JsValue): (r: int)
    requires SupportSummable(allScores, playerId)
  {
    SupportSum(Elements(allScores), playerId)
  }

  /** A player with no Support score has no Support points, and with only non-negative
      points never goes below zero. */
  lemma {:induction false} SupportSumBounds(xs: seq<JsValue>, playerId: JsValue)
    requires forall i :: 0 <= i < |xs| && IsSupportOf(xs[i], playerId) ==> SupportPointsOf(xs[i]).Num?
    ensures (forall i :: 0 <= i < |xs| ==> !IsSupportOf(xs[i], playerId)) ==> SupportSum(xs, playerId) == 0
    ensures (forall i :: 0 <= i < |xs| && IsSupportOf(xs[i], playerId) ==> SupportPointsOf(xs[i]).n >= 0)
            ==> SupportSum(xs, playerId) >= 0
  {
    if xs != [] {
      SupportSumBounds(xs[..|xs| - 1], playerId);
    }
  }

  /** When "−" is disabled the player's Support total is zero. */
  lemma MinusDisabledMeansNoSupport(allScores: JsValue, playerId: JsValue)
    requires SupportSummable(allScores, playerId)
    requires SupportMinusDisabled(allScores, playerId)
    ensures PlayerSupportPoints(allScores, playerId) == 0
  {
    SupportSumBounds(Elements(allScores), playerId);
  }

  /** The converse fails: a +1 and a −1 record net to zero but keep "−" enabled. */
  lemma MinusEnabledAtZeroNet()
    ensures var plus := Obj(map["Type" := Str(TypeSupport), "PlayerID" := Num(7), "Points" := Num(1)]);
            var minus := Obj(map["Type" := Str(TypeSupport), "PlayerID" := Num(7), "Points" := Num(-1)]);
            var scores := Arr([plus, minus]);
            PlayerSupportPoints(scores, Num(7)) == 0 && !SupportMinusDisabled(scores, Num(7))
  {
    var plus := Obj(map["Type" := Str(TypeSupport), "PlayerID" := Num(7), "Points" := Num(1)]);
    var minus := Obj(map["Type" := Str(TypeSupport), "PlayerID" := Num(7), "Points" := Num(-1)]);
    assert IsSupportOf(plus, Num(7)) && IsSupportOf(minus, Num(7));
    assert [plus, minus][..1] == [plus];
    assert SupportSum([plus], Num(7)) == 1 by {
      assert [plus][..0] == [];
    }
  }

  /** `playersSorted?.length || 0`. */
  function PlayerCount(playersSorted: JsValue): (n: nat)
    ensures playersSorted.Arr? ==> n == |playersSorted.items|
    ensures !playersSorted.Arr? ==> n == 0
  {
    |Elements(playersSorted)|
  }

  /** The "+" Support button is disabled once this player's own Support points reach
      `max(0, n − 1)` for `n` players: a cap per player. */
  function SupportPlusDisabled(playersSorted: JsValue, allScores: JsValue, playerId: JsValue): (r: bool)
    requires SupportSummable(allScores, playerId)
    ensures PlayerCount(playersSorted) == 0 ==> (r <==> PlayerSupportPoints(allScores, playerId) >= 0)
    ensures PlayerCount(playersSorted) > 0 ==>
              (r <==> PlayerSupportPoints(allScores, playerId) >= PlayerCount(playersSorted) - 1)
  {
    var n := PlayerCount(playersSorted);
    PlayerSupportPoints(allScores, playerId) >= (if n - 1 > 0 then n - 1 else 0)
  }

  /** A player with no Support score can add one in a game of two or more. */
  lemma FirstSupportAllowed(playersSorted: JsValue, allScores: JsValue, playerId: JsValue)
    requires SupportSummable(allScores, playerId)
    requires SupportMinusDisabled(allScores, playerId)
    requires PlayerCount(playersSorted) >= 2
    ensures !SupportPlusDisabled(playersSorted, allScores, playerId)
  {
    MinusDisabledMeansNoSupport(allScores, playerId);
  }

  // ---------------------------------------------------------------- secrets

  /** `1` extra slot for the Obsidian's holder, compared by `parseInt` on both sides. */
  function ExtraSecret(playerId: JsValue, obsidianHolderId: JsValue): (r: nat)
    ensures r == 1 <==> SameParsedInt(playerId, obsidianHolderId)
    ensures r <= 1
  {
    if SameParsedInt(playerId, obsidianHolderId) then 1 else 0
  }

  /** `maxSecrets`: three slots, four for the Obsidian's holder. */
  function MaxSecrets(playerId: JsValue, obsidianHolderId: JsValue): (r: nat)
    ensures 3 <= r <= 4
    ensures r == 4 <==> SameParsedInt(playerId, obsidianHolderId)
  {
    3 + ExtraSecret(playerId, obsidianHolderId)
  }

  /** Without an Obsidian holder (`null`) every player has three slots. */
  lemma NoHolderThreeSlots(playerId: JsValue)
    ensures MaxSecrets(playerId, Null) == 3
  {
  }

  predicate FillsSlot(allScores: JsValue, s: JsValue, playerId: JsValue)
  {
    StrictEq(Get(s, "PlayerID"), playerId) && KindOf(s) == TypeSecret
    && !CdlRevealed(allScores, Get(s, "ObjectiveID"))
  }

  /** `scoredSecrets`: the player's secret scores that no leak has revealed, in order. */
  function ScoredSecrets(allScores: JsValue, playerId: JsValue): (r: seq<JsValue>)
    ensures |r| <= |Elements(allScores)|
    ensures forall s :: s in r <==> s in Elements(allScores) && StrictEq(Get(s, "PlayerID"), playerId) && IsStillSecret(allScores, s)
    ensures forall s :: multiset(r)[s]
                        == if StrictEq(Get(s, "PlayerID"), playerId) && IsStillSecret(allScores, s)
                           then multiset(Elements(allScores))[s] else 0
  {
    var p := s => FillsSlot(allScores, s, playerId);
    var r := Filter(Elements(allScores), p);
    assert forall s :: s in r <==> s in Elements(allScores) && FillsSlot(allScores, s, playerId);
    r
  }

  /** Every still-secret score is an object, and so truthy. */
  lemma ScoredSecretsTruthy(allScores: JsValue, playerId: JsValue)
    ensures forall i :: 0 <= i < |ScoredSecrets(allScores, playerId)| ==> Truthy(ScoredSecrets(allScores, playerId)[i])
  {
    var filled := ScoredSecrets(allScores, playerId);
    forall i | 0 <= i < |filled|
      ensures Truthy(filled[i])
    {
      assert filled[i] in filled;
      KindedIsObject(filled[i]);
    }
  }

  /** The slot icons: slot `i` shows as scored when the player has an `i`-th still-secret
      score. */
  function SecretSlots(allScores: JsValue, playerId: JsValue, obsidianHolderId: JsValue): (r: seq<bool>)
    ensures |r| == MaxSecrets(playerId, obsidianHolderId)
    ensures forall i :: 0 <= i < |r| ==> (r[i] <==> i < |ScoredSecrets(allScores, playerId)|)
  {
    var filled := ScoredSecrets(allScores, playerId);
    var r := seq(MaxSecrets(playerId, obsidianHolderId), i => 0 <= i < |filled| && Truthy(filled[i]));
    ScoredSecretsTruthy(allScores, playerId);
    r
  }

  /** The number of slots shown as scored: the still-secret scores, up to the slot count. */
  function ScoredSlotCount(slots: seq<bool>): (n: nat)
    ensures n <= |slots|
  {
    if slots == [] then 0 else ScoredSlotCount(slots[..|slots| - 1]) + (if slots[|slots| - 1] then 1 else 0)
  }

  lemma {:induction false} ScoredSlotCountPrefix(slots: seq<bool>, k: nat)
    requires k <= |slots|
    requires forall i :: 0 <= i < |slots| ==> (slots[i] <==> i < k)
    ensures ScoredSlotCount(slots) == k
  {
    if slots != [] {
      var init := slots[..|slots| - 1];
      if k == |slots| {
        ScoredSlotCountPrefix(init, k - 1);
      } else {
        ScoredSlotCountPrefix(init, k);
      }
    }
  }

  /** The slots show as many scored secrets as the player has, capped at the slot count. */
  lemma ScoredSlotsShown(allScores: JsValue, playerId: JsValue, obsidianHolderId: JsValue)
    ensures var slots := SecretSlots(allScores, playerId, obsidianHolderId);
            var k := |ScoredSecrets(allScores, playerId)|;
            ScoredSlotCount(slots) == (if k < |slots| then k else |slots|)
  {
    var slots := SecretSlots(allScores, playerId, obsidianHolderId);
    var k := |ScoredSecrets(allScores, playerId)|;
    ScoredSlotCountPrefix(slots, if k < |slots| then k else |slots|);
  }

  predicate BlocksOption(s: JsValue, playerId: JsValue, objectiveId: JsValue)
  {
    StrictEq(Get(s, "PlayerID"), playerId) && StrictEq(Get(s, "ObjectiveID"), objectiveId)
    && (KindOf(s) == TypeSecret || AgendaTitled(s, ClassifiedDocumentLeaks))
  }

  /** A secret objective's option is disabled when the player already has a secret score on
      it, or a leak record on it. */
  function OptionDisabled(allScores: JsValue, playerId: JsValue, objectiveId: JsValue): (r: bool)
    requires SidebarScores(allScores)
    ensures r <==> exists i :: 0 <= i < |Elements(allScores)| && BlocksOption(Elements(allScores)[i], playerId, objectiveId)
  {
    var xs := Elements(allScores);
    var p := s => BlocksOption(s, playerId, objectiveId);
    assert forall i :: 0 <= i < |xs| ==> p(xs[i]) == BlocksOption(xs[i], playerId, objectiveId);
    Any(xs, p)
  }

  /** A secret that fills one of the player's slots disables the option of its objective. */
  lemma FilledSlotDisablesOption(allScores: JsValue, playerId: JsValue, i: nat, objectiveId: JsValue)
    requires SidebarScores(allScores)
    requires i < |ScoredSecrets(allScores, playerId)|
    requires StrictEq(Get(ScoredSecrets(allScores, playerId)[i], "ObjectiveID"), objectiveId)
    ensures OptionDisabled(allScores, playerId, objectiveId)
  {
    var s := ScoredSecrets(allScores, playerId)[i];
    assert s in ScoredSecrets(allScores, playerId);
    var j :| 0 <= j < |Elements(allScores)| && Elements(allScores)[j] == s;
    assert BlocksOption(Elements(allScores)[j], playerId, objectiveId);
  }

  /** The local secret count after a secret is scored: one more, never above three. */
  function NextSecretCount(prev: int): (r: int)
    ensures r <= 3
    ensures prev < 3 ==> r == prev + 1
    ensures prev >= 3 ==> r == 3
  {
    if prev + 1 < 3 then prev + 1 else 3
  }

  /** The local secret count after a secret is unscored: one less, never below zero. */
  function PrevSecretCount(prev: int): (r: int)
    ensures r >= 0
    ensures prev > 0 ==> r == prev - 1
    ensures prev <= 0 ==> r == 0
  {
    if prev - 1 > 0 then prev - 1 else 0
  }

  /** Scoring then unscoring a secret restores a count below three, and the count never
      reaches the Obsidian's fourth slot. */
  lemma SecretCountRoundTrip(prev: int)
    requires 0 <= prev < 3
    ensures PrevSecretCount(NextSecretCount(prev)) == prev
    ensures NextSecretCount(NextSecretCount(prev)) < 4
  {
  }
}
