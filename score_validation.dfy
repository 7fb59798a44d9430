/** Read-only guards consulted before an objective is scored (backend/services/score_validation.go). */
module ScoreValidation {
  import opened Wrappers
  import opened Text
  import opened Models
  import opened ScoringHelpers

  /** `LOWER(type) = 'secret'`. */
  predicate IsSecretKind(kind: string)
  {
    ToLower(kind) == TypeSecret
  }

  /** Some catalog objective has this id and this (lower-cased) phase: the
      `objective_id IN (SELECT id FROM objectives WHERE LOWER(phase) = ?)` sub-query. */
  predicate InPhase(catalog: seq<Objective>, id: nat, phase: string)
  {
    exists i :: 0 <= i < |catalog| && catalog[i].id == id && ToLower(catalog[i].phase) == phase
  }

  /** Some catalog objective has this id: the inner join with `objectives`. */
  predicate InCatalog(catalog: seq<Objective>, id: nat)
  {
    exists i :: 0 <= i < |catalog| && catalog[i].id == id
  }

  /** Secret-typed rows of the player in the given round whose objective has the given phase. */
  function SecretsInPhase(scores: seq<Score>, catalog: seq<Objective>, player: nat, round: nat, phase: string): nat
  {
    CountWhere(scores, (x: Score) => x.playerId == player && x.roundId == round && IsSecretKind(x.kind)
                                      && InPhase(catalog, x.objectiveId, phase))
  }

  /** The player's rows still typed secret (any case) whose objective exists in the catalog. */
  function SecretCount(scores: seq<Score>, catalog: seq<Objective>, player: nat): nat
  {
    CountWhere(scores, (x: Score) => x.playerId == player && IsSecretKind(x.kind) && InCatalog(catalog, x.objectiveId))
  }

  /** The player's relic rows titled "the obsidian", both compared lower-cased. */
  function ObsidianCount(scores: seq<Score>, player: nat): nat
  {
    CountWhere(scores, (x: Score) => x.playerId == player && ToLower(x.kind) == TypeRelic
                                      && ToLower(x.relicTitle) == "the obsidian")
  }

  /** The secret cap: 4 once the player has any Obsidian record, otherwise 3. */
  function SecretCap(scores: seq<Score>, player: nat): (cap: nat)
    ensures cap == 3 || cap == 4
    ensures cap == 4 <==> exists i :: 0 <= i < |scores| && scores[i].playerId == player
                                      && ToLower(scores[i].kind) == TypeRelic
                                      && ToLower(scores[i].relicTitle) == "the obsidian"
  {
    CountWherePositive(scores, (x: Score) => x.playerId == player && ToLower(x.kind) == TypeRelic
                                              && ToLower(x.relicTitle) == "the obsidian");
    if ObsidianCount(scores, player) > 0 then 4 else 3
  }

  const MsgObjectiveNotFound := "Objective not found"
  const MsgPhaseTaken := "Player has already scored a secret objective in this phase this round"

  function CapMessage(cap: nat): string
  {
    "Player has already scored the maximum of " + NatToString(cap) + " secret objectives"
  }

  /** ValidateSecretScoringRules: an unknown objective fails; a non-secret objective always
      passes; a secret fails when the player already has a secret of the same phase in this
      round, or already holds as many secrets as the cap allows. */
  function ValidateSecretScoringRules(scores: seq<Score>, catalog: seq<Objective>, player: nat, round: nat, objective: nat): (r: Outcome)
    ensures FindObjective(catalog, objective).None? ==> r == Fail(MsgObjectiveNotFound)
    ensures FindObjective(catalog, objective).Some? && !IsSecretKind(FindObjective(catalog, objective).value.kind) ==> r == Pass
    ensures FindObjective(catalog, objective).Some? && IsSecretKind(FindObjective(catalog, objective).value.kind) ==>
              (r.Pass? <==> SecretsInPhase(scores, catalog, player, round, ToLower(FindObjective(catalog, objective).value.phase)) == 0
                            && SecretCount(scores, catalog, player) < SecretCap(scores, player))
    ensures r.Fail? ==> r.msg in {MsgObjectiveNotFound, MsgPhaseTaken, CapMessage(3), CapMessage(4)}
  {
    match FindObjective(catalog, objective)
    case None => Fail(MsgObjectiveNotFound)
    case Some(obj) =>
      if !IsSecretKind(obj.kind) then Pass
      else if SecretsInPhase(scores, catalog, player, round, ToLower(obj.phase)) > 0 then Fail(MsgPhaseTaken)
      else if SecretCount(scores, catalog, player) >= SecretCap(scores, player) then Fail(CapMessage(SecretCap(scores, player)))
      else Pass
  }

  /** CheckIfScoreExists: some row of the player names this objective, whatever its type. */
  function CheckIfScoreExists(scores: seq<Score>, player: nat, objective: nat): (r: bool)
    ensures r <==> exists i :: 0 <= i < |scores| && scores[i].playerId == player && scores[i].objectiveId == objective
  {
    CountWherePositive(scores, (x: Score) => x.playerId == player && x.objectiveId == objective);
    CountWhere(scores, (x: Score) => x.playerId == player && x.objectiveId == objective) > 0
  }

  // ---------------------------------------------------------------------------------------
  // Facts about the cap

  /** The catalog types every "Secret"-stage objective as secret. The guard reads the
      objective's type, while the stored row's type follows its stage; this is what ties
      the two together. */
  predicate SecretStagesTyped(catalog: seq<Objective>)
  {
    forall i :: 0 <= i < |catalog| && catalog[i].stage == "Secret" ==> IsSecretKind(catalog[i].kind)
  }

  /** Every player holds at most as many secrets as the cap allows. */
  ghost predicate WithinCaps(scores: seq<Score>, catalog: seq<Objective>)
  {
    forall q :: SecretCount(scores, catalog, q) <= SecretCap(scores, q)
  }

  /** A row that is neither secret-typed nor relic-typed leaves every secret count and cap alone. */
  lemma NeutralRowKeepsCaps(scores: seq<Score>, catalog: seq<Objective>, x: Score, q: nat)
    requires !IsSecretKind(x.kind) && ToLower(x.kind) != TypeRelic
    ensures SecretCount(scores + [x], catalog, q) == SecretCount(scores, catalog, q)
    ensures SecretCap(scores + [x], q) == SecretCap(scores, q)
  {
    CountWhereSnoc(scores, x, (y: Score) => y.playerId == q && IsSecretKind(y.kind) && InCatalog(catalog, y.objectiveId));
    CountWhereSnoc(scores, x, (y: Score) => y.playerId == q && ToLower(y.kind) == TypeRelic
                                             && ToLower(y.relicTitle) == "the obsidian");
  }

  /** Appending any row never lowers a cap. */
  lemma CapMonotone(scores: seq<Score>, x: Score, q: nat)
    ensures SecretCap(scores, q) <= SecretCap(scores + [x], q)
  {
    CountWhereSnoc(scores, x, (y: Score) => y.playerId == q && ToLower(y.kind) == TypeRelic
                                             && ToLower(y.relicTitle) == "the obsidian");
  }

  /** A row of a non-secret, non-relic type keeps every player within the cap. */
  lemma NeutralRowKeepsWithinCap(scores: seq<Score>, catalog: seq<Objective>, x: Score)
    requires !IsSecretKind(x.kind) && ToLower(x.kind) != TypeRelic
    requires WithinCaps(scores, catalog)
    ensures WithinCaps(scores + [x], catalog)
  {
    forall q ensures SecretCount(scores + [x], catalog, q) <= SecretCap(scores + [x], q) {
      NeutralRowKeepsCaps(scores, catalog, x, q);
    }
  }

  /** A relic row only ever raises caps, so every player stays within the cap. */
  lemma RelicRowKeepsWithinCap(scores: seq<Score>, catalog: seq<Objective>, x: Score)
    requires x.kind == TypeRelic
    requires WithinCaps(scores, catalog)
    ensures WithinCaps(scores + [x], catalog)
  {
    forall q ensures SecretCount(scores + [x], catalog, q) <= SecretCap(scores + [x], q) {
      CountWhereSnoc(scores, x, (y: Score) => y.playerId == q && IsSecretKind(y.kind) && InCatalog(catalog, y.objectiveId));
      CapMonotone(scores, x, q);
    }
  }

  /** The cap holds after an accepted objective score: when validation passes and the row
      CreateObjectiveScore builds is appended, every player still holds at most as many
      secrets as the cap allows. */
  lemma {:induction false} AcceptedScoreKeepsWithinCap(scores: seq<Score>, catalog: seq<Objective>, player: nat, round: nat, objective: nat, points: int)
    requires SecretStagesTyped(catalog)
    requires WithinCaps(scores, catalog)
    requires ValidateSecretScoringRules(scores, catalog, player, round, objective).Pass?
    ensures ObjectiveScore(catalog, round, player, objective, points).Ok?
    ensures var x := ObjectiveScore(catalog, round, player, objective, points).value;
            WithinCaps(scores + [x], catalog)
  {
    var obj := FindObjective(catalog, objective).value;
    var x := ObjectiveScore(catalog, round, player, objective, points).value;
    var k :| 0 <= k < |catalog| && catalog[k] == obj;
    forall q ensures SecretCount(scores + [x], catalog, q) <= SecretCap(scores + [x], q) {
      CountWhereSnoc(scores, x, (y: Score) => y.playerId == q && IsSecretKind(y.kind) && InCatalog(catalog, y.objectiveId));
      CapMonotone(scores, x, q);
      if x.kind == TypeSecret && q == player {
        assert obj.stage == "Secret";
        assert IsSecretKind(catalog[k].kind);
      }
    }
  }

  /** A catalog whose objective 1 is in the "Secret" stage but typed "public"; objectives 2
      to 4 are ordinary secrets. */
  function MistypedCatalog(): seq<Objective>
  {
    [Objective(1, "Mistyped", TypePublic, "action", "Secret", 1), Objective(2, "B", TypeSecret, "action", "Secret", 1),
     Objective(3, "C", TypeSecret, "status", "Secret", 1), Objective(4, "D", TypeSecret, "agenda", "Secret", 1)]
  }

  /** Player 7 holds the secrets 2, 3 and 4, one per round, and no Obsidian. */
  function ThreeSecrets(): seq<Score>
  {
    [Score(1, 7, 2, 1, TypeSecret, "", "", false), Score(2, 7, 3, 1, TypeSecret, "", "", false),
     Score(3, 7, 4, 1, TypeSecret, "", "", false)]
  }

  /** Player 7 holds three secrets, and a further secret row makes four. */
  lemma ThreeSecretsCounted(x: Score)
    requires x.playerId == 7 && x.kind == TypeSecret && x.objectiveId == 1
    ensures SecretCount(ThreeSecrets(), MistypedCatalog(), 7) == 3
    ensures SecretCount(ThreeSecrets() + [x], MistypedCatalog(), 7) == 4
  {
    var catalog, scores := MistypedCatalog(), ThreeSecrets();
    var keep := (y: Score) => y.playerId == 7 && IsSecretKind(y.kind) && InCatalog(catalog, y.objectiveId);
    assert ToLower(TypeSecret) == TypeSecret;
    assert catalog[0].id == 1 && catalog[1].id == 2 && catalog[2].id == 3 && catalog[3].id == 4;
    var a, b, c := scores[0], scores[1], scores[2];
    assert keep(a) && keep(b) && keep(c) && keep(x);
    assert [] + [a] == [a] && [a] + [b] == [a, b] && [a, b] + [c] == scores;
    CountWhereSnoc([], a, keep);
    CountWhereSnoc([a], b, keep);
    CountWhereSnoc([a, b], c, keep);
    CountWhereSnoc(scores, x, keep);
  }

  /** Player 7 has no Obsidian, before or after a further secret row, so the cap stays 3. */
  lemma ThreeSecretsCapped(x: Score)
    requires x.kind == TypeSecret
    ensures SecretCap(ThreeSecrets(), 7) == 3 && SecretCap(ThreeSecrets() + [x], 7) == 3
  {
    var scores := ThreeSecrets();
    var relic := (y: Score) => y.playerId == 7 && ToLower(y.kind) == TypeRelic && ToLower(y.relicTitle) == "the obsidian";
    assert ToLower(TypeSecret) == TypeSecret;
    var a, b, c := scores[0], scores[1], scores[2];
    assert !relic(a) && !relic(b) && !relic(c) && !relic(x);
    assert [] + [a] == [a] && [a] + [b] == [a, b] && [a, b] + [c] == scores;
    CountWhereSnoc([], a, relic);
    CountWhereSnoc([a], b, relic);
    CountWhereSnoc([a, b], c, relic);
    CountWhereSnoc(scores, x, relic);
  }

  /** SecretStagesTyped is needed: with a "Secret"-stage objective typed "public" in the
      catalog, a player already holding three secrets passes the guard on it, and the row
      stored for it is typed secret, a fourth secret without the Obsidian. */
  lemma MistypedSecretStageBreaksCap()
    ensures !SecretStagesTyped(MistypedCatalog())
    ensures SecretCount(ThreeSecrets(), MistypedCatalog(), 7) == SecretCap(ThreeSecrets(), 7)
    ensures ValidateSecretScoringRules(ThreeSecrets(), MistypedCatalog(), 7, 4, 1).Pass?
    ensures ObjectiveScore(MistypedCatalog(), 4, 7, 1, 1).Ok?
    ensures var x := ObjectiveScore(MistypedCatalog(), 4, 7, 1, 1).value;
            SecretCount(ThreeSecrets() + [x], MistypedCatalog(), 7) > SecretCap(ThreeSecrets() + [x], 7)
  {
    var catalog := MistypedCatalog();
    assert ToLower(TypePublic) == TypePublic;
    assert FindObjective(catalog, 1) == Some(catalog[0]);
    var x := ObjectiveScore(catalog, 4, 7, 1, 1).value;
    ThreeSecretsCounted(x);
    ThreeSecretsCapped(x);
  }

  /** Retyping a row away from secret never raises a secret count, and leaves caps alone
      when the row was not a relic. */
  lemma RetypeKeepsWithinCap(scores: seq<Score>, catalog: seq<Objective>, k: nat, y: Score)
    requires k < |scores|
    requires !IsSecretKind(y.kind) && ToLower(y.kind) != TypeRelic && ToLower(scores[k].kind) != TypeRelic
    requires WithinCaps(scores, catalog)
    ensures WithinCaps(scores[k := y], catalog)
  {
    var t := scores[k := y];
    forall q ensures SecretCount(t, catalog, q) <= SecretCap(t, q) {
      assert SecretCount(scores, catalog, q) <= SecretCap(scores, q);
      CountWhereUpdate(scores, k, y, (z: Score) => z.playerId == q && IsSecretKind(z.kind) && InCatalog(catalog, z.objectiveId));
      CountWhereUpdate(scores, k, y, (z: Score) => z.playerId == q && ToLower(z.kind) == TypeRelic
                                                    && ToLower(z.relicTitle) == "the obsidian");
    }
  }
}
