/** The secret objectives each player has scored, as the secrets chart groups them
    (src/hooks/useGroupedScoredSecrets.js): every secret-typed score whose objective id parses
    to the id of a catalog entry adds that entry to its player's list. */
module GroupedSecrets {
  import opened Wrappers
  import opened Text
  import opened Models
  import opened JsValues

  /** `(s.Type || "").toLowerCase()`: only the `Type` spelling is read here. */
  function SecretKindOf(s: JsValue): (r: string)
    ensures Get(s, "Type").Str? ==> r == ToLower(Get(s, "Type").s)
    ensures !Get(s, "Type").Str? ==> r == ""
  {
    var t := Get(s, "Type");
    if t.Str? then ToLower(t.s) else ""
  }

  /** The `forEach` body does not throw on `s`: it is set and its `Type` is a string or falsy. */
  predicate GroupableScore(s: JsValue)
  {
    !Nullish(s) && (Get(s, "Type").Str? || !Truthy(Get(s, "Type")))
  }

  predicate GroupableScores(allScores: JsValue)
  {
    ListOrFalsy(allScores) && forall i :: 0 <= i < |Elements(allScores)| ==> GroupableScore(Elements(allScores)[i])
  }

  /** `secretObjectives.find(…)` reads `o.id ?? o.ID` of every entry it visits. */
  predicate ReadableCatalog(catalog: seq<JsValue>)
  {
    forall i :: 0 <= i < |catalog| ==> !Nullish(catalog[i])
  }

  /** `parseInt(o.id ?? o.ID)`. */
  function CatalogId(o: JsValue): Option<int>
  {
    ParseInt(Coalesce(Get(o, "id"), Get(o, "ID")))
  }

  /** `oid === scoreId`: both parse, to the same integer (`NaN` matches nothing). */
  predicate IdMatches(o: JsValue, scoreId: Option<int>)
  {
    scoreId.Some? && CatalogId(o) == scoreId
  }

  /** The catalog entry `find` returns for a score: the first whose id matches the score's
      parsed `ObjectiveID`. Only an object has an id, so a match is always truthy. */
  function MatchOf(s: JsValue, catalog: seq<JsValue>): (r: Option<JsValue>)
    ensures r.Some? ==> r.value.Obj? && r.value in catalog && IdMatches(r.value, ParseInt(Get(s, "ObjectiveID")))
    ensures r.None? ==> forall i :: 0 <= i < |catalog| ==> !IdMatches(catalog[i], ParseInt(Get(s, "ObjectiveID")))
  {
    var scoreId := ParseInt(Get(s, "ObjectiveID"));
    var p := o => IdMatches(o, scoreId);
    assert forall i :: 0 <= i < |catalog| ==> p(catalog[i]) == IdMatches(catalog[i], scoreId);
    var k := FindIndex(catalog, p);
    if k.Some? then Some(catalog[k.value]) else None
  }

  /** The entry a score contributes: its match when the score is a secret, else nothing. */
  function Contribution(s: JsValue, catalog: seq<JsValue>): Option<JsValue>
  {
    if SecretKindOf(s) != TypeSecret then None else MatchOf(s, catalog)
  }

  /** One visit: the score's contribution, if any, appended to the list under its
      `PlayerID` key, the list created on first use. */
  function AddScore(prev: map<string, seq<JsValue>>, s: JsValue, catalog: seq<JsValue>): map<string, seq<JsValue>>
  {
    var m := Contribution(s, catalog);
    if m.None? then prev
    else
      var k := KeyText(Get(s, "PlayerID"));
      prev[k := (if k in prev then prev[k] else []) + [m.value]]
  }

  /** `result` after visiting `xs` in order. */
  function Grouped(xs: seq<JsValue>, catalog: seq<JsValue>): map<string, seq<JsValue>>
  {
    if xs == [] then map[]
    else AddScore(Grouped(xs[..|xs| - 1], catalog), xs[|xs| - 1], catalog)
  }

  /** One player's list read straight off the scores: the contributions of the scores whose
      `PlayerID` names that key, in score order. */
  function GroupOf(xs: seq<JsValue>, catalog: seq<JsValue>, key: string): (r: seq<JsValue>)
    ensures |r| <= |xs|
  {
    if xs == [] then []
    else
      var s := xs[|xs| - 1];
      var m := Contribution(s, catalog);
      GroupOf(xs[..|xs| - 1], catalog, key)
      + (if m.Some? && KeyText(Get(s, "PlayerID")) == key then [m.value] else [])
  }

  /** The grouped map holds a key exactly when that player's list is not empty, and then
      holds that list: players without a matching secret are absent, and each list keeps
      score order. */
  lemma {:induction false} GroupedIsPerPlayer(xs: seq<JsValue>, catalog: seq<JsValue>, key: string)
    ensures key in Grouped(xs, catalog) <==> GroupOf(xs, catalog, key) != []
    ensures key in Grouped(xs, catalog) ==> Grouped(xs, catalog)[key] == GroupOf(xs, catalog, key)
  {
    if xs != [] {
      GroupedIsPerPlayer(xs[..|xs| - 1], catalog, key);
    }
  }

  /** The number of secret-typed scores: `(s.Type || "").toLowerCase() === "secret"`. */
  function SecretTypedCount(xs: seq<JsValue>): nat
  {
    if xs == [] then 0
    else SecretTypedCount(xs[..|xs| - 1]) + (if SecretKindOf(xs[|xs| - 1]) == TypeSecret then 1 else 0)
  }

  /** The number of scores that add an entry: secret-typed ones whose objective is in the
      catalog. No more than the secret-typed scores. */
  function MatchedCount(xs: seq<JsValue>, catalog: seq<JsValue>): (r: nat)
    ensures r <= SecretTypedCount(xs)
  {
    if xs == [] then 0
    else MatchedCount(xs[..|xs| - 1], catalog) + (if Contribution(xs[|xs| - 1], catalog).Some? then 1 else 0)
  }

  /** The number of entries over all the lists of a grouping. */
  ghost function EntriesTotal(m: map<string, seq<JsValue>>): nat
    decreases |m.Keys|
  {
    if m == map[] then 0
    else
      var k :| k in m;
      |m[k]| + EntriesTotal(m - {k})
  }

  /** The total does not depend on which key is taken first. */
  lemma {:induction false} EntriesTotalRemove(m: map<string, seq<JsValue>>, k: string)
    requires k in m
    ensures EntriesTotal(m) == |m[k]| + EntriesTotal(m - {k})
    decreases |m.Keys|
  {
    var j :| j in m && EntriesTotal(m) == |m[j]| + EntriesTotal(m - {j});
    if j != k {
      assert (m - {j}) - {k} == (m - {k}) - {j};
      EntriesTotalRemove(m - {j}, k);
      EntriesTotalRemove(m - {k}, j);
    }
  }

  /** Appending one entry to a key's list, created when missing, adds one to the total. */
  lemma EntriesTotalPush(m: map<string, seq<JsValue>>, k: string, v: JsValue)
    ensures EntriesTotal(m[k := (if k in m then m[k] else []) + [v]]) == EntriesTotal(m) + 1
  {
    var next := m[k := (if k in m then m[k] else []) + [v]];
    EntriesTotalRemove(next, k);
    if k in m {
      EntriesTotalRemove(m, k);
      assert next - {k} == m - {k};
    } else {
      assert next - {k} == m;
    }
  }

  /** Summed over all players, the grouping holds one entry per matched score, and so never
      more entries than there are secret-typed scores. */
  lemma {:induction false} GroupedTotal(xs: seq<JsValue>, catalog: seq<JsValue>)
    ensures EntriesTotal(Grouped(xs, catalog)) == MatchedCount(xs, catalog)
    ensures EntriesTotal(Grouped(xs, catalog)) <= SecretTypedCount(xs)
  {
    if xs != [] {
      var init, s := xs[..|xs| - 1], xs[|xs| - 1];
      GroupedTotal(init, catalog);
      var m := Contribution(s, catalog);
      if m.Some? {
        EntriesTotalPush(Grouped(init, catalog), KeyText(Get(s, "PlayerID")), m.value);
      }
    }
  }

  /** Every grouped entry is a catalog entry. */
  lemma {:induction false} GroupedFromCatalog(xs: seq<JsValue>, catalog: seq<JsValue>, key: string)
    ensures forall o :: o in GroupOf(xs, catalog, key) ==> o in catalog
  {
    if xs != [] {
      GroupedFromCatalog(xs[..|xs| - 1], catalog, key);
    }
  }

  /** A score that is not secret-typed, or whose objective is not in the catalog, leaves the
      grouping as it was. */
  lemma UnmatchedScoreIgnored(xs: seq<JsValue>, s: JsValue, catalog: seq<JsValue>)
    requires SecretKindOf(s) != TypeSecret
             || forall i :: 0 <= i < |catalog| ==> !IdMatches(catalog[i], ParseInt(Get(s, "ObjectiveID")))
    ensures Grouped(xs + [s], catalog) == Grouped(xs, catalog)
  {
    GroupedSnoc(xs, s, catalog);
  }

  /** One more score appends its contribution, if any, under its player's key. */
  lemma GroupedSnoc(xs: seq<JsValue>, s: JsValue, catalog: seq<JsValue>)
    ensures Grouped(xs + [s], catalog) == AddScore(Grouped(xs, catalog), s, catalog)
  {
    assert (xs + [s])[..|xs|] == xs;
  }

  /** `useGroupedScoredSecrets(allScores, secretObjectives)`: the `forEach` over the scores. */
  method GroupScoredSecrets(allScores: JsValue, secretObjectives: seq<JsValue>) returns (result: map<string, seq<JsValue>>)
    requires GroupableScores(allScores)
    requires ReadableCatalog(secretObjectives)
    ensures result == Grouped(Elements(allScores), secretObjectives)
  {
    var xs := Elements(allScores);
    result := map[];
    var i := 0;
    while i < |xs|
      invariant 0 <= i <= |xs|
      invariant result == Grouped(xs[..i], secretObjectives)
    {
      var s := xs[i];
      assert xs[..i + 1] == xs[..i] + [s];
      GroupedSnoc(xs[..i], s, secretObjectives);
      if SecretKindOf(s) == TypeSecret {
        var found := MatchOf(s, secretObjectives);
        if found.Some? && Truthy(found.value) {
          var key := KeyText(Get(s, "PlayerID"));
          ghost var prev := result;
          if key !in result {
            result := result[key := []];
          }
          result := result[key := result[key] + [found.value]];
          assert result == prev[key := (if key in prev then prev[key] else []) + [found.value]];
          assert result == AddScore(prev, s, secretObjectives);
        }
      }
      i := i + 1;
    }
    assert xs[..i] == xs;
  }
}
