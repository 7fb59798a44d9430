/** Classified Document Leaks (helpers/cdl.go): a secret objective made public by that agenda
    is listed among the game's objectives, flagged as CDL, even when the game never placed it. */
module Cdl {
  import opened Models

  /** The objective ids of the rows recorded under the Classified Document Leaks title. */
  function CdlIds(scores: seq<Score>): set<nat>
  {
    set x | x in scores && x.agendaTitle == ClassifiedDocumentLeaks :: x.objectiveId
  }

  /** The objective ids already listed. */
  function ListedIds(objectives: seq<GameObjective>): set<nat>
  {
    set o | o in objectives :: o.objectiveId
  }

  /** The entry added for a CDL objective the game does not list. */
  function CdlEntry(id: nat): GameObjective
  {
    GameObjective(id, 0, "", false, 0, true)
  }

  /** An entry after the final pass: flagged when its objective is CDL-referenced. */
  function Flag(o: GameObjective, cdl: set<nat>): GameObjective
  {
    if o.objectiveId in cdl then o.(isCdl := true) else o
  }

  /** What InjectCDLObjectives returns for `existing`: the listed entries in order, flagged; then
      one CDL entry per referenced objective that was not listed, in some order, none twice. */
  ghost predicate IsInjection(existing: seq<GameObjective>, scores: seq<Score>, r: seq<GameObjective>)
  {
    var cdl := CdlIds(scores);
    |existing| <= |r|
    && (forall i :: 0 <= i < |existing| ==> r[i] == Flag(existing[i], cdl))
    && (forall k :: |existing| <= k < |r| ==>
          r[k] == CdlEntry(r[k].objectiveId) && r[k].objectiveId in cdl && r[k].objectiveId !in ListedIds(existing))
    && (forall k, l :: |existing| <= k < l < |r| ==> r[k].objectiveId != r[l].objectiveId)
    && (forall id :: id in cdl && id !in ListedIds(existing) ==>
          exists k :: |existing| <= k < |r| && r[k].objectiveId == id)
  }

  /** The first loop: the referenced ids, as a set (the Go map of `true`). */
  method CollectCdlIds(scores: seq<Score>) returns (cdl: set<nat>)
    ensures cdl == CdlIds(scores)
  {
    cdl := {};
    var i := 0;
    while i < |scores|
      invariant i <= |scores|
      invariant cdl == CdlIds(scores[..i])
    {
      assert scores[..i + 1] == scores[..i] + [scores[i]];
      if scores[i].agendaTitle == ClassifiedDocumentLeaks {
        cdl := cdl + {scores[i].objectiveId};
      }
      i := i + 1;
    }
    assert scores[..i] == scores;
  }

  /** The second loop: the ids already listed. */
  method CollectListedIds(existing: seq<GameObjective>) returns (listed: set<nat>)
    ensures listed == ListedIds(existing)
  {
    listed := {};
    var j := 0;
    while j < |existing|
      invariant j <= |existing|
      invariant listed == ListedIds(existing[..j])
    {
      assert existing[..j + 1] == existing[..j] + [existing[j]];
      listed := listed + {existing[j].objectiveId};
      j := j + 1;
    }
    assert existing[..j] == existing;
  }

  /** The appended part of an injection: CDL entries for ids of `cdl` outside `listed`, each
      such id once. */
  ghost predicate AppendsMissing(existing: seq<GameObjective>, r: seq<GameObjective>, cdl: set<nat>, listed: set<nat>)
  {
    |existing| <= |r| && r[..|existing|] == existing
    && (forall k :: |existing| <= k < |r| ==>
          r[k] == CdlEntry(r[k].objectiveId) && r[k].objectiveId in cdl && r[k].objectiveId !in listed)
    && (forall k, l :: |existing| <= k < l < |r| ==> r[k].objectiveId != r[l].objectiveId)
    && (forall id :: id in cdl && id !in listed ==> exists k :: |existing| <= k < |r| && r[k].objectiveId == id)
  }

  /** The third loop: one CDL entry per unlisted id, in map iteration order (left open). */
  method AppendMissing(existing: seq<GameObjective>, cdl: set<nat>, listed: set<nat>) returns (r: seq<GameObjective>)
    ensures AppendsMissing(existing, r, cdl, listed)
  {
    r := existing;
    var pending := cdl;
    while pending != {}
      invariant pending <= cdl
      invariant AppendsMissing(existing, r, cdl - pending, listed)
      decreases |pending|
    {
      var id :| id in pending;
      if id !in listed {
        ghost var before := r;
        r := r + [CdlEntry(id)];
        assert forall k :: 0 <= k < |before| ==> r[k] == before[k];
        assert r[|r| - 1].objectiveId == id;
      }
      pending := pending - {id};
    }
  }

  /** The last loop: every entry whose objective is referenced gets the CDL flag. */
  method FlagAll(appended: seq<GameObjective>, cdl: set<nat>) returns (r: seq<GameObjective>)
    ensures |r| == |appended|
    ensures forall m :: 0 <= m < |r| ==> r[m] == Flag(appended[m], cdl)
  {
    r := appended;
    var k := 0;
    while k < |r|
      invariant k <= |r| == |appended|
      invariant forall m :: 0 <= m < k ==> r[m] == Flag(appended[m], cdl)
      invariant forall m :: k <= m < |r| ==> r[m] == appended[m]
    {
      if r[k].objectiveId in cdl {
        r := r[k := r[k].(isCdl := true)];
      }
      k := k + 1;
    }
  }

  /** InjectCDLObjectives. The referenced ids are a Go map, so the appended entries follow map
      iteration order, which the model leaves open. */
  method InjectCDLObjectives(existing: seq<GameObjective>, scores: seq<Score>) returns (r: seq<GameObjective>)
    ensures IsInjection(existing, scores, r)
  {
    var cdl := CollectCdlIds(scores);
    var listed := CollectListedIds(existing);
    var appended := AppendMissing(existing, cdl, listed);
    r := FlagAll(appended, cdl);
    forall m | 0 <= m < |existing| ensures r[m] == Flag(existing[m], cdl) {
      assert appended[m] == appended[..|existing|][m];
    }
  }

  /** Every CDL-referenced objective is listed afterwards, and flagged. */
  lemma CdlObjectivesListed(existing: seq<GameObjective>, scores: seq<Score>, r: seq<GameObjective>)
    requires IsInjection(existing, scores, r)
    ensures forall id :: id in CdlIds(scores) ==> exists k :: 0 <= k < |r| && r[k].objectiveId == id && r[k].isCdl
  {
    forall id | id in CdlIds(scores) ensures exists k :: 0 <= k < |r| && r[k].objectiveId == id && r[k].isCdl {
      if id in ListedIds(existing) {
        var o :| o in existing && o.objectiveId == id;
        var i :| 0 <= i < |existing| && existing[i] == o;
        assert r[i] == Flag(existing[i], CdlIds(scores));
      } else {
        var k :| |existing| <= k < |r| && r[k].objectiveId == id;
        assert r[k] == CdlEntry(id);
      }
    }
  }

  /** Entries are flagged exactly when CDL-referenced or flagged before; nothing else changes. */
  lemma FlagsMeaning(existing: seq<GameObjective>, scores: seq<Score>, r: seq<GameObjective>)
    requires IsInjection(existing, scores, r)
    ensures forall k :: 0 <= k < |r| && r[k].objectiveId in CdlIds(scores) ==> r[k].isCdl
    ensures forall i :: 0 <= i < |existing| ==>
              r[i].isCdl == (existing[i].isCdl || existing[i].objectiveId in CdlIds(scores))
              && r[i].(isCdl := existing[i].isCdl) == existing[i]
  {
    forall k | 0 <= k < |r| && r[k].objectiveId in CdlIds(scores) ensures r[k].isCdl {
      if k < |existing| {
        assert r[k] == Flag(existing[k], CdlIds(scores));
      }
    }
  }

  /** Injecting twice changes nothing the second time. */
  lemma InjectionIdempotent(existing: seq<GameObjective>, scores: seq<Score>, r: seq<GameObjective>, r2: seq<GameObjective>)
    requires IsInjection(existing, scores, r)
    requires IsInjection(r, scores, r2)
    ensures r2 == r
  {
    CdlObjectivesListed(existing, scores, r);
    FlagsMeaning(existing, scores, r);
    assert |r| < |r2| ==> r2[|r|].objectiveId in ListedIds(r) by {
      if |r| < |r2| {
        var k :| 0 <= k < |r| && r[k].objectiveId == r2[|r|].objectiveId && r[k].isCdl;
        assert r[k] in r;
      }
    }
    forall i | 0 <= i < |r| ensures r2[i] == r[i] {
      assert r2[i] == Flag(r[i], CdlIds(scores));
    }
  }

  /** Rows not recorded under Classified Document Leaks do not change the result. */
  lemma OtherRowsIgnored(existing: seq<GameObjective>, scores: seq<Score>, x: Score, r: seq<GameObjective>)
    requires x.agendaTitle != ClassifiedDocumentLeaks
    ensures IsInjection(existing, scores + [x], r) <==> IsInjection(existing, scores, r)
  {
    assert CdlIds(scores + [x]) == CdlIds(scores);
  }
}
