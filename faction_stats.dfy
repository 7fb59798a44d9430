/** The most-played and most-victorious factions (helpers/stats/factions.go). Go ranges over a
    map in an unspecified order; the model takes that order as a parameter `order` listing each
    key once, so every result is stated for whichever order the runtime picks. */
module FactionStats {

  /** `order` is one possible iteration order of `m`: every key exactly once. */
  ghost predicate IsListing(order: seq<string>, m: map<string, int>)
  {
    (forall k :: k in m <==> k in order)
    && (forall i, j :: 0 <= i < j < |order| ==> order[i] != order[j])
  }

  /** The running maximum after visiting `order`, starting from ("", 0) and moving only on a
      strictly greater count: the first key, in visiting order, holding the largest positive
      count, or ("", 0) when no count is positive. */
  function Leader(m: map<string, int>, order: seq<string>): (r: (string, int))
    requires forall k :: k in order ==> k in m
    ensures r.1 >= 0
    ensures r.1 == 0 ==> r.0 == ""
    ensures forall k :: k in order ==> m[k] <= r.1
    ensures r.1 > 0 ==> exists i :: 0 <= i < |order| && order[i] == r.0 && m[r.0] == r.1
                                   && forall j :: 0 <= j < i ==> m[order[j]] < r.1
  {
    if order == [] then ("", 0)
    else
      var prev := Leader(m, order[..|order| - 1]);
      var k := order[|order| - 1];
      if m[k] > prev.1 then
        assert forall j :: 0 <= j < |order| - 1 ==> m[order[j]] < m[k] by {
          forall j | 0 <= j < |order| - 1 ensures m[order[j]] < m[k] {
            assert order[j] in order[..|order| - 1];
          }
        }
        (k, m[k])
      else
        assert order == order[..|order| - 1] + [k];
        if prev.1 > 0 then
          var pre := order[..|order| - 1];
          var i :| 0 <= i < |pre| && pre[i] == prev.0 && m[prev.0] == prev.1
                   && forall j :: 0 <= j < i ==> m[pre[j]] < prev.1;
          assert order[i] == prev.0;
          assert forall j :: 0 <= j < i ==> m[order[j]] < prev.1 by {
            forall j | 0 <= j < i ensures m[order[j]] < prev.1 {
              assert order[j] == pre[j];
            }
          }
          prev
        else prev
  }

  /** Whichever order the map is visited in, no key counts more than the leader. */
  lemma LeaderIsMaximal(m: map<string, int>, order: seq<string>)
    requires IsListing(order, m)
    ensures forall k :: k in m ==> m[k] <= Leader(m, order).1
    ensures Leader(m, order).0 != "" ==> Leader(m, order).0 in m
  {
  }

  /** One loop of the source: a running maximum over the map in the given order. */
  method MostCounted(m: map<string, int>, order: seq<string>) returns (best: string, max: int)
    requires IsListing(order, m)
    ensures (best, max) == Leader(m, order)
  {
    best, max := "", 0;
    var i := 0;
    while i < |order|
      invariant 0 <= i <= |order|
      invariant (best, max) == Leader(m, order[..i])
    {
      assert order[..i + 1][..i] == order[..i];
      var count := m[order[i]];
      if count > max {
        best, max := order[i], count;
      }
      i := i + 1;
    }
    assert order[..|order|] == order;
  }

  /** Both results: the played leader depends on `plays` alone and the victorious leader on
      `wins` alone; each is "" when its map has no positive count. */
  method DetermineMostPlayedAndVictoriousFactions(plays: map<string, int>, playOrder: seq<string>,
                                                 wins: map<string, int>, winOrder: seq<string>)
    returns (mostPlayed: string, mostVictorious: string)
    requires IsListing(playOrder, plays) && IsListing(winOrder, wins)
    ensures mostPlayed == Leader(plays, playOrder).0
    ensures mostVictorious == Leader(wins, winOrder).0
  {
    var maxPlayed, maxWins;
    mostPlayed, maxPlayed := MostCounted(plays, playOrder);
    mostVictorious, maxWins := MostCounted(wins, winOrder);
  }

  /** When no faction has a positive count (in particular for an empty map) the result is "". */
  lemma NoPositiveCountNoLeader(m: map<string, int>, order: seq<string>)
    requires IsListing(order, m)
    requires forall k :: k in m ==> m[k] <= 0
    ensures Leader(m, order).0 == ""
  {
  }

  /** Ties go to the key met first: two keys sharing the top count, visited in either order,
      each win in the order that visits it first. */
  lemma TieGoesToFirstVisited(a: string, b: string, n: int)
    requires a != b && n > 0
    ensures Leader(map[a := n, b := n], [a, b]).0 == a
    ensures Leader(map[a := n, b := n], [b, a]).0 == b
  {
    var m := map[a := n, b := n];
    assert [a, b][..1] == [a] && [a][..0] == [];
    assert [b, a][..1] == [b] && [b][..0] == [];
  }
}
