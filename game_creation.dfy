/** Creating a game: player resolution, the initial round, the winning-point setting, the
    public-objective deck layout and manual objective assignment (services/game_creation.go,
    with CreatePlayer from services/player_service.go). */
module GameCreation {
  import opened Wrappers
  import opened Text
  import opened Models
  import opened ScoringHelpers
  import opened Store
  import opened GameRounds
  import opened Factions

  /** A requested seat: an optional player id (as text), a name and a faction. */
  datatype PlayerInput = PlayerInput(id: string, name: string, faction: string)

  datatype SelectedPlayer = SelectedPlayer(player: Player, faction: string)

  /** The players table, shared by all games. */
  class Directory {
    var players: seq<Player>

    constructor (players: seq<Player>)
      ensures this.players == players
    {
      this.players := players;
    }

    /** CreatePlayer: inserts a player with the given name and a fresh id. */
    method CreatePlayer(name: string) returns (p: Player)
      modifies this
      ensures p.name == name
      ensures forall i :: 0 <= i < |old(players)| ==> old(players)[i].id < p.id
      ensures players == old(players) + [p]
    {
      p := Player(FreshPlayerId(players), name);
      players := players + [p];
    }
  }

  function FreshPlayerId(players: seq<Player>): (id: nat)
    ensures id > 0
    ensures forall i :: 0 <= i < |players| ==> players[i].id < id
  {
    if |players| == 0 then 1
    else
      var rest := FreshPlayerId(players[1..]);
      assert forall i :: 1 <= i < |players| ==> players[i] == players[1..][i - 1];
      if players[0].id < rest then rest else players[0].id + 1
  }

  /** A player with the two keys it is filed under: its id in decimal and its lower-cased name. */
  datatype Filed = Filed(idKey: string, nameKey: string, player: Player)

  function Filing(p: Player): Filed
  {
    Filed(IntToString(p.id), ToLower(p.name), p)
  }

  function Filings(all: seq<Player>): (r: seq<Filed>)
    ensures |r| == |all|
    ensures forall i :: 0 <= i < |all| ==> r[i] == Filing(all[i])
  {
    seq(|all|, i requires 0 <= i < |all| => Filing(all[i]))
  }

  predicate IsKeyOf(k: string, f: Filed)
  {
    k == f.idKey || k == f.nameKey
  }

  /** The map built from filed players in order: for each the id key, then the name key, each
      overwriting any earlier entry. */
  function MapOf(fs: seq<Filed>): map<string, Player>
  {
    if |fs| == 0 then map[]
    else
      var f := fs[|fs| - 1];
      MapOf(fs[..|fs| - 1])[f.idKey := f.player][f.nameKey := f.player]
  }

  /** The lookup map of ParseAndValidatePlayers, over the players table in table order. */
  function PlayerMapOf(all: seq<Player>): map<string, Player>
  {
    MapOf(Filings(all))
  }

  /** The last entry filed under key `k`. */
  function LastWithKey(fs: seq<Filed>, k: string): (r: Option<nat>)
    ensures r.None? <==> forall i :: 0 <= i < |fs| ==> !IsKeyOf(k, fs[i])
    ensures r.Some? ==> r.value < |fs| && IsKeyOf(k, fs[r.value])
                        && forall j :: r.value < j < |fs| ==> !IsKeyOf(k, fs[j])
  {
    if |fs| == 0 then None
    else if IsKeyOf(k, fs[|fs| - 1]) then Some(|fs| - 1)
    else LastWithKey(fs[..|fs| - 1], k)
  }

  /** A key is in the lookup map exactly when some player is filed under it, and it maps to
      the last such player: later rows win. */
  lemma {:induction false} MapEntry(fs: seq<Filed>, k: string)
    ensures k in MapOf(fs) <==> LastWithKey(fs, k).Some?
    ensures k in MapOf(fs) ==> MapOf(fs)[k] == fs[LastWithKey(fs, k).value].player
  {
    if |fs| > 0 {
      MapEntry(fs[..|fs| - 1], k);
    }
  }

  /** The same, for the players table: a key maps to the last player whose id or lower-cased
      name it is. */
  lemma PlayerMapEntry(all: seq<Player>, k: string)
    ensures k in PlayerMapOf(all) <==> LastWithKey(Filings(all), k).Some?
    ensures k in PlayerMapOf(all) ==> PlayerMapOf(all)[k] == all[LastWithKey(Filings(all), k).value]
  {
    MapEntry(Filings(all), k);
  }

  /** Builds the lookup map with one pass over the players table. */
  method BuildPlayerMap(all: seq<Player>) returns (m: map<string, Player>)
    ensures m == PlayerMapOf(all)
  {
    ghost var fs := Filings(all);
    m := map[];
    var i := 0;
    while i < |all|
      invariant 0 <= i <= |all|
      invariant m == MapOf(fs[..i])
    {
      var p := all[i];
      m := m[IntToString(p.id) := p];
      m := m[ToLower(p.name) := p];
      assert fs[..i + 1][..i] == fs[..i];
      i := i + 1;
    }
    assert fs[..i] == fs;
  }

  /** The lookup key: the given id when it is non-empty, else the lower-cased name. */
  function LookupKey(p: PlayerInput): (k: string)
    ensures p.id != "" ==> k == p.id
    ensures p.id == "" ==> k == ToLower(p.name)
  {
    if p.id != "" then p.id else ToLower(p.name)
  }

  const MsgBlankName := "player name cannot be blank"

  function InvalidFactionMessage(faction: string): string
  {
    "invalid faction: " + faction
  }

  /** Why an input is refused, if it is: first a name that `strings.TrimSpace` empties (which
      is exactly a blank name, by TrimSpaceEmpty), then an unknown faction. */
  function InputError(p: PlayerInput): (r: Option<string>)
    ensures r.None? <==> !IsBlank(p.name) && IsValidFaction(p.faction)
    ensures IsBlank(p.name) ==> r == Some(MsgBlankName)
    ensures !IsBlank(p.name) && !IsValidFaction(p.faction) ==> r == Some(InvalidFactionMessage(p.faction))
  {
    if IsBlank(p.name) then Some(MsgBlankName)
    else if !IsValidFaction(p.faction) then Some(InvalidFactionMessage(p.faction))
    else None
  }

  /** The first refused input. */
  function FirstInvalid(inputs: seq<PlayerInput>): (r: Option<nat>)
    ensures r.None? <==> forall i :: 0 <= i < |inputs| ==> InputError(inputs[i]).None?
    ensures r.Some? ==> r.value < |inputs| && InputError(inputs[r.value]).Some?
                        && forall j :: 0 <= j < r.value ==> InputError(inputs[j]).None?
  {
    if |inputs| == 0 then None
    else if InputError(inputs[0]).Some? then Some(0)
    else
      var r := FirstInvalid(inputs[1..]);
      assert forall j :: 1 <= j < |inputs| ==> inputs[j] == inputs[1..][j - 1];
      if r.Some? then Some(r.value + 1) else None
  }

  lemma {:induction false} FirstInvalidAt(inputs: seq<PlayerInput>, i: nat)
    requires i < |inputs| && InputError(inputs[i]).Some?
    requires forall j :: 0 <= j < i ==> InputError(inputs[j]).None?
    ensures FirstInvalid(inputs) == Some(i)
  {
    if i > 0 {
      var tail := inputs[1..];
      assert InputError(inputs[0]).None?;
      assert tail[i - 1] == inputs[i];
      assert forall j :: 0 <= j < i - 1 ==> tail[j] == inputs[j + 1];
      FirstInvalidAt(tail, i - 1);
    }
  }

  /** The number of inputs whose key is not in the lookup map: each creates a player. */
  function Unmatched(m: map<string, Player>, inputs: seq<PlayerInput>): nat
  {
    if |inputs| == 0 then 0
    else Unmatched(m, inputs[..|inputs| - 1]) + (if LookupKey(inputs[|inputs| - 1]) in m then 0 else 1)
  }

  lemma UnmatchedStep(m: map<string, Player>, inputs: seq<PlayerInput>, i: nat)
    requires i < |inputs|
    ensures Unmatched(m, inputs[..i + 1]) == Unmatched(m, inputs[..i]) + (if LookupKey(inputs[i]) in m then 0 else 1)
  {
    assert inputs[..i + 1][..i] == inputs[..i];
  }

  /** How an accepted input was resolved: to the mapped player, or to a player created
      during the call (at or after position `n0` of the table) with the input's name. */
  predicate Resolved(m: map<string, Player>, p: Player, input: PlayerInput, n0: nat, table: seq<Player>)
  {
    if LookupKey(input) in m then p == m[LookupKey(input)]
    else p.name == input.name && exists k :: n0 <= k < |table| && table[k] == p
  }

  /** One iteration of ParseAndValidatePlayers: the blank-name check, then the lookup (creating
      an unknown player), then the faction check. */
  method ParseOne(dir: Directory, m: map<string, Player>, p: PlayerInput) returns (r: Result<Player>)
    modifies dir
    ensures r.Err? <==> InputError(p).Some?
    ensures r.Err? ==> r.msg == InputError(p).value
    ensures IsBlank(p.name) ==> dir.players == old(dir.players)
    ensures !IsBlank(p.name) && LookupKey(p) in m ==> dir.players == old(dir.players)
    ensures !IsBlank(p.name) && LookupKey(p) !in m ==> exists q :: dir.players == old(dir.players) + [q] && q.name == p.name
    ensures r.Ok? && LookupKey(p) in m ==> r.value == m[LookupKey(p)]
    ensures r.Ok? && LookupKey(p) !in m ==> r.value.name == p.name && dir.players == old(dir.players) + [r.value]
  {
    if IsBlank(p.name) {
      return Err(MsgBlankName);
    }
    var lookup := ToLower(p.name);
    if p.id != "" {
      lookup := p.id;
    }
    var player: Player;
    if lookup in m {
      player := m[lookup];
    } else {
      player := dir.CreatePlayer(p.name);
    }
    if !IsValidFaction(p.faction) {
      return Err(InvalidFactionMessage(p.faction));
    }
    r := Ok(player);
  }

  /** ParseAndValidatePlayers: resolves every input to a player, creating unknown players on
      the way, and stops at the first blank name or unknown faction. Players are created before
      the faction is checked, and the lookup map is not refreshed, so an unknown name given
      twice creates two players. */
  method ParseAndValidatePlayers(dir: Directory, inputs: seq<PlayerInput>) returns (r: Result<seq<SelectedPlayer>>)
    modifies dir
    ensures |old(dir.players)| <= |dir.players| && dir.players[..|old(dir.players)|] == old(dir.players)
    ensures r.Err? <==> FirstInvalid(inputs).Some?
    ensures r.Err? ==> r.msg == InputError(inputs[FirstInvalid(inputs).value]).value
    ensures r.Ok? ==> |r.value| == |inputs|
                      && |dir.players| == |old(dir.players)| + Unmatched(PlayerMapOf(old(dir.players)), inputs)
    ensures r.Ok? ==> forall i :: 0 <= i < |inputs| ==>
                        r.value[i].faction == inputs[i].faction
                        && Resolved(PlayerMapOf(old(dir.players)), r.value[i].player, inputs[i], |old(dir.players)|, dir.players)
  {
    var m := BuildPlayerMap(dir.players);
    ghost var n0 := |dir.players|;
    ghost var before := dir.players;
    var selected: seq<SelectedPlayer> := [];
    var i := 0;
    while i < |inputs|
      invariant 0 <= i <= |inputs|
      invariant n0 <= |dir.players| && dir.players[..n0] == before
      invariant Progress(m, inputs, i, selected, n0, dir.players)
    {
      ghost var table := dir.players;
      var one := ParseOne(dir, m, inputs[i]);
      if one.Err? {
        FirstInvalidAt(inputs, i);
        return Err(one.msg);
      }
      var player := one.value;
      ProgressStep(m, inputs, i, selected, n0, table, dir.players, player);
      selected := selected + [SelectedPlayer(player, inputs[i].faction)];
      i := i + 1;
    }
    assert inputs[..i] == inputs;
    r := Ok(selected);
  }

  /** What the first `i` iterations of ParseAndValidatePlayers have established, `table` being
      the players table so far. */
  ghost predicate Progress(m: map<string, Player>, inputs: seq<PlayerInput>, i: nat, selected: seq<SelectedPlayer>,
                           n0: nat, table: seq<Player>)
  {
    i <= |inputs| && |selected| == i && n0 <= |table|
    && |table| == n0 + Unmatched(m, inputs[..i])
    && (forall j :: 0 <= j < i ==> InputError(inputs[j]).None?)
    && (forall j :: 0 <= j < i ==>
          selected[j].faction == inputs[j].faction && Resolved(m, selected[j].player, inputs[j], n0, table))
  }

  /** One accepted input extends the progress. */
  lemma ProgressStep(m: map<string, Player>, inputs: seq<PlayerInput>, i: nat, selected: seq<SelectedPlayer>,
                     n0: nat, table: seq<Player>, table': seq<Player>, player: Player)
    requires Progress(m, inputs, i, selected, n0, table) && i < |inputs|
    requires InputError(inputs[i]).None?
    requires LookupKey(inputs[i]) in m ==> player == m[LookupKey(inputs[i])] && table' == table
    requires LookupKey(inputs[i]) !in m ==> player.name == inputs[i].name && table' == table + [player]
    ensures table'[..n0] == table[..n0]
    ensures Progress(m, inputs, i + 1, selected + [SelectedPlayer(player, inputs[i].faction)], n0, table')
  {
    UnmatchedStep(m, inputs, i);
    var selected' := selected + [SelectedPlayer(player, inputs[i].faction)];
    forall j | 0 <= j < i
      ensures Resolved(m, selected[j].player, inputs[j], n0, table')
    {
      if LookupKey(inputs[j]) !in m {
        var k :| n0 <= k < |table| && table[k] == selected[j].player;
        assert table'[k] == table[k];
      }
    }
    if LookupKey(inputs[i]) !in m {
      assert table'[|table|] == player;
    }
    assert forall j :: 0 <= j < i ==> selected'[j] == selected[j];
  }

  const DefaultWinningPoints := 10
  const AlternateWinningPoints := 14

  /** The winning-point setting: 10 or 14 as requested, anything else becomes 10. */
  function NormaliseWinningPoints(requested: int): (r: int)
    ensures r == DefaultWinningPoints || r == AlternateWinningPoints
    ensures requested == DefaultWinningPoints || requested == AlternateWinningPoints ==> r == requested
    ensures requested != DefaultWinningPoints && requested != AlternateWinningPoints ==> r == DefaultWinningPoints
  {
    if requested != DefaultWinningPoints && requested != AlternateWinningPoints then DefaultWinningPoints else requested
  }

  /** Normalising twice is normalising once. */
  lemma NormaliseIdempotent(requested: int)
    ensures NormaliseWinningPoints(NormaliseWinningPoints(requested)) == NormaliseWinningPoints(requested)
  {
  }

  /** Objective decks are on unless the request turns them off. */
  function UseDecksSetting(requested: Option<bool>): (r: bool)
    ensures requested.None? ==> r
    ensures requested.Some? ==> r == requested.value
  {
    match requested
    case None => true
    case Some(b) => b
  }

  /** The row placed for the i-th drawn Stage I objective: the first two are revealed in round 1. */
  function StageIRow(o: Objective, i: nat, round1: nat): GameObjective
  {
    GameObjective(o.id, if i < 2 then round1 else 0, o.stage, i < 2, i, false)
  }

  /** The row placed for the j-th drawn Stage II objective: waiting, unrevealed. */
  function StageIIRow(o: Objective, j: nat): GameObjective
  {
    GameObjective(o.id, 0, o.stage, false, j, false)
  }

  /** The deck layout of a new game: five Stage I rows at positions 0..4 of which the first two
      are revealed in round 1, then five waiting Stage II rows at positions 0..4. */
  function InitialLayout(round1: nat, stage1: seq<Objective>, stage2: seq<Objective>): (r: seq<GameObjective>)
    requires |stage1| >= 5 && |stage2| >= 5
    ensures |r| == 10
    ensures forall i :: 0 <= i < 5 ==> r[i] == StageIRow(stage1[i], i, round1)
    ensures forall j :: 0 <= j < 5 ==> r[5 + j] == StageIIRow(stage2[j], j)
  {
    seq(5, i requires 0 <= i < 5 => StageIRow(stage1[i], i, round1))
      + seq(5, j requires 0 <= j < 5 => StageIIRow(stage2[j], j))
  }

  /** Both stage lists reach the `[:5]` slices. */
  predicate FillsDeck(stage1: seq<Objective>, stage2: seq<Objective>)
  {
    |stage1| >= 5 && |stage2| >= 5
  }

  /** A `[:5]` slice of a shorter list panics; the panic is modelled as this error. */
  const MsgSlicePanic := "runtime error: slice bounds out of range"

  /** AssignObjectivesToGame: inserts the first five objectives of each shuffled stage list in
      the layout above, one row at a time; with fewer than five in either list the slicing
      panics before any insert. */
  method AssignObjectivesToGame(db: Db, round1: nat, stage1: seq<Objective>, stage2: seq<Objective>) returns (r: Outcome)
    requires db.Valid()
    modifies db
    ensures db.Valid()
    ensures !FillsDeck(stage1, stage2) ==> r == Fail(MsgSlicePanic) && db.Snapshot() == old(db.Snapshot())
    ensures FillsDeck(stage1, stage2) ==>
              r == Pass
              && db.Snapshot() == old(db.Snapshot()).(objectives := old(db.objectives) + InitialLayout(round1, stage1, stage2))
  {
    if |stage1| < 5 || |stage2| < 5 {
      return Fail(MsgSlicePanic);
    }
    var layout := InitialLayout(round1, stage1, stage2);
    var i := 0;
    while i < 5
      invariant 0 <= i <= 5
      invariant db.Valid()
      invariant db.Snapshot() == old(db.Snapshot()).(objectives := old(db.objectives) + layout[..i])
    {
      var roundId: nat := 0;
      if i < 2 {
        roundId := round1;
      }
      var row := GameObjective(stage1[i].id, roundId, stage1[i].stage, i < 2, i, false);
      assert row == layout[i];
      db.objectives := db.objectives + [row];
      assert layout[..i + 1] == layout[..i] + [layout[i]];
      i := i + 1;
    }
    var j := 0;
    while j < 5
      invariant 0 <= j <= 5
      invariant db.Valid()
      invariant db.Snapshot() == old(db.Snapshot()).(objectives := old(db.objectives) + layout[..5 + j])
    {
      var row := GameObjective(stage2[j].id, 0, stage2[j].stage, false, j, false);
      assert row == layout[5 + j];
      db.objectives := db.objectives + [row];
      assert layout[..5 + j + 1] == layout[..5 + j] + [layout[5 + j]];
      j := j + 1;
    }
    assert layout[..10] == layout;
    r := Pass;
  }

  /** Counting over a list whose selected rows are exactly its first `k`. */
  lemma {:induction false} CountLeading(s: seq<GameObjective>, keep: GameObjective -> bool, k: nat)
    requires k <= |s|
    requires forall i :: 0 <= i < |s| ==> (keep(s[i]) <==> i < k)
    ensures CountObjectives(s, keep) == k
    decreases |s|
  {
    if |s| > 0 {
      var n := |s| - 1;
      if k == |s| {
        CountLeading(s[..n], keep, n);
      } else {
        CountLeading(s[..n], keep, k);
      }
    }
  }

  /** A fresh layout has two objectives in rounds, both Stage I, so Stage I is revealed next. */
  lemma InitialLayoutCounts(round1: nat, stage1: seq<Objective>, stage2: seq<Objective>)
    requires |stage1| >= 5 && |stage2| >= 5 && round1 > 0
    requires forall i :: 0 <= i < |stage1| ==> stage1[i].stage == "I"
    ensures CountRevealedObjectives(InitialLayout(round1, stage1, stage2)) == 2
    ensures StageIInRounds(InitialLayout(round1, stage1, stage2)) == 2
    ensures DetermineStageToReveal(InitialLayout(round1, stage1, stage2)) == "I"
  {
    var s := InitialLayout(round1, stage1, stage2);
    CountLeading(s, (o: GameObjective) => o.roundId > 0, 2);
    CountLeading(s, (o: GameObjective) => o.stage == "I" && o.roundId > 0, 2);
  }

  /** The objective ids placed in a game are pairwise distinct. */
  predicate DistinctObjectiveIds(objs: seq<GameObjective>)
  {
    forall i, j :: 0 <= i < j < |objs| ==> objs[i].objectiveId != objs[j].objectiveId
  }

  function IndexOfObjective(objs: seq<GameObjective>, id: nat): (r: Option<nat>)
    ensures r.None? <==> forall i :: 0 <= i < |objs| ==> objs[i].objectiveId != id
    ensures r.Some? ==> r.value < |objs| && objs[r.value].objectiveId == id
  {
    if |objs| == 0 then None
    else if objs[0].objectiveId == id then Some(0)
    else
      var r := IndexOfObjective(objs[1..], id);
      assert forall i :: 1 <= i < |objs| ==> objs[i] == objs[1..][i - 1];
      if r.Some? then Some(r.value + 1) else None
  }

  const MsgRoundNotFound := "round not found"
  const MsgObjectiveNotFound := "objective not found"
  const MsgAlreadyAssigned := "objective already assigned to this game"

  /** The number of objectives of a stage already placed: the position of the next one. */
  function StageCount(objs: seq<GameObjective>, stage: string): nat
  {
    CountObjectives(objs, (o: GameObjective) => o.stage == stage)
  }

  /** ManuallyAssignObjective: places a catalog objective, revealed, in the round with the given
      number, after the objectives of its stage; refused when the round or the objective does
      not exist, or the objective is already in the game. */
  method ManuallyAssignObjective(db: Db, roundNumber: nat, objectiveId: nat) returns (r: Outcome)
    requires db.Valid()
    modifies db
    ensures db.Valid()
    ensures RoundIdByNumber(old(db.rounds), roundNumber).None? ==> r == Fail(MsgRoundNotFound)
    ensures RoundIdByNumber(old(db.rounds), roundNumber).Some? && FindObjective(db.catalog, objectiveId).None? ==>
              r == Fail(MsgObjectiveNotFound)
    ensures (RoundIdByNumber(old(db.rounds), roundNumber).Some? && FindObjective(db.catalog, objectiveId).Some? &&
             IndexOfObjective(old(db.objectives), objectiveId).Some?) ==> r == Fail(MsgAlreadyAssigned)
    ensures r.Fail? ==> db.Snapshot() == old(db.Snapshot())
    ensures r.Pass? <==> RoundIdByNumber(old(db.rounds), roundNumber).Some? && FindObjective(db.catalog, objectiveId).Some?
                         && IndexOfObjective(old(db.objectives), objectiveId).None?
    ensures r.Pass? ==>
              var o := FindObjective(db.catalog, objectiveId).value;
              db.Snapshot() == old(db.Snapshot()).(objectives := old(db.objectives) +
                [GameObjective(objectiveId, RoundIdByNumber(old(db.rounds), roundNumber).value, o.stage, true,
                               StageCount(old(db.objectives), o.stage), false)])
  {
    var round := RoundIdByNumber(db.rounds, roundNumber);
    if round.None? {
      return Fail(MsgRoundNotFound);
    }
    var obj := FindObjective(db.catalog, objectiveId);
    if obj.None? {
      return Fail(MsgObjectiveNotFound);
    }
    var o := obj.value;
    var existing := IndexOfObjective(db.objectives, o.id);
    if existing.Some? {
      return Fail(MsgAlreadyAssigned);
    }
    var position := StageCount(db.objectives, o.stage);
    db.objectives := db.objectives + [GameObjective(o.id, round.value, o.stage, true, position, false)];
    r := Pass;
  }

  /** A manual assignment keeps the game's objective ids distinct. */
  lemma ManualAssignKeepsDistinct(objs: seq<GameObjective>, row: GameObjective)
    requires DistinctObjectiveIds(objs) && IndexOfObjective(objs, row.objectiveId).None?
    ensures DistinctObjectiveIds(objs + [row])
  {
  }

  /** The inputs of CreateNewGameWithPlayers. */
  datatype CreateGameInput = CreateGameInput(
    players: seq<PlayerInput>,
    winningPoints: int,
    useObjectiveDecks: Option<bool>,
    useRandomSpeaker: Option<bool>)

  /** The game objectives whose round id names a round of the game (the `JOIN rounds`). */
  function InRounds(objs: seq<GameObjective>, rounds: seq<Round>): (r: seq<GameObjective>)
    ensures forall o :: o in r <==> o in objs && exists k :: 0 <= k < |rounds| && rounds[k].id == o.roundId
  {
    if |objs| == 0 then []
    else
      var rest := InRounds(objs[..|objs| - 1], rounds);
      var o := objs[|objs| - 1];
      if exists k :: 0 <= k < |rounds| && rounds[k].id == o.roundId then rest + [o] else rest
  }

  /** Seats the selected players in order (CreateGamePlayer for each). */
  method SeatPlayers(db: Db, selected: seq<SelectedPlayer>)
    requires db.Valid()
    modifies db
    ensures db.Valid()
    ensures |db.players| == |old(db.players)| + |selected| && db.players[..|old(db.players)|] == old(db.players)
    ensures forall k :: 0 <= k < |selected| ==>
              var seat := db.players[|old(db.players)| + k];
              seat.playerId == selected[k].player.id && seat.faction == selected[k].faction && !seat.won
    ensures db.Snapshot() == old(db.Snapshot()).(players := db.players)
  {
    var i := 0;
    while i < |selected|
      invariant 0 <= i <= |selected|
      invariant db.Valid()
      invariant |db.players| == |old(db.players)| + i && db.players[..|old(db.players)|] == old(db.players)
      invariant forall k :: 0 <= k < i ==>
                  var seat := db.players[|old(db.players)| + k];
                  seat.playerId == selected[k].player.id && seat.faction == selected[k].faction && !seat.won
      invariant db.Snapshot() == old(db.Snapshot()).(players := db.players)
    {
      var _ := db.AddGamePlayer(selected[i].player.id, selected[i].faction);
      i := i + 1;
    }
  }

  /** CreateGameAndRound followed by CreateGamePlayer for each selected player. */
  method NewSeatedGame(catalog: seq<Objective>, gameId: nat, winningPoints: int, useDecks: bool,
                       selected: seq<SelectedPlayer>)
    returns (db: Db)
    requires CatalogWellFormed(catalog)
    ensures fresh(db) && db.Valid() && db.catalog == catalog
    ensures db.game == Game(gameId, 1, winningPoints, false, None, useDecks, None)
    ensures db.scores == [] && db.objectives == [] && db.speakers == []
    ensures |db.rounds| == 1 && db.rounds[0].number == 1 && db.rounds[0].id > 0
    ensures |db.players| == |selected|
    ensures forall i :: 0 <= i < |selected| ==>
              db.players[i].playerId == selected[i].player.id && db.players[i].faction == selected[i].faction && !db.players[i].won
  {
    db := new Db(catalog, gameId, winningPoints, useDecks);
    SeatPlayers(db, selected);
  }

  /** The part of CreateNewGameWithPlayers after validation: the game with round 1, the seats in
      order, the optional speaker draw and, with decks on, the objective layout. */
  method SetUpGame(catalog: seq<Objective>, gameId: nat, winningPoints: int, useDecks: bool,
                   selected: seq<SelectedPlayer>, randomSpeaker: bool, pick: nat,
                   stage1: seq<Objective>, stage2: seq<Objective>)
    returns (db: Db, dealt: Outcome, revealed: seq<GameObjective>)
    requires CatalogWellFormed(catalog)
    requires forall i :: 0 <= i < |stage1| ==> stage1[i].stage == "I"
    ensures fresh(db) && db.Valid() && db.catalog == catalog
    ensures db.game.id == gameId && db.game.currentRound == 1 && !db.game.finished && db.game.winner.None?
    ensures db.game.winningPoints == winningPoints && db.game.useObjectiveDecks == useDecks
    ensures db.scores == [] && |db.rounds| == 1 && db.rounds[0].number == 1 && db.speakers == []
    ensures |db.players| == |selected|
    ensures forall i :: 0 <= i < |selected| ==>
              db.players[i].playerId == selected[i].player.id && db.players[i].faction == selected[i].faction && !db.players[i].won
    ensures db.game.speakerId.Some? <==> randomSpeaker && |selected| > 0
    ensures db.game.speakerId.Some? ==> exists i :: 0 <= i < |db.players| && db.players[i].id == db.game.speakerId.value
    ensures dealt.Fail? <==> useDecks && !FillsDeck(stage1, stage2)
    ensures dealt.Fail? ==> dealt.msg == MsgSlicePanic && db.objectives == [] && revealed == []
    ensures useDecks && FillsDeck(stage1, stage2) ==>
              db.objectives == InitialLayout(db.rounds[0].id, stage1, stage2)
              && CountRevealedObjectives(db.objectives) == 2
              && DetermineStageToReveal(db.objectives) == "I"
              && revealed == InRounds(db.objectives, db.rounds)
    ensures !useDecks ==> db.objectives == [] && revealed == []
  {
    db := NewSeatedGame(catalog, gameId, winningPoints, useDecks, selected);
    ghost var seats := db.players;
    ghost var round1 := db.rounds[0];
    if randomSpeaker && |db.players| > 0 {
      DrawSpeaker(db, pick);
      assert db.players[pick % |db.players|].id == db.game.speakerId.value;
    }
    assert db.players == seats && db.rounds == [round1];
    revealed := [];
    dealt := Pass;
    if db.game.useObjectiveDecks {
      dealt, revealed := DealObjectives(db, stage1, stage2);
    }
  }

  /** The random speaker choice: the seat at `pick` modulo the number of seats. */
  method DrawSpeaker(db: Db, pick: nat)
    requires db.Valid() && |db.players| > 0
    modifies db
    ensures db.Valid()
    ensures db.Snapshot() == old(db.Snapshot()).(game := old(db.game).(speakerId := Some(old(db.players[pick % |db.players|].id))))
  {
    var chosen := db.players[pick % |db.players|];
    db.game := db.game.(speakerId := Some(chosen.id));
  }

  /** The deck setup of a new game in its first round, and the objectives it placed in a round. */
  method DealObjectives(db: Db, stage1: seq<Objective>, stage2: seq<Objective>) returns (r: Outcome, revealed: seq<GameObjective>)
    requires db.Valid() && db.objectives == [] && |db.rounds| == 1 && db.rounds[0].id > 0
    requires forall i :: 0 <= i < |stage1| ==> stage1[i].stage == "I"
    modifies db
    ensures db.Valid()
    ensures !FillsDeck(stage1, stage2) ==> r == Fail(MsgSlicePanic) && revealed == [] && db.Snapshot() == old(db.Snapshot())
    ensures FillsDeck(stage1, stage2) ==>
              r == Pass
              && db.Snapshot() == old(db.Snapshot()).(objectives := InitialLayout(old(db.rounds[0].id), stage1, stage2))
              && CountRevealedObjectives(db.objectives) == 2 && DetermineStageToReveal(db.objectives) == "I"
              && revealed == InRounds(db.objectives, db.rounds)
  {
    var round1 := db.rounds[0];
    r := AssignObjectivesToGame(db, round1.id, stage1, stage2);
    if r.Fail? {
      return r, [];
    }
    InitialLayoutCounts(round1.id, stage1, stage2);
    assert db.objectives == InitialLayout(round1.id, stage1, stage2);
    revealed := InRounds(db.objectives, db.rounds);
  }

  /** CreateNewGameWithPlayers: normalises the winning points and the deck setting, validates
      the players (stopping at the first refused one), then sets up the game as SetUpGame does.
      `pick` stands for the random speaker draw, taken modulo the number of seats; `stage1` and
      `stage2` are the shuffled Stage I and Stage II lists. */
  method CreateNewGameWithPlayers(dir: Directory, catalog: seq<Objective>, gameId: nat, input: CreateGameInput,
                                  pick: nat, stage1: seq<Objective>, stage2: seq<Objective>)
    returns (r: Result<Db>, revealed: seq<GameObjective>)
    requires CatalogWellFormed(catalog)
    requires forall i :: 0 <= i < |stage1| ==> stage1[i].stage == "I"
    modifies dir
    ensures r.Err? <==> FirstInvalid(input.players).Some?
                        || (UseDecksSetting(input.useObjectiveDecks) && !FillsDeck(stage1, stage2))
    ensures FirstInvalid(input.players).Some? ==> r.msg == InputError(input.players[FirstInvalid(input.players).value]).value
    ensures FirstInvalid(input.players).None? && r.Err? ==> r.msg == MsgSlicePanic
    ensures r.Ok? ==> fresh(r.value) && r.value.Valid() && r.value.catalog == catalog
    ensures r.Ok? ==> r.value.game.id == gameId && r.value.game.currentRound == 1 && !r.value.game.finished
                      && r.value.game.winningPoints == NormaliseWinningPoints(input.winningPoints)
                      && r.value.game.useObjectiveDecks == UseDecksSetting(input.useObjectiveDecks)
    ensures r.Ok? ==> |r.value.players| == |input.players|
                      && forall i :: 0 <= i < |input.players| ==> r.value.players[i].faction == input.players[i].faction
    ensures r.Ok? ==> (r.value.game.speakerId.Some? <==> input.useRandomSpeaker == Some(true) && |input.players| > 0)
  {
    var winningPoints := NormaliseWinningPoints(input.winningPoints);
    var useDecks := UseDecksSetting(input.useObjectiveDecks);
    var selected := ParseAndValidatePlayers(dir, input.players);
    if selected.Err? {
      return Err(selected.msg), [];
    }
    var db, dealt;
    db, dealt, revealed := SetUpGame(catalog, gameId, winningPoints, useDecks, selected.value,
                                     input.useRandomSpeaker == Some(true), pick, stage1, stage2);
    if dealt.Fail? {
      return Err(dealt.msg), [];
    }
    r := Ok(db);
  }
}
