/** Speaker assignments: the per-round upsert of AssignSpeaker and the random draw of
    RandomiseSpeaker, whose random index is a parameter. Seat ids are game-player row ids. */
module SpeakerService {
  import opened Wrappers
  import opened Text
  import opened Models
  import opened Store

  /** The first assignment recorded for a round (`WHERE round_id = ? ... First`). */
  function FirstAssignment(speakers: seq<SpeakerAssignment>, roundId: nat): (r: Option<nat>)
    ensures r.Some? ==> r.value < |speakers| && speakers[r.value].roundId == roundId
    ensures r.Some? ==> forall k :: 0 <= k < r.value ==> speakers[k].roundId != roundId
    ensures r.None? ==> forall k :: 0 <= k < |speakers| ==> speakers[k].roundId != roundId
  {
    if |speakers| == 0 then None
    else if speakers[0].roundId == roundId then Some(0)
    else
      match FirstAssignment(speakers[1..], roundId)
      case None => None
      case Some(k) => Some(k + 1)
  }

  /** At most one assignment per round. */
  predicate OnePerRound(speakers: seq<SpeakerAssignment>)
  {
    forall i, j :: 0 <= i < j < |speakers| ==> speakers[i].roundId != speakers[j].roundId
  }

  /** The seat assigned to a round, if any. */
  function SpeakerFor(speakers: seq<SpeakerAssignment>, roundId: nat): (r: Option<nat>)
    ensures r.Some? <==> exists k :: 0 <= k < |speakers| && speakers[k].roundId == roundId
  {
    match FirstAssignment(speakers, roundId)
    case None => None
    case Some(k) => Some(speakers[k].playerId)
  }

  /** The upsert itself: overwrite the round's first assignment, or add one. */
  function Upsert(speakers: seq<SpeakerAssignment>, roundId: nat, seat: nat): seq<SpeakerAssignment>
  {
    match FirstAssignment(speakers, roundId)
    case Some(k) => speakers[k := speakers[k].(playerId := seat)]
    case None => speakers + [SpeakerAssignment(roundId, seat)]
  }

  /** The upsert keeps at most one assignment per round, and afterwards the round's speaker is
      the given seat while every other round keeps its speaker. */
  lemma UpsertMeaning(speakers: seq<SpeakerAssignment>, roundId: nat, seat: nat)
    requires OnePerRound(speakers)
    ensures OnePerRound(Upsert(speakers, roundId, seat))
    ensures SpeakerFor(Upsert(speakers, roundId, seat), roundId) == Some(seat)
    ensures forall r :: r != roundId ==> SpeakerFor(Upsert(speakers, roundId, seat), r) == SpeakerFor(speakers, r)
  {
    var t := Upsert(speakers, roundId, seat);
    forall r | r != roundId ensures SpeakerFor(t, r) == SpeakerFor(speakers, r) {
      SameRoundsAgree(speakers, t, r);
    }
    match FirstAssignment(speakers, roundId)
    case None =>
      assert forall k :: 0 <= k < |speakers| ==> t[k] == speakers[k];
      assert t[|speakers|].roundId == roundId;
    case Some(k) =>
      assert forall j :: 0 <= j < |speakers| && j != k ==> t[j] == speakers[j];
      assert t[k].roundId == roundId;
  }

  /** Two assignment lists that agree on every row of round `r` and on the round of every
      row give the same speaker for `r`. */
  lemma SameRoundsAgree(a: seq<SpeakerAssignment>, b: seq<SpeakerAssignment>, r: nat)
    requires |a| <= |b|
    requires forall k :: 0 <= k < |a| ==> a[k].roundId == b[k].roundId && (a[k].roundId == r ==> a[k] == b[k])
    requires forall k :: |a| <= k < |b| ==> b[k].roundId != r
    ensures SpeakerFor(a, r) == SpeakerFor(b, r)
  {
    var fa := FirstAssignment(a, r);
    if fa.Some? {
      assert b[fa.value] == a[fa.value];
    }
  }

  /** The message for a round number that has no round. */
  function RoundMissingMessage(roundNumber: int, gameId: nat): string
  {
    "could not find round " + IntToString(roundNumber) + " for game " + IntToString(gameId) + ": " + MsgRecordMissing
  }

  const MsgRecordMissing := "record not found"
  const MsgNotInGame := "player does not belong to this game"

  predicate IsSeat(players: seq<GamePlayer>, seat: nat)
  {
    exists k :: 0 <= k < |players| && players[k].id == seat
  }

  /** AssignSpeaker: the round must exist and the seat must belong to this game; then the
      round's assignment is overwritten or created. `otherSeats` are the seat ids of other
      games, which the game-player lookup finds but rejects. */
  method AssignSpeaker(db: Db, roundNumber: int, seat: nat, otherSeats: set<nat>) returns (r: Outcome)
    requires db.Valid()
    modifies db
    ensures db.Valid()
    ensures RoundIdByNumber(old(db.rounds), roundNumber).None? ==>
              r == Fail(RoundMissingMessage(roundNumber, old(db.game.id)))
    ensures RoundIdByNumber(old(db.rounds), roundNumber).Some? && !IsSeat(old(db.players), seat) ==>
              r == Fail(if seat in otherSeats then MsgNotInGame else MsgRecordMissing)
    ensures r.Fail? ==> db.Snapshot() == old(db.Snapshot())
    ensures r.Pass? <==> RoundIdByNumber(old(db.rounds), roundNumber).Some? && IsSeat(old(db.players), seat)
    ensures r.Pass? ==> db.Snapshot() == old(db.Snapshot()).(speakers :=
              Upsert(old(db.speakers), RoundIdByNumber(old(db.rounds), roundNumber).value, seat))
  {
    var round := RoundIdByNumber(db.rounds, roundNumber);
    if round.None? {
      return Fail(RoundMissingMessage(roundNumber, db.game.id));
    }
    if !IsSeat(db.players, seat) {
      return Fail(if seat in otherSeats then MsgNotInGame else MsgRecordMissing);
    }
    var existing := FirstAssignment(db.speakers, round.value);
    if existing.Some? {
      var k := existing.value;
      db.speakers := db.speakers[k := db.speakers[k].(playerId := seat)];
    } else {
      db.speakers := db.speakers + [SpeakerAssignment(round.value, seat)];
    }
    r := Pass;
  }

  /** The round with the smallest number, the first such in storage order
      (`ORDER BY number ASC ... First`). */
  function LowestRound(rounds: seq<Round>): (r: Option<Round>)
    ensures r.None? <==> |rounds| == 0
    ensures r.Some? ==> r.value in rounds && forall k :: 0 <= k < |rounds| ==> r.value.number <= rounds[k].number
  {
    if |rounds| == 0 then None
    else
      match LowestRound(rounds[1..])
      case None => Some(rounds[0])
      case Some(b) => if b.number < rounds[0].number then Some(b) else Some(rounds[0])
  }

  const MsgNoPlayers := "no players found for this game"
  const MsgFetchPlayers := "failed to fetch players"

  /** What RandomiseSpeaker leaves behind for a drawn speaker id: round 1 is created when the
      game has no round, an assignment for the lowest round is always inserted, and the game's
      speaker becomes that id. */
  function RandomisedState(st: State, speaker: nat): (r: State)
    ensures |r.rounds| >= 1 && |r.speakers| == |st.speakers| + 1
    ensures r.scores == st.scores && r.players == st.players && r.objectives == st.objectives
    ensures r.game == st.game.(speakerId := Some(speaker))
    ensures r.speakers[..|st.speakers|] == st.speakers && r.speakers[|st.speakers|].playerId == speaker
    ensures |st.rounds| == 0 ==> r.rounds == [Round(FreshRoundId([]), 1)]
    ensures |st.rounds| > 0 ==> r.rounds == st.rounds && r.speakers[|st.speakers|].roundId == LowestRound(st.rounds).value.id
  {
    var rounds := if |st.rounds| == 0 then [Round(FreshRoundId(st.rounds), 1)] else st.rounds;
    var round := LowestRound(rounds).value;
    st.(rounds := rounds,
        speakers := st.speakers + [SpeakerAssignment(round.id, speaker)],
        game := st.game.(speakerId := Some(speaker)))
  }

  /** RandomiseSpeaker as written. It draws from `players WHERE game_id = ?`, rows of the shared
      players table whose outcome `fetched` stands for (the players table declares no game_id
      column, so on that schema the query fails). Index `pick` modulo the row count stands for
      the random draw. The chosen row's id, a player id, is what the assignment and the game's
      speaker receive, although both hold seat ids everywhere else. */
  method RandomiseSpeaker(db: Db, fetched: Result<seq<Player>>, pick: nat) returns (r: Result<Player>)
    requires db.Valid()
    modifies db
    ensures db.Valid()
    ensures fetched.Err? ==> r == Err(MsgFetchPlayers) && db.Snapshot() == old(db.Snapshot())
    ensures fetched.Ok? && |fetched.value| == 0 ==> r == Err(MsgNoPlayers) && db.Snapshot() == old(db.Snapshot())
    ensures fetched.Ok? && |fetched.value| > 0 ==>
              r == Ok(fetched.value[pick % |fetched.value|])
              && db.Snapshot() == RandomisedState(old(db.Snapshot()), r.value.id)
  {
    if fetched.Err? {
      return Err(MsgFetchPlayers);
    }
    var players := fetched.value;
    if |players| == 0 {
      return Err(MsgNoPlayers);
    }
    var chosen := players[pick % |players|];
    if |db.rounds| == 0 {
      db.rounds := [Round(FreshRoundId(db.rounds), 1)];
    }
    var round := LowestRound(db.rounds).value;
    db.speakers := db.speakers + [SpeakerAssignment(round.id, chosen.id)];
    db.game := db.game.(speakerId := Some(chosen.id));
    r := Ok(chosen);
  }

  /** The draw as evidently intended: from the game's seats, storing the seat id. */
  method RandomiseSeat(db: Db, pick: nat) returns (r: Result<GamePlayer>)
    requires db.Valid()
    modifies db
    ensures db.Valid()
    ensures r.Err? <==> |old(db.players)| == 0
    ensures r.Err? ==> r.msg == MsgNoPlayers && db.Snapshot() == old(db.Snapshot())
    ensures r.Ok? ==> r.value == old(db.players)[pick % |old(db.players)|]
                      && db.Snapshot() == RandomisedState(old(db.Snapshot()), r.value.id)
    ensures r.Ok? ==> db.game.speakerId.Some? && IsSeat(db.players, db.game.speakerId.value)
  {
    if |db.players| == 0 {
      return Err(MsgNoPlayers);
    }
    var chosen := db.players[pick % |db.players|];
    if |db.rounds| == 0 {
      db.rounds := [Round(FreshRoundId(db.rounds), 1)];
    }
    var round := LowestRound(db.rounds).value;
    db.speakers := db.speakers + [SpeakerAssignment(round.id, chosen.id)];
    db.game := db.game.(speakerId := Some(chosen.id));
    r := Ok(chosen);
  }

  /** The corrected draw always leaves a seat of the game as the game's speaker and as the
      lowest round's newest assignment. */
  lemma SeatDrawIsSeat(st: State, pick: nat)
    requires |st.players| > 0
    ensures var seat := st.players[pick % |st.players|].id;
            IsSeat(RandomisedState(st, seat).players, RandomisedState(st, seat).game.speakerId.value)
            && IsSeat(st.players, RandomisedState(st, seat).speakers[|st.speakers|].playerId)
  {
    var k := pick % |st.players|;
    assert st.players[k].id == st.players[k].id;
  }

  /** As written the stored speaker can be no seat of the game at all: with one seat (id 1)
      held by player 7, drawing that player's row stores 7 as the speaker. */
  lemma PlayerIdStoredAsSeat(st: State)
    requires st.players == [GamePlayer(1, 7, "The Arborec", false)]
    ensures RandomisedState(st, Player(7, "Alice").id).game.speakerId == Some(7)
    ensures !IsSeat(RandomisedState(st, Player(7, "Alice").id).players, 7)
  {
  }

  /** Unlike AssignSpeaker, RandomiseSpeaker does not upsert: drawing again for a game whose
      lowest round already has a speaker leaves two assignments for that round. */
  lemma RandomiseCanDuplicate(st: State, speaker: nat)
    requires |st.rounds| > 0
    requires SpeakerFor(st.speakers, LowestRound(st.rounds).value.id).Some?
    ensures !OnePerRound(RandomisedState(st, speaker).speakers)
  {
    var rid := LowestRound(st.rounds).value.id;
    var k := FirstAssignment(st.speakers, rid).value;
    var t := RandomisedState(st, speaker).speakers;
    assert t[k].roundId == rid == t[|st.speakers|].roundId;
  }
}
