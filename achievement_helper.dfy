/** Shared pieces of the achievement computations (helpers/achievements/achievement_helper.go):
    whether a game qualifies, how many rounds it took, who won it, and how a value compares
    with the standing record. */
module AchievementHelper {
  import opened Wrappers
  import opened Models
  import opened GameRecords

  /** A record holder: a player, with the game and round where the record was set when known. */
  datatype Holder = Holder(playerId: nat, gameId: Option<nat>, roundId: Option<nat>)

  const StatusNew := "new"
  const StatusTied := "tied"

  /** IsFinishedNonPartial: only finished, complete games take part in records. */
  predicate IsFinishedNonPartial(g: GameRecord)
  {
    !g.partial && g.game.finished
  }

  /** The distinct round ids named by the game's rows (`COUNT(DISTINCT round_id)`). */
  function ScoredRoundIds(scores: seq<Score>): set<nat>
  {
    set x | x in scores :: x.roundId
  }

  /** GetRoundCountForGame: the number of round rows; failing that the current round number;
      failing that the number of distinct rounds the rows name. */
  function RoundCount(g: GameRecord): (n: nat)
    ensures |g.rounds| > 0 ==> n == |g.rounds|
    ensures |g.rounds| == 0 && g.game.currentRound > 0 ==> n == g.game.currentRound
    ensures |g.rounds| == 0 && g.game.currentRound <= 0 ==> n == |ScoredRoundIds(g.scores)|
    ensures n == 0 <==> |g.rounds| == 0 && g.game.currentRound <= 0 && |g.scores| == 0
  {
    if |g.rounds| > 0 then |g.rounds|
    else if g.game.currentRound > 0 then g.game.currentRound
    else
      assert |g.scores| > 0 ==> g.scores[0].roundId in ScoredRoundIds(g.scores);
      |ScoredRoundIds(g.scores)|
  }

  /** The player ids of the seats marked as won, in seat order. */
  function WonPlayerIds(players: seq<GamePlayer>): (r: seq<nat>)
    ensures |r| <= |players|
    ensures forall p :: p in r <==> exists k :: 0 <= k < |players| && players[k].won && players[k].playerId == p
  {
    if |players| == 0 then []
    else
      var n := |players| - 1;
      var rest := WonPlayerIds(players[..n]);
      assert forall k :: 0 <= k < n ==> players[..n][k] == players[k];
      if players[n].won then rest + [players[n].playerId] else rest
  }

  /** One holder per listed player, all in the given game. */
  function HoldersFor(ws: seq<nat>, gameId: nat): (hs: seq<Holder>)
    ensures |hs| == |ws|
    ensures forall k :: 0 <= k < |hs| ==> hs[k] == Holder(ws[k], Some(gameId), None)
  {
    seq(|ws|, k requires 0 <= k < |ws| => Holder(ws[k], Some(gameId), None))
  }

  /** The holders of a game's win: its recorded winner alone when there is one, otherwise
      every player whose seat is marked won. */
  function WinnerHolders(g: GameRecord): (hs: seq<Holder>)
    ensures g.game.winner.Some? ==> hs == [Holder(g.game.winner.value, Some(g.game.id), None)]
    ensures g.game.winner.None? ==> forall h :: h in hs <==>
              h.gameId == Some(g.game.id) && h.roundId.None? && h.playerId in WonPlayerIds(g.players)
  {
    if g.game.winner.Some? then [Holder(g.game.winner.value, Some(g.game.id), None)]
    else
      var ws := WonPlayerIds(g.players);
      var hs := HoldersFor(ws, g.game.id);
      assert forall p :: p in ws ==> exists k :: 0 <= k < |ws| && ws[k] == p && hs[k] == Holder(p, Some(g.game.id), None);
      hs
  }

  /** GetWinnerHolders: the winner query, then, without a winner, the loop over won seats. */
  method GetWinnerHolders(g: GameRecord) returns (holders: seq<Holder>)
    ensures holders == WinnerHolders(g)
  {
    if g.game.winner.Some? {
      return [Holder(g.game.winner.value, Some(g.game.id), None)];
    }
    holders := [];
    var i := 0;
    while i < |g.players|
      invariant i <= |g.players|
      invariant holders == HoldersFor(WonPlayerIds(g.players[..i]), g.game.id)
    {
      assert g.players[..i + 1][..i] == g.players[..i];
      if g.players[i].won {
        holders := holders + [Holder(g.players[i].playerId, Some(g.game.id), None)];
      }
      i := i + 1;
    }
    assert g.players[..i] == g.players;
  }

  /** CompareMinRecord: a smaller value than the record, or the first value, is new; an equal
      one ties; a larger one is neither. */
  function CompareMinRecord(current: int, record: Option<int>): (s: string)
    ensures s == StatusNew <==> record.None? || current < record.value
    ensures s == StatusTied <==> record.Some? && current == record.value
    ensures s == "" <==> record.Some? && current > record.value
  {
    if record.None? || current < record.value then StatusNew
    else if current == record.value then StatusTied
    else ""
  }

  /** CompareMaxRecord: a larger value than the record, or the first value, is new; an equal
      one ties; a smaller one is neither. */
  function CompareMaxRecord(current: int, record: Option<int>): (s: string)
    ensures s == StatusNew <==> record.None? || current > record.value
    ensures s == StatusTied <==> record.Some? && current == record.value
    ensures s == "" <==> record.Some? && current < record.value
  {
    if record.None? || current > record.value then StatusNew
    else if current == record.value then StatusTied
    else ""
  }

  function Negate(record: Option<int>): Option<int>
  {
    match record
    case None => None
    case Some(v) => Some(-v)
  }

  /** The two comparisons mirror each other under negation. */
  lemma CompareMirror(current: int, record: Option<int>)
    ensures CompareMinRecord(current, record) == CompareMaxRecord(-current, Negate(record))
  {
  }
}
