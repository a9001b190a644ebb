/** What the rules of GameService keep true of a room, over one operation and over any
    sequence of operations. */
module GameInvariants {
  import opened GameTypes
  import opened Scoring
  import opened GameRules

  predicate TeamInvariant(t: Team) {
    && t.score >= 0
    && (t.currentLeaderIndex.Index? ==> t.currentLeaderIndex.i >= 0)
    && forall j :: 0 <= j < |t.players| ==> t.players[j].teamId == t.id
  }

  /** What holds of every room the registry stores: exactly the two teams 1 and 2, one of
      them to play, a positive round number, at most one owner, no negative score, a leader
      index that is NaN or a non-negative number, every player on the team its teamId
      names, and a finished game won by the team whose turn it still is. */
  predicate Invariant(g: GameState) {
    && |g.teams| == 2 && g.teams[0].id == 1 && g.teams[1].id == 2
    && (g.currentTeamId == 1 || g.currentTeamId == 2)
    && g.currentRound >= 1
    && OwnerCount(g.teams) <= 1
    && TeamInvariant(g.teams[0]) && TeamInvariant(g.teams[1])
    && (g.isGameFinished ==> g.winnerTeamId == Some(g.currentTeamId) && HasWon(g))
  }

  /** In a room with teams 1 and 2, team n is at position n - 1. */
  lemma TeamPositions(teams: seq<Team>, id: int)
    requires |teams| == 2 && teams[0].id == 1 && teams[1].id == 2
    ensures FindTeam(teams, id) == if id == 1 then Some(0) else if id == 2 then Some(1) else None
  {
  }

  lemma NewGameInvariant(id: RoomId)
    ensures Invariant(NewGame(id))
  {
    TeamPositions(NewGame(id).teams, 1);
  }

  /** Rooms that differ at most in their rosters agree on whose turn it is and on a win. */
  lemma SameScoresSameWin(g: GameState, h: GameState)
    requires |g.teams| == 2 && g.teams[0].id == 1 && g.teams[1].id == 2
    requires |h.teams| == 2 && h.teams[0].id == 1 && h.teams[1].id == 2
    requires g.currentTeamId == h.currentTeamId
    requires g.teams[0].score == h.teams[0].score && g.teams[1].score == h.teams[1].score
    ensures CurrentTeam(g) == CurrentTeam(h) && HasWon(g) == HasWon(h)
  {
    TeamPositions(g.teams, g.currentTeamId);
    TeamPositions(h.teams, h.currentTeamId);
  }

  lemma JoinPreservesInvariant(g: GameState, socketId: SocketId, playerName: string, teamId: Option<int>, playerId: string)
    requires Invariant(g)
    ensures Join(g, socketId, playerName, teamId, playerId).Some? ==> Invariant(Join(g, socketId, playerName, teamId, playerId).value)
  {
    if g.isGameStarted {
      ReconnectPreservesInvariant(g, socketId, playerName, teamId, playerId);
    } else {
      NewPlayerPreservesInvariant(g, socketId, playerName, teamId, playerId);
    }
  }

  lemma ReconnectPreservesInvariant(g: GameState, socketId: SocketId, playerName: string, teamId: Option<int>, playerId: string)
    requires Invariant(g) && g.isGameStarted
    ensures Join(g, socketId, playerName, teamId, playerId).Some? ==> Invariant(Join(g, socketId, playerName, teamId, playerId).value)
  {
    var r := Join(g, socketId, playerName, teamId, playerId);
    if r.Some? {
      var h := r.value;
      var s := FindSlot(g.teams, ByName(playerName)).value;
      assert forall j :: 0 <= j < |h.teams[s.team].players| ==> h.teams[s.team].players[j].teamId == g.teams[s.team].players[j].teamId;
      SameScoresSameWin(g, h);
    }
  }

  lemma NewPlayerPreservesInvariant(g: GameState, socketId: SocketId, playerName: string, teamId: Option<int>, playerId: string)
    requires Invariant(g) && !g.isGameStarted
    ensures Invariant(Join(g, socketId, playerName, teamId, playerId).value)
  {
    var h := Join(g, socketId, playerName, teamId, playerId).value;
    var id := AssignedTeam(g, teamId);
    TeamPositions(g.teams, id);
    if id == 1 || id == 2 {
      var k := id - 1;
      OwnersAtMostPlayers(g.teams);
      assert OwnerCount(h.teams) <= 1;
      var ps := h.teams[k].players;
      assert ps == g.teams[k].players + [ps[|ps| - 1]];
      assert ps[|ps| - 1].teamId == id;
      assert TeamInvariant(h.teams[k]);
      SameScoresSameWin(g, h);
    }
  }

  lemma LeavePreservesInvariant(g: GameState, socketId: SocketId)
    requires Invariant(g)
    ensures Invariant(Leave(g, socketId))
  {
    var h := Leave(g, socketId);
    var s := FindSlot(g.teams, BySocket(socketId));
    if s.Some? {
      var t := s.value.team;
      var ps := g.teams[t].players;
      forall j | 0 <= j < |h.teams[t].players|
        ensures h.teams[t].players[j].teamId == g.teams[t].id
      {
        if j < s.value.pos {
          assert h.teams[t].players[j] == ps[j];
        } else {
          assert h.teams[t].players[j] == ps[j + 1];
        }
      }
    }
    SameScoresSameWin(g, h);
  }

  lemma StartPreservesInvariant(g: GameState, socketId: SocketId)
    requires Invariant(g)
    ensures Start(g, socketId).Some? ==> Invariant(Start(g, socketId).value)
  {
    if Start(g, socketId).Some? {
      SameScoresSameWin(g, Start(g, socketId).value);
    }
  }

  /** Adding a non-negative number of points to the current team keeps the invariant; in
      particular a finished game stays won. */
  lemma ScoredPreservesInvariant(g: GameState, points: int)
    requires Invariant(g) && points >= 0
    ensures Invariant(Scored(g, points))
  {
    var h := Scored(g, points);
    TeamPositions(g.teams, g.currentTeamId);
    TeamPositions(h.teams, h.currentTeamId);
    SameRostersSameCounts(g.teams, h.teams);
  }

  /** Passing the turn keeps the invariant of a game that is not finished. */
  lemma NextTurnPreservesInvariant(g: GameState)
    requires Invariant(g) && !g.isGameFinished
    ensures Invariant(NextTurn(g))
  {
    var h := NextTurn(g);
    var k := g.currentTeamId - 1;
    TeamPositions(g.teams, g.currentTeamId);
    SameRostersSameCounts(g.teams, h.teams);
    assert TeamInvariant(h.teams[k]) by {
      assert h.teams[k].currentLeaderIndex == AdvanceLeader(g.teams[k]);
    }
  }

  lemma ConfirmPreservesInvariant(g: GameState)
    requires Invariant(g)
    ensures ConfirmArrow(g).Some? ==> Invariant(ConfirmArrow(g).value)
  {
    if ConfirmArrow(g).Some? {
      var scored := Scored(g, Points(g.arrowPosition.value));
      ScoredPreservesInvariant(g, Points(g.arrowPosition.value));
      if !HasWon(scored) {
        NextTurnPreservesInvariant(scored);
      }
    }
  }

  // ---------------------------------------------------------------------------------
  // Sequences of operations

  /** One client request to a room, with the values the service draws at random (the new
      player's id, the wheel angle, the antonym pair) given in the request. */
  datatype Action =
    | JoinAction(socketId: SocketId, playerName: string, teamId: Option<int>, playerId: string)
    | LeaveAction(socketId: SocketId)
    | StartAction(socketId: SocketId)
    | SpinAction(socketId: SocketId, wheelAngle: int, pairIndex: int)
    | AssociationAction(socketId: SocketId, association: string)
    | MoveArrowAction(socketId: SocketId, position: int)
    | ConfirmAction

  /** The random values lie where the service draws them. */
  predicate ValidAction(a: Action) {
    a.SpinAction? ==> 0 <= a.wheelAngle < 360 && 0 <= a.pairIndex < |AntonymPairs|
  }

  predicate ValidActions(actions: seq<Action>) {
    forall i :: 0 <= i < |actions| ==> ValidAction(actions[i])
  }

  /** The room after one request; a refused request leaves it as it was. */
  function Step(g: GameState, a: Action): (r: GameState)
    requires |g.teams| >= 2 && ValidAction(a)
    ensures |r.teams| == |g.teams|
  {
    var next := match a
      case JoinAction(s, name, teamId, playerId) => Join(g, s, name, teamId, playerId)
      case LeaveAction(s) => Some(Leave(g, s))
      case StartAction(s) => Start(g, s)
      case SpinAction(s, angle, pair) => SpinWheel(g, s, angle, pair)
      case AssociationAction(s, text) => SetAssociation(g, s, text)
      case MoveArrowAction(s, position) => MoveArrow(g, s, position)
      case ConfirmAction => ConfirmArrow(g);
    match next
    case Some(h) => h
    case None => g
  }

  /** The room after a sequence of requests. The registry deletes a room whose last player
      leaves; Run keeps it, so what is proved about Run covers every sequence that can
      actually happen and more. */
  function Run(g: GameState, actions: seq<Action>): (r: GameState)
    requires |g.teams| >= 2 && ValidActions(actions)
    ensures |r.teams| == |g.teams|
    decreases |actions|
  {
    if |actions| == 0 then g else Run(Step(g, actions[0]), actions[1..])
  }

  lemma StepPreservesInvariant(g: GameState, a: Action)
    requires Invariant(g) && ValidAction(a)
    ensures Invariant(Step(g, a))
  {
    match a
    case JoinAction(s, name, teamId, playerId) => JoinPreservesInvariant(g, s, name, teamId, playerId);
    case LeaveAction(s) => LeavePreservesInvariant(g, s);
    case StartAction(s) => StartPreservesInvariant(g, s);
    case SpinAction(s, angle, pair) =>
    case AssociationAction(s, text) =>
    case MoveArrowAction(s, position) =>
    case ConfirmAction => ConfirmPreservesInvariant(g);
  }

  /** Every room reached from a room satisfying the invariant satisfies it. */
  lemma {:induction false} RunPreservesInvariant(g: GameState, actions: seq<Action>)
    requires Invariant(g) && ValidActions(actions)
    ensures Invariant(Run(g, actions))
    decreases |actions|
  {
    if |actions| > 0 {
      StepPreservesInvariant(g, actions[0]);
      RunPreservesInvariant(Step(g, actions[0]), actions[1..]);
    }
  }

  /** What never goes back: team ids, scores, the round number, the started and the
      finished flags. */
  predicate NeverBack(g: GameState, h: GameState) {
    && |h.teams| == |g.teams|
    && (forall k :: 0 <= k < |g.teams| ==> h.teams[k].id == g.teams[k].id && h.teams[k].score >= g.teams[k].score)
    && h.currentRound >= g.currentRound
    && (g.isGameStarted ==> h.isGameStarted)
    && (g.isGameFinished ==> h.isGameFinished)
  }

  lemma StepNeverBack(g: GameState, a: Action)
    requires |g.teams| >= 2 && ValidAction(a)
    ensures NeverBack(g, Step(g, a))
  {
    if a.ConfirmAction? && ConfirmArrow(g).Some? {
      var scored := Scored(g, Points(g.arrowPosition.value));
      if !HasWon(scored) {
        assert ConfirmArrow(g).value == NextTurn(scored);
      }
    }
  }

  /** Along any sequence of requests scores never decrease, the round number never
      decreases, and a started or finished game stays so. */
  lemma {:induction false} RunNeverBack(g: GameState, actions: seq<Action>)
    requires |g.teams| >= 2 && ValidActions(actions)
    ensures NeverBack(g, Run(g, actions))
    decreases |actions|
  {
    if |actions| > 0 {
      var h := Step(g, actions[0]);
      StepNeverBack(g, actions[0]);
      RunNeverBack(h, actions[1..]);
    }
  }

  /** After a win the winner, the team to play and the round number are fixed. */
  predicate SameResult(g: GameState, h: GameState) {
    h.isGameFinished && h.winnerTeamId == g.winnerTeamId && h.currentTeamId == g.currentTeamId && h.currentRound == g.currentRound
  }

  lemma StepAfterWin(g: GameState, a: Action)
    requires Invariant(g) && g.isGameFinished && ValidAction(a)
    ensures SameResult(g, Step(g, a))
  {
    if a.ConfirmAction? && ConfirmArrow(g).Some? {
      TeamPositions(g.teams, g.currentTeamId);
      var scored := Scored(g, Points(g.arrowPosition.value));
      TeamPositions(scored.teams, g.currentTeamId);
      assert HasWon(scored);
    }
  }

  /** Once a team has won, no request ever passes the turn or changes the winner: every
      later confirmArrow finds the same team at 20 or more points and ends the game again,
      and a restart by the owner resets neither the scores nor the finished flag. */
  lemma {:induction false} WinIsFinal(g: GameState, actions: seq<Action>)
    requires Invariant(g) && g.isGameFinished && ValidActions(actions)
    ensures SameResult(g, Run(g, actions))
    decreases |actions|
  {
    if |actions| > 0 {
      var h := Step(g, actions[0]);
      StepAfterWin(g, actions[0]);
      StepPreservesInvariant(g, actions[0]);
      WinIsFinal(h, actions[1..]);
    }
  }

  // ---------------------------------------------------------------------------------
  // Joining before the start

  /** The difference in size between team 1 and team 2. */
  function Imbalance(g: GameState): int
    requires |g.teams| >= 2
  {
    |g.teams[0].players| - |g.teams[1].players|
  }

  /** An automatic join before the start moves the difference one step toward team 1 when
      team 1 is not larger, and one step toward team 2 otherwise. */
  lemma AutoJoinRebalances(g: GameState, socketId: SocketId, playerName: string, teamId: Option<int>, playerId: string)
    requires Invariant(g) && !g.isGameStarted && AutoAssign(teamId)
    ensures Join(g, socketId, playerName, teamId, playerId).Some?
    ensures var h := Join(g, socketId, playerName, teamId, playerId).value;
            Imbalance(h) == if Imbalance(g) <= 0 then Imbalance(g) + 1 else Imbalance(g) - 1
  {
    TeamPositions(g.teams, AssignedTeam(g, teamId));
  }

  predicate AutoJoins(actions: seq<Action>) {
    forall i :: 0 <= i < |actions| ==> actions[i].JoinAction? && AutoAssign(actions[i].teamId)
  }

  /** Automatic joins before the start keep the two teams within one player of each other. */
  lemma {:induction false} AutoJoinsStayBalanced(g: GameState, actions: seq<Action>)
    requires Invariant(g) && !g.isGameStarted && -1 <= Imbalance(g) <= 1
    requires AutoJoins(actions)
    ensures ValidActions(actions)
    ensures var h := Run(g, actions); -1 <= Imbalance(h) <= 1 && !h.isGameStarted
    decreases |actions|
  {
    if |actions| > 0 {
      var a := actions[0];
      AutoJoinRebalances(g, a.socketId, a.playerName, a.teamId, a.playerId);
      JoinPreservesInvariant(g, a.socketId, a.playerName, a.teamId, a.playerId);
      AutoJoinsStayBalanced(Step(g, a), actions[1..]);
    }
  }

  /** A room with players has exactly one owner, an empty room none. */
  predicate OneOwner(g: GameState) {
    OwnerCount(g.teams) == if CountPlayers(g.teams) > 0 then 1 else 0
  }

  predicate Joins(actions: seq<Action>) {
    forall i :: 0 <= i < |actions| ==> actions[i].JoinAction?
  }

  /** Joins before the start, to any team, keep exactly one owner in a room with players:
      the first player added to a room without players is its owner and no one after. */
  lemma {:induction false} JoinsKeepOneOwner(g: GameState, actions: seq<Action>)
    requires Invariant(g) && !g.isGameStarted && OneOwner(g) && Joins(actions)
    ensures ValidActions(actions)
    ensures OneOwner(Run(g, actions))
    decreases |actions|
  {
    if |actions| > 0 {
      var a := actions[0];
      var h := Step(g, a);
      JoinPreservesInvariant(g, a.socketId, a.playerName, a.teamId, a.playerId);
      assert OneOwner(h);
      JoinsKeepOneOwner(h, actions[1..]);
    }
  }

  /** In a new room, whatever the sequence of joins, the first player to be added is the
      only owner. */
  lemma NewRoomHasOneOwner(id: RoomId, actions: seq<Action>)
    requires Joins(actions)
    ensures ValidActions(actions)
    ensures OneOwner(Run(NewGame(id), actions))
  {
    NewGameInvariant(id);
    JoinsKeepOneOwner(NewGame(id), actions);
  }

  // ---------------------------------------------------------------------------------
  // Leader rotation

  /** The team after its leader index has advanced n times. */
  function AdvanceTimes(t: Team, n: nat): (r: Team)
    ensures r == t.(currentLeaderIndex := r.currentLeaderIndex)
    decreases n
  {
    if n == 0 then t else
      var u := AdvanceTimes(t, n - 1);
      u.(currentLeaderIndex := AdvanceLeader(u))
  }

  /** Euclidean division is unique: m * q + r with 0 <= r < m leaves remainder r. */
  lemma ModOfMultiplePlus(m: int, q: int, r: int)
    requires m > 0 && 0 <= r < m
    ensures (m * q + r) % m == r
  {
    var x := m * q + r;
    var d := q - x / m;
    assert x == m * (x / m) + x % m;
    assert m * d == x % m - r;
  }

  lemma ModSuccessor(a: int, m: int)
    requires a >= 0 && m > 0
    ensures (a % m + 1) % m == (a + 1) % m
  {
    var q, r := a / m, a % m;
    assert a == m * q + r;
    if r + 1 < m {
      ModOfMultiplePlus(m, 0, r + 1);
      ModOfMultiplePlus(m, q, r + 1);
    } else {
      ModOfMultiplePlus(m, 0, 0);
      ModOfMultiplePlus(m, q + 1, 0);
      assert a + 1 == m * (q + 1) + 0;
    }
  }

  /** With players and a valid leader index i, after n turns of that team its leader is
      the player at (i + n) mod the team size: the turns go round the team in order. */
  lemma {:induction false} RotationGoesRound(t: Team, n: nat)
    requires |t.players| > 0 && t.currentLeaderIndex.Index? && 0 <= t.currentLeaderIndex.i < |t.players|
    ensures AdvanceTimes(t, n).currentLeaderIndex == Index((t.currentLeaderIndex.i + n) % |t.players|)
    decreases n
  {
    if n > 0 {
      RotationGoesRound(t, n - 1);
      ModSuccessor(t.currentLeaderIndex.i + n - 1, |t.players|);
    }
  }

  /** Every player of a team leads within as many of its turns as it has players. */
  lemma EveryPlayerLeads(t: Team, j: nat)
    requires |t.players| > 0 && t.currentLeaderIndex.Index? && 0 <= t.currentLeaderIndex.i < |t.players|
    requires j < |t.players|
    ensures exists n :: 0 <= n < |t.players| && LeaderOf(AdvanceTimes(t, n)) == Some(t.players[j])
  {
    var m, i := |t.players|, t.currentLeaderIndex.i;
    var n := if j >= i then j - i else j + m - i;
    RotationGoesRound(t, n);
    assert (i + n) % m == j by {
      if j >= i {
        ModOfMultiplePlus(m, 0, j);
        assert i + n == m * 0 + j;
      } else {
        ModOfMultiplePlus(m, 1, j);
        assert i + n == m * 1 + j;
      }
    }
  }
}
