/** The rules of GameService (backend/src/game/game.service.ts) on one room, as functions
    from the room before an operation to the room after it. `None` is the service's `null`:
    the operation was refused and the room is left as it was. */
module GameRules {
  import opened GameTypes
  import opened Scoring

  /** The fifteen pairs of opposite words a spin draws from. */
  const AntonymPairs: seq<(string, string)> := [
    ("Горячий", "Холодный"),
    ("Быстрый", "Медленный"),
    ("Большой", "Маленький"),
    ("Светлый", "Темный"),
    ("Высокий", "Низкий"),
    ("Широкий", "Узкий"),
    ("Длинный", "Короткий"),
    ("Тяжелый", "Легкий"),
    ("Сильный", "Слабый"),
    ("Мягкий", "Твердый"),
    ("Новый", "Старый"),
    ("Богатый", "Бедный"),
    ("Умный", "Глупый"),
    ("Добрый", "Злой"),
    ("Веселый", "Грустный")
  ]

  // ---------------------------------------------------------------------------------
  // Lookups

  /** `teams.find(t => t.id === id)`, as the position of the first team with that id. */
  function FindTeam(teams: seq<Team>, id: int): (r: Option<nat>)
    ensures r.Some? ==> r.value < |teams| && teams[r.value].id == id
    ensures r.Some? ==> forall j :: 0 <= j < r.value ==> teams[j].id != id
    ensures r.None? <==> forall j :: 0 <= j < |teams| ==> teams[j].id != id
    decreases |teams|
  {
    if |teams| == 0 then None
    else if teams[0].id == id then Some(0)
    else match FindTeam(teams[1..], id)
      case None => None
      case Some(k) => Some(k + 1)
  }

  /** What a player is looked up by: the connection (findPlayerBySocketId, leaveGame) or the
      display name (findPlayerByName). */
  datatype PlayerKey = BySocket(socketId: SocketId) | ByName(name: string)

  predicate Matches(p: Player, key: PlayerKey) {
    match key
    case BySocket(s) => p.socketId == s
    case ByName(n) => p.name == n
  }

  /** `players.findIndex(p => ...)`: the position of the first matching player. */
  function FindIndex(players: seq<Player>, key: PlayerKey): (r: Option<nat>)
    ensures r.Some? ==> r.value < |players| && Matches(players[r.value], key)
    ensures r.Some? ==> forall j :: 0 <= j < r.value ==> !Matches(players[j], key)
    ensures r.None? <==> forall j :: 0 <= j < |players| ==> !Matches(players[j], key)
    decreases |players|
  {
    if |players| == 0 then None
    else if Matches(players[0], key) then Some(0)
    else match FindIndex(players[1..], key)
      case None => None
      case Some(k) => Some(k + 1)
  }

  /** Where a player sits: team `team`, position `pos` in that team's list. It stands for
      the object reference the service's lookups return. */
  datatype Slot = Slot(team: nat, pos: nat)

  predicate ValidSlot(teams: seq<Team>, s: Slot) {
    s.team < |teams| && s.pos < |teams[s.team].players|
  }

  /** The first player with the key, scanning the teams in order and each team's players in
      order: the loop of findPlayerBySocketId and findPlayerByName, and the loop of leaveGame. */
  function FindSlot(teams: seq<Team>, key: PlayerKey): (r: Option<Slot>)
    ensures r.Some? ==> ValidSlot(teams, r.value) && Matches(teams[r.value.team].players[r.value.pos], key)
    ensures r.Some? ==> forall t, i :: 0 <= t < |teams| && 0 <= i < |teams[t].players| && (t < r.value.team || (t == r.value.team && i < r.value.pos)) ==> !Matches(teams[t].players[i], key)
    ensures r.None? <==> forall t, i :: 0 <= t < |teams| && 0 <= i < |teams[t].players| ==> !Matches(teams[t].players[i], key)
    decreases |teams|
  {
    if |teams| == 0 then None
    else match FindIndex(teams[0].players, key)
      case Some(i) => Some(Slot(0, i))
      case None =>
        match FindSlot(teams[1..], key)
        case None => None
        case Some(s) =>
          assert forall t :: 1 <= t < |teams| ==> teams[t] == teams[1..][t - 1];
          Some(Slot(s.team + 1, s.pos))
  }

  function PlayerAt(teams: seq<Team>, s: Slot): Player
    requires ValidSlot(teams, s)
  {
    teams[s.team].players[s.pos]
  }

  // ---------------------------------------------------------------------------------
  // Counting

  /** `teams.reduce((sum, team) => sum + team.players.length, 0)`. */
  function CountPlayers(teams: seq<Team>): nat
    decreases |teams|
  {
    if |teams| == 0 then 0 else |teams[0].players| + CountPlayers(teams[1..])
  }

  function CountOwnersIn(players: seq<Player>): nat
    decreases |players|
  {
    if |players| == 0 then 0 else (if players[0].isOwner then 1 else 0) + CountOwnersIn(players[1..])
  }

  /** How many players of the room are owners. */
  function OwnerCount(teams: seq<Team>): nat
    decreases |teams|
  {
    if |teams| == 0 then 0 else CountOwnersIn(teams[0].players) + OwnerCount(teams[1..])
  }

  /** `teams.every(team => team.players.length === 0)`. */
  predicate AllTeamsEmpty(teams: seq<Team>) {
    forall k :: 0 <= k < |teams| ==> |teams[k].players| == 0
  }

  /** `teams.some(team => team.players.length === 0)`. */
  predicate SomeTeamEmpty(teams: seq<Team>) {
    exists k :: 0 <= k < |teams| && |teams[k].players| == 0
  }

  lemma {:induction false} CountPlayersConcat(a: seq<Team>, b: seq<Team>)
    ensures CountPlayers(a + b) == CountPlayers(a) + CountPlayers(b)
    decreases |a|
  {
    if |a| > 0 {
      assert (a + b)[1..] == a[1..] + b;
      CountPlayersConcat(a[1..], b);
    } else {
      assert a + b == b;
    }
  }

  lemma {:induction false} OwnerCountConcat(a: seq<Team>, b: seq<Team>)
    ensures OwnerCount(a + b) == OwnerCount(a) + OwnerCount(b)
    decreases |a|
  {
    if |a| > 0 {
      assert (a + b)[1..] == a[1..] + b;
      OwnerCountConcat(a[1..], b);
    } else {
      assert a + b == b;
    }
  }

  lemma {:induction false} CountOwnersInConcat(a: seq<Player>, b: seq<Player>)
    ensures CountOwnersIn(a + b) == CountOwnersIn(a) + CountOwnersIn(b)
    decreases |a|
  {
    if |a| > 0 {
      assert (a + b)[1..] == a[1..] + b;
      CountOwnersInConcat(a[1..], b);
    } else {
      assert a + b == b;
    }
  }

  /** Replacing one team changes the counts by that team's difference. */
  lemma CountsAfterReplace(teams: seq<Team>, k: nat, t: Team)
    requires k < |teams|
    ensures CountPlayers(teams[k := t]) == CountPlayers(teams) - |teams[k].players| + |t.players|
    ensures OwnerCount(teams[k := t]) == OwnerCount(teams) - CountOwnersIn(teams[k].players) + CountOwnersIn(t.players)
  {
    var before, after := teams[..k], teams[k + 1..];
    assert teams == before + [teams[k]] + after;
    assert teams[k := t] == before + [t] + after;
    CountPlayersConcat(before + [teams[k]], after);
    CountPlayersConcat(before, [teams[k]]);
    CountPlayersConcat(before + [t], after);
    CountPlayersConcat(before, [t]);
    OwnerCountConcat(before + [teams[k]], after);
    OwnerCountConcat(before, [teams[k]]);
    OwnerCountConcat(before + [t], after);
    OwnerCountConcat(before, [t]);
  }

  /** The counts depend on the rosters only. */
  lemma {:induction false} SameRostersSameCounts(a: seq<Team>, b: seq<Team>)
    requires |a| == |b| && forall k :: 0 <= k < |a| ==> a[k].players == b[k].players
    ensures CountPlayers(a) == CountPlayers(b) && OwnerCount(a) == OwnerCount(b)
    decreases |a|
  {
    if |a| > 0 {
      SameRostersSameCounts(a[1..], b[1..]);
    }
  }

  /** A room has no players exactly when every team is empty. */
  lemma {:induction false} EmptyIffNoPlayers(teams: seq<Team>)
    ensures AllTeamsEmpty(teams) <==> CountPlayers(teams) == 0
    decreases |teams|
  {
    if |teams| > 0 {
      EmptyIffNoPlayers(teams[1..]);
      assert forall k :: 1 <= k < |teams| ==> teams[k] == teams[1..][k - 1];
    }
  }

  /** There are never more owners than players. */
  lemma {:induction false} OwnersAtMostPlayers(teams: seq<Team>)
    ensures OwnerCount(teams) <= CountPlayers(teams)
    decreases |teams|
  {
    if |teams| > 0 {
      OwnersInAtMostLength(teams[0].players);
      OwnersAtMostPlayers(teams[1..]);
    }
  }

  lemma {:induction false} OwnersInAtMostLength(players: seq<Player>)
    ensures CountOwnersIn(players) <= |players|
    decreases |players|
  {
    if |players| > 0 {
      OwnersInAtMostLength(players[1..]);
    }
  }

  // ---------------------------------------------------------------------------------
  // Roster updates

  /** `team.players.push(p)` on the team at position k. */
  function AddPlayer(teams: seq<Team>, k: nat, p: Player): (r: seq<Team>)
    requires k < |teams|
    ensures |r| == |teams| && r[k].players == teams[k].players + [p]
    ensures r[k] == teams[k].(players := r[k].players)
    ensures forall j :: 0 <= j < |teams| && j != k ==> r[j] == teams[j]
    ensures CountPlayers(r) == CountPlayers(teams) + 1
    ensures OwnerCount(r) == OwnerCount(teams) + (if p.isOwner then 1 else 0)
  {
    var t := teams[k].(players := teams[k].players + [p]);
    CountsAfterReplace(teams, k, t);
    CountOwnersInConcat(teams[k].players, [p]);
    teams[k := t]
  }

  /** `players.splice(pos, 1)` on the team of the slot: the remaining players keep their order. */
  function RemovePlayer(teams: seq<Team>, s: Slot): (r: seq<Team>)
    requires ValidSlot(teams, s)
    ensures |r| == |teams| && r[s.team].players == teams[s.team].players[..s.pos] + teams[s.team].players[s.pos + 1..]
    ensures r[s.team] == teams[s.team].(players := r[s.team].players)
    ensures forall k :: 0 <= k < |teams| && k != s.team ==> r[k] == teams[k]
    ensures CountPlayers(r) + 1 == CountPlayers(teams)
    ensures OwnerCount(r) + (if PlayerAt(teams, s).isOwner then 1 else 0) == OwnerCount(teams)
  {
    var ps := teams[s.team].players;
    var t := teams[s.team].(players := ps[..s.pos] + ps[s.pos + 1..]);
    assert ps == ps[..s.pos] + [ps[s.pos]] + ps[s.pos + 1..];
    CountOwnersInConcat(ps[..s.pos] + [ps[s.pos]], ps[s.pos + 1..]);
    CountOwnersInConcat(ps[..s.pos], [ps[s.pos]]);
    CountOwnersInConcat(ps[..s.pos], ps[s.pos + 1..]);
    CountsAfterReplace(teams, s.team, t);
    teams[s.team := t]
  }

  /** Replaces the player of the slot by p, which keeps the owner flag. */
  function SetPlayer(teams: seq<Team>, s: Slot, p: Player): (r: seq<Team>)
    requires ValidSlot(teams, s) && p.isOwner == PlayerAt(teams, s).isOwner
    ensures |r| == |teams| && r[s.team].players == teams[s.team].players[s.pos := p]
    ensures r[s.team] == teams[s.team].(players := r[s.team].players)
    ensures forall k :: 0 <= k < |teams| && k != s.team ==> r[k] == teams[k]
    ensures CountPlayers(r) == CountPlayers(teams)
    ensures OwnerCount(r) == OwnerCount(teams)
  {
    var ps := teams[s.team].players;
    var t := teams[s.team].(players := ps[s.pos := p]);
    assert ps == ps[..s.pos] + [ps[s.pos]] + ps[s.pos + 1..];
    assert ps[s.pos := p] == ps[..s.pos] + [p] + ps[s.pos + 1..];
    CountOwnersInConcat(ps[..s.pos] + [ps[s.pos]], ps[s.pos + 1..]);
    CountOwnersInConcat(ps[..s.pos], [ps[s.pos]]);
    CountOwnersInConcat(ps[..s.pos] + [p], ps[s.pos + 1..]);
    CountOwnersInConcat(ps[..s.pos], [p]);
    CountsAfterReplace(teams, s.team, t);
    teams[s.team := t]
  }

  // ---------------------------------------------------------------------------------
  // Leaders

  /** `team.players[team.currentLeaderIndex]`: undefined when the index is out of range or NaN. */
  function LeaderOf(t: Team): (r: Option<Player>)
    ensures r.Some? <==> t.currentLeaderIndex.Index? && 0 <= t.currentLeaderIndex.i < |t.players|
    ensures r.Some? ==> r.value == t.players[t.currentLeaderIndex.i]
  {
    match t.currentLeaderIndex
    case NaN => None
    case Index(i) => if 0 <= i < |t.players| then Some(t.players[i]) else None
  }

  /** The position of the team whose turn it is. */
  function CurrentTeam(g: GameState): Option<nat> {
    FindTeam(g.teams, g.currentTeamId)
  }

  /** The caller is the player at the current team's leader index. */
  predicate IsCurrentLeader(g: GameState, socketId: SocketId) {
    match CurrentTeam(g)
    case None => false
    case Some(k) => LeaderOf(g.teams[k]).Some? && LeaderOf(g.teams[k]).value.socketId == socketId
  }

  /** `(currentLeaderIndex + 1) % players.length`. With players the next index is a valid
      position again, one further round the team; with no players it is NaN. */
  function AdvanceLeader(t: Team): (r: LeaderIndex)
    ensures t.currentLeaderIndex.NaN? || |t.players| == 0 <==> r.NaN?
    ensures t.currentLeaderIndex.Index? && t.currentLeaderIndex.i >= -1 && |t.players| > 0 ==>
              r.Index? && 0 <= r.i < |t.players| && r.i == (t.currentLeaderIndex.i + 1) % |t.players|
  {
    match t.currentLeaderIndex
    case NaN => NaN
    case Index(i) => if |t.players| == 0 then NaN else Index(JsRem(i + 1, |t.players|))
  }

  // ---------------------------------------------------------------------------------
  // Operations

  /** The room createGame stores: two empty teams with ids 1 and 2, team 1 to play,
      round 1, not started, nothing of a round set. */
  function NewGame(id: RoomId): (g: GameState)
    ensures g.id == id && |g.teams| == 2 && g.teams[0].id == 1 && g.teams[1].id == 2
    ensures forall k :: 0 <= k < 2 ==> g.teams[k].score == 0 && g.teams[k].players == [] && g.teams[k].currentLeaderIndex == Index(0)
    ensures CountPlayers(g.teams) == 0 && OwnerCount(g.teams) == 0
    ensures g.currentTeamId == 1 && g.currentRound == 1
    ensures !g.isGameStarted && !g.isGameFinished && RoundCleared(g) && g.winnerTeamId.None?
  {
    GameState(id,
      [Team(1, "Команда 1", 0, [], Index(0)), Team(2, "Команда 2", 0, [], Index(0))],
      1, 1, false, false, None, None, None, None, None)
  }

  /** None of the per-round fields is set. */
  predicate RoundCleared(g: GameState) {
    g.wheelResult.None? && g.currentAntonyms.None? && g.currentAssociation.None? && g.arrowPosition.None?
  }

  /** startNewRound: clears the wheel result, the antonyms, the association and the arrow;
      every other field is kept. */
  function StartNewRound(g: GameState): (r: GameState)
    ensures RoundCleared(r)
    ensures r.(wheelResult := g.wheelResult, currentAntonyms := g.currentAntonyms,
               currentAssociation := g.currentAssociation, arrowPosition := g.arrowPosition) == g
  {
    g.(wheelResult := None, currentAntonyms := None, currentAssociation := None, arrowPosition := None)
  }

  /** `!assignedTeamId`: no team given, or team 0. */
  predicate AutoAssign(teamId: Option<int>) {
    teamId.None? || teamId.value == 0
  }

  /** The team a new player asks for: the given one, or team 1 when team 1 has no more
      players than team 2 and team 2 otherwise. */
  function AssignedTeam(g: GameState, teamId: Option<int>): (id: int)
    requires AutoAssign(teamId) ==> |g.teams| >= 2
    ensures AutoAssign(teamId) ==> (id == 1 <==> |g.teams[0].players| <= |g.teams[1].players|) && (id == 1 || id == 2)
    ensures !AutoAssign(teamId) ==> id == teamId.value
  {
    if AutoAssign(teamId) then (if |g.teams[0].players| <= |g.teams[1].players| then 1 else 2)
    else teamId.value
  }

  /** The precondition of joinGame: an automatic team choice reads the first two teams. */
  predicate JoinReadable(g: GameState, teamId: Option<int>) {
    !g.isGameStarted && AutoAssign(teamId) ==> |g.teams| >= 2
  }

  /** joinGame on an existing room. Once the game has started only a reconnection is
      accepted: the first player with that name gets the new connection and nothing else
      changes; an unknown name is refused. Before the start the player is appended to the
      team asked for (or chosen to balance the teams), as owner exactly when the room had no
      players; a team id that names no team adds nobody but is still accepted. */
  function Join(g: GameState, socketId: SocketId, playerName: string, teamId: Option<int>, playerId: string): (r: Option<GameState>)
    requires JoinReadable(g, teamId)
    ensures r.None? <==> g.isGameStarted && FindSlot(g.teams, ByName(playerName)).None?
    ensures r.Some? ==> r.value == g.(teams := r.value.teams) && |r.value.teams| == |g.teams|
    ensures r.Some? ==> forall k :: 0 <= k < |g.teams| ==>
              r.value.teams[k] == g.teams[k].(players := r.value.teams[k].players)
    // reconnection
    ensures r.Some? && g.isGameStarted ==>
              var s := FindSlot(g.teams, ByName(playerName)).value;
              && CountPlayers(r.value.teams) == CountPlayers(g.teams)
              && OwnerCount(r.value.teams) == OwnerCount(g.teams)
              && r.value.teams[s.team].players == g.teams[s.team].players[s.pos := PlayerAt(g.teams, s).(socketId := socketId)]
              && forall k :: 0 <= k < |g.teams| && k != s.team ==> r.value.teams[k] == g.teams[k]
    // new player
    ensures r.Some? && !g.isGameStarted ==>
              var id := AssignedTeam(g, teamId);
              match FindTeam(g.teams, id)
              case None => r.value == g
              case Some(k) =>
                && r.value.teams[k].players == g.teams[k].players + [Player(playerId, playerName, id, CountPlayers(g.teams) == 0, socketId)]
                && CountPlayers(r.value.teams) == CountPlayers(g.teams) + 1
                && OwnerCount(r.value.teams) == OwnerCount(g.teams) + (if CountPlayers(g.teams) == 0 then 1 else 0)
                && forall j :: 0 <= j < |g.teams| && j != k ==> r.value.teams[j] == g.teams[j]
  {
    if g.isGameStarted then
      match FindSlot(g.teams, ByName(playerName))
      case None => None
      case Some(s) =>
        var p := PlayerAt(g.teams, s);
        Some(g.(teams := SetPlayer(g.teams, s, p.(socketId := socketId))))
    else
      var id := AssignedTeam(g, teamId);
      var isOwner := AllTeamsEmpty(g.teams);
      EmptyIffNoPlayers(g.teams);
      var newPlayer := Player(playerId, playerName, id, isOwner, socketId);
      match FindTeam(g.teams, id)
      case None => Some(g)
      case Some(k) => Some(g.(teams := AddPlayer(g.teams, k, newPlayer)))
  }

  /** The player-removal part of leaveGame: the first player on this connection leaves their
      team, the others keep their order, and nothing else changes (in particular no score,
      round or leader index). An unknown connection leaves the room as it was. */
  function Leave(g: GameState, socketId: SocketId): (r: GameState)
    ensures r == g.(teams := r.teams) && |r.teams| == |g.teams|
    ensures forall k :: 0 <= k < |g.teams| ==> r.teams[k] == g.teams[k].(players := r.teams[k].players)
    ensures FindSlot(g.teams, BySocket(socketId)).None? ==> r == g
    ensures FindSlot(g.teams, BySocket(socketId)).Some? ==>
              var s := FindSlot(g.teams, BySocket(socketId)).value;
              && r.teams[s.team].players == g.teams[s.team].players[..s.pos] + g.teams[s.team].players[s.pos + 1..]
              && CountPlayers(r.teams) + 1 == CountPlayers(g.teams)
              && forall k :: 0 <= k < |g.teams| && k != s.team ==> r.teams[k] == g.teams[k]
    ensures OwnerCount(r.teams) <= OwnerCount(g.teams)
  {
    match FindSlot(g.teams, BySocket(socketId))
    case None => g
    case Some(s) =>
      var teams := RemovePlayer(g.teams, s);
      assert forall k :: 0 <= k < |g.teams| ==> teams[k] == g.teams[k].(players := teams[k].players);
      g.(teams := teams)
  }

  /** The caller's connection is that of a room owner (the first player on it). */
  predicate IsOwnerSocket(g: GameState, socketId: SocketId) {
    var s := FindSlot(g.teams, BySocket(socketId));
    s.Some? && PlayerAt(g.teams, s.value).isOwner
  }

  /** startGame: accepted exactly when the caller is the owner and no team is empty. It
      marks the game started and clears the round; teams, scores, turn, round number and the
      finished flag are kept, so a restart resets none of them. */
  function Start(g: GameState, socketId: SocketId): (r: Option<GameState>)
    ensures r.Some? <==> IsOwnerSocket(g, socketId) && !SomeTeamEmpty(g.teams)
    ensures r.Some? ==> r.value.isGameStarted && RoundCleared(r.value)
    ensures r.Some? ==> r.value.teams == g.teams && r.value.id == g.id
    ensures r.Some? ==> r.value.currentTeamId == g.currentTeamId && r.value.currentRound == g.currentRound
    ensures r.Some? ==> r.value.isGameFinished == g.isGameFinished && r.value.winnerTeamId == g.winnerTeamId
  {
    match FindSlot(g.teams, BySocket(socketId))
    case None => None
    case Some(s) =>
      if !PlayerAt(g.teams, s).isOwner then None
      else if SomeTeamEmpty(g.teams) then None
      else Some(StartNewRound(g.(isGameStarted := true)))
  }

  /** spinWheel, with the random angle and the random pair's position as parameters:
      accepted only in a started game and only from the current team's leader; it sets the
      wheel result and one of the fifteen antonym pairs and changes nothing else. */
  function SpinWheel(g: GameState, socketId: SocketId, wheelAngle: int, pairIndex: int): (r: Option<GameState>)
    requires 0 <= wheelAngle < 360 && 0 <= pairIndex < |AntonymPairs|
    ensures r.Some? <==> g.isGameStarted && IsCurrentLeader(g, socketId)
    ensures r.Some? ==> r.value == g.(wheelResult := r.value.wheelResult, currentAntonyms := r.value.currentAntonyms)
    ensures r.Some? ==> r.value.wheelResult == Some(wheelAngle)
    ensures r.Some? ==> r.value.currentAntonyms.Some? && r.value.currentAntonyms.value in AntonymPairs
  {
    if !g.isGameStarted then None
    else match CurrentTeam(g)
      case None => None
      case Some(k) =>
        match LeaderOf(g.teams[k])
        case None => None
        case Some(leader) =>
          if leader.socketId != socketId then None
          else Some(g.(wheelResult := Some(wheelAngle), currentAntonyms := Some(AntonymPairs[pairIndex])))
  }

  /** setAssociation: the same gate as spinWheel; it sets the association only. */
  function SetAssociation(g: GameState, socketId: SocketId, association: string): (r: Option<GameState>)
    ensures r.Some? <==> g.isGameStarted && IsCurrentLeader(g, socketId)
    ensures r.Some? ==> r.value == g.(currentAssociation := r.value.currentAssociation)
    ensures r.Some? ==> r.value.currentAssociation == Some(association)
  {
    if !g.isGameStarted then None
    else match CurrentTeam(g)
      case None => None
      case Some(k) =>
        match LeaderOf(g.teams[k])
        case None => None
        case Some(leader) =>
          if leader.socketId != socketId then None
          else Some(g.(currentAssociation := Some(association)))
  }

  /** moveArrow: accepted in a started game from anyone but the current leader (from
      anyone at all when the leader index points at no player); it sets the arrow only. */
  function MoveArrow(g: GameState, socketId: SocketId, position: int): (r: Option<GameState>)
    ensures r.Some? <==> g.isGameStarted && CurrentTeam(g).Some? && !IsCurrentLeader(g, socketId)
    ensures r.Some? ==> r.value == g.(arrowPosition := r.value.arrowPosition)
    ensures r.Some? ==> r.value.arrowPosition == Some(position)
  {
    if !g.isGameStarted then None
    else match CurrentTeam(g)
      case None => None
      case Some(k) =>
        match LeaderOf(g.teams[k])
        case Some(leader) =>
          if leader.socketId == socketId then None
          else Some(g.(arrowPosition := Some(position)))
        case None => Some(g.(arrowPosition := Some(position)))
  }

  /** nextTurn: the current team's leader index moves one player on, the other team moves
      to play, the round is cleared and the round number grows by one. Scores, players and
      the other team's leader index are kept. */
  function NextTurn(g: GameState): (r: GameState)
    ensures r.currentTeamId == (if g.currentTeamId == 1 then 2 else 1)
    ensures r.currentRound == g.currentRound + 1
    ensures RoundCleared(r)
    ensures r.id == g.id && r.isGameStarted == g.isGameStarted && r.isGameFinished == g.isGameFinished
    ensures r.winnerTeamId == g.winnerTeamId
    ensures |r.teams| == |g.teams|
    ensures forall k :: 0 <= k < |g.teams| ==> r.teams[k] == g.teams[k].(currentLeaderIndex := r.teams[k].currentLeaderIndex)
    ensures forall k :: 0 <= k < |g.teams| ==>
              r.teams[k].currentLeaderIndex == if CurrentTeam(g) == Some(k) then AdvanceLeader(g.teams[k]) else g.teams[k].currentLeaderIndex
  {
    var teams := match CurrentTeam(g)
      case None => g.teams
      case Some(k) => g.teams[k := g.teams[k].(currentLeaderIndex := AdvanceLeader(g.teams[k]))];
    var next := g.(teams := teams, currentTeamId := if g.currentTeamId == 1 then 2 else 1);
    StartNewRound(next).(currentRound := g.currentRound + 1)
  }

  /** The room after confirmArrow has added the arrow's points to the current team. */
  function Scored(g: GameState, points: int): (r: GameState)
    ensures r == g.(teams := r.teams) && |r.teams| == |g.teams|
    ensures forall k :: 0 <= k < |g.teams| ==>
              r.teams[k] == g.teams[k].(score := g.teams[k].score + if CurrentTeam(g) == Some(k) then points else 0)
  {
    match CurrentTeam(g)
    case None => g
    case Some(k) => g.(teams := g.teams[k := g.teams[k].(score := g.teams[k].score + points)])
  }

  /** The current team has reached the winning score. */
  predicate HasWon(g: GameState) {
    match CurrentTeam(g)
    case None => false
    case Some(k) => g.teams[k].score >= WinScore
  }

  /** confirmArrow: accepted in a started game once the arrow is placed (from any caller,
      finished or not). The current team gains the arrow's 2, 3 or 4 points; if it now has
      20 or more the game is finished with that team as winner and the turn stays;
      otherwise the turn passes as in nextTurn. */
  function ConfirmArrow(g: GameState): (r: Option<GameState>)
    ensures r.Some? <==> g.isGameStarted && g.arrowPosition.Some?
    ensures r.Some? ==> |r.value.teams| == |g.teams| && r.value.id == g.id && r.value.isGameStarted
    ensures r.Some? ==> forall k :: 0 <= k < |g.teams| ==>
              && r.value.teams[k].players == g.teams[k].players
              && r.value.teams[k].score == g.teams[k].score + (if CurrentTeam(g) == Some(k) then Points(g.arrowPosition.value) else 0)
    ensures r.Some? && HasWon(Scored(g, Points(g.arrowPosition.value))) ==>
              r.value == Scored(g, Points(g.arrowPosition.value)).(isGameFinished := true, winnerTeamId := Some(g.currentTeamId))
    ensures r.Some? && !HasWon(Scored(g, Points(g.arrowPosition.value))) ==>
              r.value == NextTurn(Scored(g, Points(g.arrowPosition.value)))
  {
    if !g.isGameStarted || g.arrowPosition.None? then None
    else
      var scored := Scored(g, Points(g.arrowPosition.value));
      if HasWon(scored) then Some(scored.(isGameFinished := true, winnerTeamId := Some(g.currentTeamId)))
      else Some(NextTurn(scored))
  }
}
