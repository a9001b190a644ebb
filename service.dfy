/** GameService (backend/src/game/game.service.ts): the registry of rooms and the request
    handlers that change them. The service keeps each room as an object that its handlers
    change in place; here a room is a value, and every handler stores the changed room back
    into `games`. The ids and angles the service draws at random are parameters. */
module Game {
  import opened GameTypes
  import opened Scoring
  import opened GameRules
  import opened GameInvariants

  /** `players.find` / `players.findIndex` on one team: the position of the first player
      with the key, or -1. */
  method FindPlayerIndex(players: seq<Player>, key: PlayerKey) returns (index: int)
    ensures FindIndex(players, key).None? ==> index == -1
    ensures FindIndex(players, key).Some? ==> index == FindIndex(players, key).value
  {
    index := 0;
    while index < |players|
      invariant 0 <= index <= |players|
      invariant forall j :: 0 <= j < index ==> !Matches(players[j], key)
    {
      if Matches(players[index], key) {
        return;
      }
      index := index + 1;
    }
    index := -1;
  }

  /** The loop shared by findPlayerBySocketId and findPlayerByName: team by team, the first
      player with the key. */
  method FindPlayer(game: GameState, key: PlayerKey) returns (r: Option<Slot>)
    ensures r == FindSlot(game.teams, key)
  {
    var t := 0;
    while t < |game.teams|
      invariant 0 <= t <= |game.teams|
      invariant forall u, i :: 0 <= u < t && 0 <= i < |game.teams[u].players| ==> !Matches(game.teams[u].players[i], key)
    {
      var index := FindPlayerIndex(game.teams[t].players, key);
      if index != -1 {
        r := Some(Slot(t, index));
        FirstSlotIsFound(game.teams, key, r.value);
        return;
      }
      t := t + 1;
    }
    r := None;
  }

  /** A matching slot before which no player matches is the one FindSlot finds. */
  lemma FirstSlotIsFound(teams: seq<Team>, key: PlayerKey, s: Slot)
    requires ValidSlot(teams, s) && Matches(teams[s.team].players[s.pos], key)
    requires forall u, i :: 0 <= u < s.team && 0 <= i < |teams[u].players| ==> !Matches(teams[u].players[i], key)
    requires forall i :: 0 <= i < s.pos ==> !Matches(teams[s.team].players[i], key)
    ensures FindSlot(teams, key) == Some(s)
  {
    assert FindSlot(teams, key).Some?;
  }

  /** findPlayerBySocketId: where the first player on this connection sits, if any. */
  method FindPlayerBySocketId(game: GameState, socketId: SocketId) returns (r: Option<Slot>)
    ensures r == FindSlot(game.teams, BySocket(socketId))
    ensures r.Some? ==> ValidSlot(game.teams, r.value) && PlayerAt(game.teams, r.value).socketId == socketId
  {
    r := FindPlayer(game, BySocket(socketId));
  }

  /** findPlayerByName: where the first player with this name sits, if any. */
  method FindPlayerByName(game: GameState, name: string) returns (r: Option<Slot>)
    ensures r == FindSlot(game.teams, ByName(name))
    ensures r.Some? ==> ValidSlot(game.teams, r.value) && PlayerAt(game.teams, r.value).name == name
  {
    r := FindPlayer(game, ByName(name));
  }

  /** The loop of calculatePoints over a sector table: the value of the first sector whose
      arc holds the normalised arrow, or 0. */
  method ScanSectors(sectors: seq<WheelSector>, arrowPosition: int) returns (points: int)
    ensures points == SectorValueAt(sectors, NormalizeAngle(arrowPosition))
  {
    var angle := JsRem(JsRem(arrowPosition, 360) + 360, 360);
    var k := 0;
    while k < |sectors|
      invariant 0 <= k <= |sectors|
      invariant forall j :: 0 <= j < k ==> !InSector(sectors[j], angle)
    {
      var sector := sectors[k];
      if angle >= sector.startAngle && angle < sector.endAngle {
        return sector.value;
      }
      k := k + 1;
    }
    return 0;
  }

  /** Every room is stored under its own, non-empty id and satisfies the room invariant. */
  ghost predicate ValidRooms(games: map<RoomId, GameState>) {
    forall id :: id in games ==> id != "" && games[id].id == id && Invariant(games[id])
  }

  /** Every connection points at a non-empty room id (the room itself may be gone). */
  ghost predicate ValidBindings(socketToRoom: map<SocketId, RoomId>) {
    forall s :: s in socketToRoom ==> socketToRoom[s] != ""
  }

  lemma StoreRoom(games: map<RoomId, GameState>, g: GameState)
    requires ValidRooms(games) && g.id != "" && Invariant(g)
    ensures ValidRooms(games[g.id := g])
  {
  }

  lemma DropRoom(games: map<RoomId, GameState>, id: RoomId)
    requires ValidRooms(games)
    ensures ValidRooms(games - {id})
  {
  }

  lemma Bind(socketToRoom: map<SocketId, RoomId>, socketId: SocketId, id: RoomId)
    requires ValidBindings(socketToRoom) && id != ""
    ensures ValidBindings(socketToRoom[socketId := id])
  {
  }

  lemma Unbind(socketToRoom: map<SocketId, RoomId>, socketId: SocketId)
    requires ValidBindings(socketToRoom)
    ensures ValidBindings(socketToRoom - {socketId})
  {
  }

  /** confirmArrow on a started room whose current team reaches the winning score: the
      room is the scored one, finished, with that team as winner. */
  lemma ConfirmWins(g: GameState, points: int, k: nat)
    requires g.isGameStarted && g.arrowPosition.Some? && points == Points(g.arrowPosition.value)
    requires CurrentTeam(g) == Some(k) && g.teams[k].score + points >= WinScore
    ensures ConfirmArrow(g) == Some(Scored(g, points).(isGameFinished := true, winnerTeamId := Some(g.teams[k].id)))
  {
    ScoredAt(g, points, k);
    assert CurrentTeam(Scored(g, points)) == Some(k);
  }

  /** confirmArrow on a started room whose current team stays below the winning score (or
      is missing): the scored room passes to the next turn. */
  lemma ConfirmPasses(g: GameState, points: int)
    requires g.isGameStarted && g.arrowPosition.Some? && points == Points(g.arrowPosition.value)
    requires !HasWon(Scored(g, points))
    ensures ConfirmArrow(g) == Some(NextTurn(Scored(g, points)))
  {
  }

  /** Scoring adds the points to the team whose turn it is and changes nothing else. */
  lemma ScoredAt(g: GameState, points: int, k: nat)
    requires CurrentTeam(g) == Some(k)
    ensures Scored(g, points) == g.(teams := g.teams[k := g.teams[k].(score := g.teams[k].score + points)])
  {
  }

  /** joinGame after the start, for a name found at slot s: the player there is rebound to
      the new connection. */
  lemma JoinReconnects(g: GameState, socketId: SocketId, playerName: string, teamId: Option<int>, playerId: string, s: Slot)
    requires g.isGameStarted && FindSlot(g.teams, ByName(playerName)) == Some(s)
    ensures Join(g, socketId, playerName, teamId, playerId) == Some(g.(teams := SetPlayer(g.teams, s, PlayerAt(g.teams, s).(socketId := socketId))))
  {
  }

  /** joinGame before the start, once the team id is settled: the new player, owner when
      every team is empty, goes to the team with that id if there is one. */
  lemma JoinAdds(g: GameState, socketId: SocketId, playerName: string, teamId: Option<int>, playerId: string, id: int)
    requires !g.isGameStarted && JoinReadable(g, teamId)
    requires if AutoAssign(teamId) then id == (if |g.teams[0].players| <= |g.teams[1].players| then 1 else 2) else id == teamId.value
    ensures Join(g, socketId, playerName, teamId, playerId) ==
              var p := Player(playerId, playerName, id, AllTeamsEmpty(g.teams), socketId);
              Some(match FindTeam(g.teams, id) case None => g case Some(k) => g.(teams := AddPlayer(g.teams, k, p)))
  {
  }

  class GameService {
    /** Rooms by id. */
    var games: map<RoomId, GameState>
    /** The room each connection joined. */
    var socketToRoom: map<SocketId, RoomId>

    /** Every stored room is stored under its own, non-empty id and satisfies the room
        invariant; every connection points at a non-empty room id (the room itself may be
        gone). */
    ghost predicate Valid()
      reads this
    {
      ValidRooms(games) && ValidBindings(socketToRoom)
    }

    constructor ()
      ensures Valid() && games == map[] && socketToRoom == map[]
    {
      games := map[];
      socketToRoom := map[];
    }

    /** getGame. */
    function GetGame(gameId: RoomId): (r: Option<GameState>)
      reads this
      ensures r.Some? <==> gameId in games
      ensures r.Some? ==> r.value == games[gameId]
      ensures Valid() && r.Some? ==> r.value.id == gameId && Invariant(r.value)
    {
      if gameId in games then Some(games[gameId]) else None
    }

    /** getGameBySocketId: the room this connection joined, while it exists. */
    function GetGameBySocketId(socketId: SocketId): (r: Option<GameState>)
      reads this
      ensures r.Some? <==> socketId in socketToRoom && socketToRoom[socketId] != "" && socketToRoom[socketId] in games
      ensures r.Some? ==> r.value == games[socketToRoom[socketId]]
      ensures Valid() && r.Some? ==> r.value.id == socketToRoom[socketId] && Invariant(r.value)
    {
      if socketId !in socketToRoom || socketToRoom[socketId] == "" then None
      else GetGame(socketToRoom[socketId])
    }

    /** createGame, with the fresh id the service draws as a parameter: one new room, and
        every other room and connection as before. */
    method CreateGame(freshId: RoomId) returns (gameId: RoomId)
      requires Valid() && freshId != "" && freshId !in games
      modifies this
      ensures Valid()
      ensures gameId == freshId
      ensures games == old(games)[gameId := NewGame(gameId)] && socketToRoom == old(socketToRoom)
    {
      gameId := freshId;
      var gameState := NewGame(gameId);
      NewGameInvariant(gameId);
      games := games[gameId := gameState];
    }

    /** joinGame, with the new player's id as a parameter. An accepted join stores the room
        as Join leaves it and binds the connection to the room; a refused one changes
        nothing. */
    method JoinGame(gameId: RoomId, socketId: SocketId, playerName: string, teamId: Option<int>, playerId: string)
      returns (r: Option<GameState>)
      requires Valid()
      modifies this
      ensures Valid()
      ensures gameId !in old(games) ==> r.None?
      ensures gameId in old(games) ==> r == Join(old(games)[gameId], socketId, playerName, teamId, playerId)
      ensures r.Some? ==> games == old(games)[gameId := r.value] && socketToRoom == old(socketToRoom)[socketId := gameId]
      ensures r.None? ==> games == old(games) && socketToRoom == old(socketToRoom)
    {
      if gameId !in games {
        return None;
      }
      var game := games[gameId];
      JoinPreservesInvariant(game, socketId, playerName, teamId, playerId);

      if game.isGameStarted {
        var existingPlayer := FindPlayerByName(game, playerName);
        if existingPlayer.Some? {
          var slot := existingPlayer.value;
          var player := PlayerAt(game.teams, slot);
          JoinReconnects(game, socketId, playerName, teamId, playerId, slot);
          game := game.(teams := SetPlayer(game.teams, slot, player.(socketId := socketId)));
          StoreRoom(games, game);
          Bind(socketToRoom, socketId, gameId);
          games := games[gameId := game];
          socketToRoom := socketToRoom[socketId := gameId];
          return Some(game);
        }
        return None;
      }

      var assignedTeamId: int;
      if teamId.None? || teamId.value == 0 {
        assignedTeamId := if |game.teams[0].players| <= |game.teams[1].players| then 1 else 2;
      } else {
        assignedTeamId := teamId.value;
      }
      JoinAdds(game, socketId, playerName, teamId, playerId, assignedTeamId);

      var isOwner := AllTeamsEmpty(game.teams);
      var newPlayer := Player(playerId, playerName, assignedTeamId, isOwner, socketId);

      var team := FindTeam(game.teams, assignedTeamId);
      if team.Some? {
        game := game.(teams := AddPlayer(game.teams, team.value, newPlayer));
      }

      StoreRoom(games, game);
      Bind(socketToRoom, socketId, gameId);
      games := games[gameId := game];
      socketToRoom := socketToRoom[socketId := gameId];
      return Some(game);
    }

    /** leaveGame: the first player on the connection leaves and the connection is
        forgotten; a room left without players is deleted, and then neither its id nor any
        connection that pointed at it finds a room. */
    method LeaveGame(socketId: SocketId) returns (r: Option<(RoomId, GameState)>)
      requires Valid()
      modifies this
      ensures Valid()
      ensures socketId !in old(socketToRoom) || old(socketToRoom)[socketId] !in old(games) ==>
                r.None? && games == old(games) && socketToRoom == old(socketToRoom)
      ensures socketId in old(socketToRoom) && old(socketToRoom)[socketId] in old(games) ==>
                var gameId := old(socketToRoom)[socketId];
                var after := Leave(old(games)[gameId], socketId);
                && socketToRoom == old(socketToRoom) - {socketId}
                && (CountPlayers(after.teams) > 0 ==> r == Some((gameId, after)) && games == old(games)[gameId := after])
                && (CountPlayers(after.teams) == 0 ==> r.None? && games == old(games) - {gameId})
                && (CountPlayers(after.teams) == 0 ==>
                      GetGame(gameId).None? && forall s :: s in socketToRoom && socketToRoom[s] == gameId ==> GetGameBySocketId(s).None?)
    {
      if socketId !in socketToRoom || socketToRoom[socketId] == "" {
        return None;
      }
      var gameId := socketToRoom[socketId];
      if gameId !in games {
        return None;
      }
      var game := games[gameId];
      LeavePreservesInvariant(game, socketId);

      var teams := game.teams;
      var t := 0;
      while t < |teams|
        invariant 0 <= t <= |teams| && teams == game.teams
        invariant games == old(games) && socketToRoom == old(socketToRoom)
        invariant forall u, i :: 0 <= u < t && 0 <= i < |teams[u].players| ==> !Matches(teams[u].players[i], BySocket(socketId))
      {
        var playerIndex := FindPlayerIndex(teams[t].players, BySocket(socketId));
        if playerIndex != -1 {
          FirstSlotIsFound(teams, BySocket(socketId), Slot(t, playerIndex));
          teams := RemovePlayer(teams, Slot(t, playerIndex));
          break;
        }
        t := t + 1;
      }
      game := game.(teams := teams);
      assert game == Leave(old(games)[gameId], socketId);

      Unbind(socketToRoom, socketId);
      socketToRoom := socketToRoom - {socketId};

      var totalPlayers := CountPlayers(game.teams);
      if totalPlayers == 0 {
        DropRoom(games, gameId);
        games := games - {gameId};
        return None;
      }
      StoreRoom(games, game);
      games := games[gameId := game];
      return Some((gameId, game));
    }

    /** calculatePoints: the scan of the service's own wheel, which earns the points
        Points describes. */
    method CalculatePoints(arrowPosition: int) returns (points: int)
      ensures points == Points(arrowPosition)
      ensures 2 <= points <= 4
    {
      points := ScanSectors(WheelSectors, arrowPosition);
    }

    /** startNewRound on the room passed in: the room with its round cleared. */
    method StartNewRound(game: GameState) returns (next: GameState)
      ensures next == GameRules.StartNewRound(game)
    {
      next := game;
      next := next.(wheelResult := None);
      next := next.(currentAntonyms := None);
      next := next.(currentAssociation := None);
      next := next.(arrowPosition := None);
    }

    /** nextTurn on the room passed in: the room as GameRules.NextTurn leaves it. */
    method NextTurn(game: GameState) returns (next: GameState)
      ensures next == GameRules.NextTurn(game)
    {
      next := game;
      var currentTeam := FindTeam(next.teams, next.currentTeamId);
      if currentTeam.Some? {
        var k := currentTeam.value;
        next := next.(teams := next.teams[k := next.teams[k].(currentLeaderIndex := AdvanceLeader(next.teams[k]))]);
      }
      next := next.(currentTeamId := if next.currentTeamId == 1 then 2 else 1);
      next := StartNewRound(next);
      next := next.(currentRound := next.currentRound + 1);
    }

    /** startGame. */
    method StartGame(gameId: RoomId, socketId: SocketId) returns (r: Option<GameState>)
      requires Valid()
      modifies this
      ensures Valid()
      ensures gameId !in old(games) ==> r.None?
      ensures gameId in old(games) ==> r == Start(old(games)[gameId], socketId)
      ensures r.Some? ==> games == old(games)[gameId := r.value]
      ensures r.None? ==> games == old(games)
      ensures socketToRoom == old(socketToRoom)
    {
      if gameId !in games {
        return None;
      }
      var game := games[gameId];
      StartPreservesInvariant(game, socketId);

      var player := FindPlayerBySocketId(game, socketId);
      if player.None? || !PlayerAt(game.teams, player.value).isOwner {
        return None;
      }
      if SomeTeamEmpty(game.teams) {
        return None;
      }

      game := game.(isGameStarted := true);
      game := StartNewRound(game);
      games := games[gameId := game];
      return Some(game);
    }

    /** spinWheel, with the random angle and the random pair's position as parameters. */
    method SpinWheel(gameId: RoomId, socketId: SocketId, wheelAngle: int, pairIndex: int) returns (r: Option<GameState>)
      requires Valid() && 0 <= wheelAngle < 360 && 0 <= pairIndex < |AntonymPairs|
      modifies this
      ensures Valid()
      ensures gameId !in old(games) ==> r.None?
      ensures gameId in old(games) ==> r == GameRules.SpinWheel(old(games)[gameId], socketId, wheelAngle, pairIndex)
      ensures r.Some? ==> games == old(games)[gameId := r.value]
      ensures r.None? ==> games == old(games)
      ensures socketToRoom == old(socketToRoom)
    {
      if gameId !in games || !games[gameId].isGameStarted {
        return None;
      }
      var game := games[gameId];
      var currentTeam := FindTeam(game.teams, game.currentTeamId);
      if currentTeam.None? {
        return None;
      }
      var currentLeader := LeaderOf(game.teams[currentTeam.value]);
      if currentLeader.None? || currentLeader.value.socketId != socketId {
        return None;
      }

      game := game.(wheelResult := Some(wheelAngle));
      game := game.(currentAntonyms := Some(AntonymPairs[pairIndex]));
      games := games[gameId := game];
      return Some(game);
    }

    /** setAssociation. */
    method SetAssociation(gameId: RoomId, socketId: SocketId, association: string) returns (r: Option<GameState>)
      requires Valid()
      modifies this
      ensures Valid()
      ensures gameId !in old(games) ==> r.None?
      ensures gameId in old(games) ==> r == GameRules.SetAssociation(old(games)[gameId], socketId, association)
      ensures r.Some? ==> games == old(games)[gameId := r.value]
      ensures r.None? ==> games == old(games)
      ensures socketToRoom == old(socketToRoom)
    {
      if gameId !in games || !games[gameId].isGameStarted {
        return None;
      }
      var game := games[gameId];
      var currentTeam := FindTeam(game.teams, game.currentTeamId);
      if currentTeam.None? {
        return None;
      }
      var currentLeader := LeaderOf(game.teams[currentTeam.value]);
      if currentLeader.None? || currentLeader.value.socketId != socketId {
        return None;
      }

      game := game.(currentAssociation := Some(association));
      games := games[gameId := game];
      return Some(game);
    }

    /** moveArrow. */
    method MoveArrow(gameId: RoomId, socketId: SocketId, position: int) returns (r: Option<GameState>)
      requires Valid()
      modifies this
      ensures Valid()
      ensures gameId !in old(games) ==> r.None?
      ensures gameId in old(games) ==> r == GameRules.MoveArrow(old(games)[gameId], socketId, position)
      ensures r.Some? ==> games == old(games)[gameId := r.value]
      ensures r.None? ==> games == old(games)
      ensures socketToRoom == old(socketToRoom)
    {
      if gameId !in games || !games[gameId].isGameStarted {
        return None;
      }
      var game := games[gameId];
      var currentTeam := FindTeam(game.teams, game.currentTeamId);
      if currentTeam.None? {
        return None;
      }
      var currentLeader := LeaderOf(game.teams[currentTeam.value]);
      if currentLeader.Some? && currentLeader.value.socketId == socketId {
        return None;
      }

      game := game.(arrowPosition := Some(position));
      games := games[gameId := game];
      return Some(game);
    }

    /** confirmArrow. */
    method ConfirmArrow(gameId: RoomId) returns (r: Option<GameState>)
      requires Valid()
      modifies this
      ensures Valid()
      ensures gameId !in old(games) ==> r.None?
      ensures gameId in old(games) ==> r == GameRules.ConfirmArrow(old(games)[gameId])
      ensures r.Some? ==> games == old(games)[gameId := r.value]
      ensures r.None? ==> games == old(games)
      ensures socketToRoom == old(socketToRoom)
    {
      if gameId !in games || !games[gameId].isGameStarted || games[gameId].arrowPosition.None? {
        return None;
      }
      var game := games[gameId];
      ConfirmPreservesInvariant(game);
      ghost var g0 := game;
      var points := CalculatePoints(game.arrowPosition.value);

      var currentTeam := FindTeam(game.teams, game.currentTeamId);
      if currentTeam.Some? {
        var k := currentTeam.value;
        ScoredAt(g0, points, k);
        var team := game.teams[k].(score := game.teams[k].score + points);
        game := game.(teams := game.teams[k := team]);
        if team.score >= WinScore {
          ConfirmWins(g0, points, k);
          game := game.(isGameFinished := true, winnerTeamId := Some(team.id));
          StoreRoom(games, game);
          games := games[gameId := game];
          return Some(game);
        }
        assert CurrentTeam(game) == Some(k);
      }
      assert game == Scored(g0, points) && !HasWon(game);
      ConfirmPasses(g0, points);

      game := NextTurn(game);
      StoreRoom(games, game);
      games := games[gameId := game];
      return Some(game);
    }
  }
}
