# LengthOfLight game service, modelled in Dafny

The backend of LengthOfLight keeps every game room in memory, in the `GameService` class of
`backend/src/game/game.service.ts`. A room holds two teams (ids 1 and 2) with scores, ordered
players and a leader index each, the team whose turn it is, a round number, the started and
finished flags, and the fields of the current round: wheel result, antonym pair, association
and arrow position. The service has one handler per client request:

- `createGame`, `joinGame`, `leaveGame` and `startGame` manage membership;
- `spinWheel`, `setAssociation` and `moveArrow` play a round;
- `confirmArrow` scores the arrow against a fixed wheel of five sectors, ends the game at 20
  points or passes the turn.

Each handler answers `null` when it refuses a request.

The project has five modules.

- `GameTypes` (`types.dfy`) holds the records of `types.ts` as datatypes.
- `Scoring` (`scoring.dfy`) holds the wheel table, JavaScript's `%`, the normalisation of an
  arrow position and the sector lookup. It proves that the five sectors tile the circle.
- `GameRules` (`rules.dfy`) states every handler as a function from the room before to the room
  after. `None` stands for `null`. The contracts say when a request is accepted and what
  changes.
- `GameInvariants` (`invariants.dfy`) defines a room invariant and proves that every handler
  keeps it. It also proves properties of any sequence of requests: balance of automatic joins,
  one owner, scores that never go down, a win that is final, and leaders going round their
  team.
- `Game` (`service.dfy`) holds the registry. Class `GameService` has the two maps `games` and
  `socketToRoom`, and one method per handler that follows the source step by step. Each method
  is proved to store exactly the room that the `GameRules` function computes, and to keep the
  registry invariant `Valid()`. The lookups that loop (`find`, `findIndex`, the team scan of
  `findPlayerBy…`, the sector scan of `calculatePoints`) are methods with loop invariants,
  proved against the recursive functions of `GameRules` and `Scoring`.

### Behaviour of the code worth knowing

- A player reconnects after the start by **name**. No user id is involved.
- `leaveGame` does **not** clamp the leader index.
- A team emptied during the game gets leader index `NaN` at the next `nextTurn` that ends its
  own turn, because JavaScript's `x % 0` is `NaN`. It then stays `NaN`, and that team has no
  leader from then on.
- The win threshold is **20**.
- The wheel is the **fixed** table of sectors [0,60), [60,120), [120,240), [240,300) and
  [300,360), worth 2, 3, 4, 3 and 2 points. It is not a random layout on a half circle.
- `moveArrow` accepts anyone but the current leader, players of the other team included.
- `confirmArrow` checks neither the caller nor `isGameFinished`.
- The leader rotates on **every** turn of its team, and nothing rotates the other team's leader.
- `startGame` resets neither the scores nor the finished flag. Once a team has won, every later
  `confirmArrow` finds it still at 20 or more and finishes the game again, so the turn never
  passes (`GameInvariants.WinIsFinal`).
- A `teamId` that names no team adds nobody, yet the join is accepted and the connection is
  registered.

## Model

| member | source | states |
|---|---|---|
| Scoring.JsRem | backend/src/game/game.service.ts:270 | JavaScript's truncating `%` for a positive divisor: the result differs from the dividend by a multiple of b, lies in [0, b) for a non-negative dividend and in (-b, 0] for a negative one, which fixes it uniquely |
| Scoring.NormalizeAngle | backend/src/game/game.service.ts:270 | `(x % 360 + 360) % 360` lies in [0, 360) and equals the Euclidean `x mod 360` for every integer x |
| Scoring.NormalizeIsEuclidean | backend/src/game/game.service.ts:270 | the JavaScript double remainder agrees with the Euclidean remainder, negative inputs included |
| Scoring.FirstSector | backend/src/game/game.service.ts:273-277 | the position of the first sector whose half-open arc holds the angle: no earlier sector holds it, and None exactly when no sector does |
| Scoring.TilingBounds | backend/src/game/game.service.ts:30-36 | every sector of a tiling of [lo, hi) lies inside [lo, hi) |
| Scoring.TilingPartitions | backend/src/game/game.service.ts:30-36 | a tiling of [lo, hi) finds a sector for an angle exactly when the angle is in [lo, hi), and no angle lies in two sectors |
| Scoring.WheelSectorsTile | backend/src/game/game.service.ts:30-36 | the five sectors of the wheel tile [0, 360) |
| Scoring.Points | backend/src/game/game.service.ts:268-280 | every arrow position earns 2, 3 or 4 points (the `return 0` is unreachable): 4 exactly in [120, 240) mod 360, 2 exactly in [0, 60) or [300, 360) mod 360 |
| Scoring.PointsPeriodic | backend/src/game/game.service.ts:268-270 | adding whole turns to the arrow does not change the points |
| GameRules.FindTeam | backend/src/game/game.service.ts:88 | `teams.find` by id: the first team with the id, None exactly when no team has it |
| GameRules.FindIndex | backend/src/game/game.service.ts:106 | `findIndex` over a team's players: the first matching position, None exactly when none matches |
| GameRules.FindSlot | backend/src/game/game.service.ts:229-243 | team by team, player by player, the first matching player; no earlier player matches; None exactly when no player matches |
| GameRules.EmptyIffNoPlayers | backend/src/game/game.service.ts:78 | every team is empty exactly when the total player count (the `reduce` of leaveGame) is 0 |
| GameRules.AddPlayer | backend/src/game/game.service.ts:89-91 | `push` appends the player to that team's list and changes nothing else of that team or of any other team; the player count grows by one and the owner count by one exactly for an owner |
| GameRules.RemovePlayer | backend/src/game/game.service.ts:108 | `splice(pos, 1)` removes exactly that player, keeps the others in order and the rest of the team; other teams unchanged; one player fewer, one owner fewer exactly for an owner |
| GameRules.SetPlayer | backend/src/game/game.service.ts:64 | the player at the slot is replaced, and nothing else of that team or of any other team changes; with the same owner flag neither the player count nor the owner count changes |
| GameRules.LeaderOf | backend/src/game/game.service.ts:150 | `players[currentLeaderIndex]` is a player exactly when the index is a number within the list |
| GameRules.AdvanceLeader | backend/src/game/game.service.ts:257 | `(i + 1) % players.length` is NaN exactly when the index was NaN or the team has no players; otherwise, for an index of at least -1, it is a valid position equal to (i + 1) mod the size |
| GameRules.NewGame | backend/src/game/game.service.ts:38-50 | the new room: teams 1 and 2 with score 0, no players and leader index 0; team 1 to play; round 1; not started, not finished, nothing of a round set |
| GameRules.StartNewRound | backend/src/game/game.service.ts:245-251 | clears wheel result, antonyms, association and arrow, and changes nothing else |
| GameRules.AssignedTeam | backend/src/game/game.service.ts:72-76 | no team (or team 0) means team 1 exactly when team 1 has no more players than team 2, else team 2; a given team is kept |
| GameRules.Join | backend/src/game/game.service.ts:56-95 | refused exactly after the start for an unknown name; only rosters change; a reconnection rebinds that player's connection and keeps the counts; before the start exactly one player is appended to the chosen team, owner exactly when the room had no players; a team id naming no team leaves the room as it was |
| GameRules.Leave | backend/src/game/game.service.ts:97-111 | only the first player on the connection is removed, the others keep their order; scores, round, leader indices and other teams are unchanged; the owner count does not grow |
| GameRules.Start | backend/src/game/game.service.ts:125-140 | accepted exactly when the caller's player is the owner and no team is empty; then the game is started and the round cleared, with teams, turn, round, finished flag and winner kept |
| GameRules.SpinWheel | backend/src/game/game.service.ts:142-162 | accepted exactly in a started game from the current team's leader; changes only the wheel result (the given angle) and the antonyms (one of the fifteen pairs) |
| GameRules.SetAssociation | backend/src/game/game.service.ts:164-177 | accepted exactly in a started game from the current team's leader; changes only the association |
| GameRules.MoveArrow | backend/src/game/game.service.ts:179-192 | accepted exactly in a started game whose current team exists, from anyone but its leader; changes only the arrow position |
| GameRules.NextTurn | backend/src/game/game.service.ts:253-266 | the turn flips between 1 and 2, the round grows by exactly one, the round is cleared, only the current team's leader index advances, and scores, players and flags are kept |
| GameRules.Scored | backend/src/game/game.service.ts:201-205 | exactly the current team's score grows by the points; nothing else changes |
| GameRules.ConfirmArrow | backend/src/game/game.service.ts:194-217 | accepted exactly in a started game with a placed arrow; the current team gains Points of the arrow; at 20 or more the game finishes with that team as winner and the turn stays, otherwise the turn passes as in NextTurn |
| GameInvariants.NewGameInvariant | backend/src/game/game.service.ts:38-53 | a new room satisfies the room invariant |
| GameInvariants.JoinPreservesInvariant | backend/src/game/game.service.ts:56-95 | an accepted join keeps the room invariant |
| GameInvariants.ReconnectPreservesInvariant | backend/src/game/game.service.ts:60-69 | a reconnection keeps the room invariant |
| GameInvariants.NewPlayerPreservesInvariant | backend/src/game/game.service.ts:71-91 | a join before the start keeps the invariant: at most one owner, every player on the team its teamId names |
| GameInvariants.LeavePreservesInvariant | backend/src/game/game.service.ts:97-111 | removing a player keeps the room invariant |
| GameInvariants.StartPreservesInvariant | backend/src/game/game.service.ts:125-140 | an accepted start keeps the room invariant |
| GameInvariants.ScoredPreservesInvariant | backend/src/game/game.service.ts:201-205 | adding non-negative points keeps the room invariant, and a finished game stays won |
| GameInvariants.NextTurnPreservesInvariant | backend/src/game/game.service.ts:253-266 | passing the turn of an unfinished game keeps the room invariant, including a leader index that is NaN or non-negative |
| GameInvariants.ConfirmPreservesInvariant | backend/src/game/game.service.ts:194-217 | an accepted confirmArrow keeps the room invariant |
| GameInvariants.StepPreservesInvariant | backend/src/game/game.service.ts:56-217 | any one request keeps the room invariant |
| GameInvariants.RunPreservesInvariant | backend/src/game/game.service.ts:56-217 | every room reached by any sequence of requests satisfies the room invariant |
| GameInvariants.StepNeverBack | backend/src/game/game.service.ts:56-217 | one request never lowers a score or the round number, and never clears the started or finished flag |
| GameInvariants.RunNeverBack | backend/src/game/game.service.ts:56-217 | along any sequence of requests scores and round number never decrease, and started or finished rooms stay so |
| GameInvariants.StepAfterWin | backend/src/game/game.service.ts:207-212 | after a win, one more request keeps the game finished with the same winner, team to play and round |
| GameInvariants.WinIsFinal | backend/src/game/game.service.ts:136-137 | after a win no sequence of requests, restarts included, changes the winner, passes the turn or starts a new round |
| GameInvariants.AutoJoinRebalances | backend/src/game/game.service.ts:73-76 | an automatic join before the start is accepted and adds the player to team 1 when team 1 is not larger, else to team 2: the size difference (team 1 minus team 2) grows by one in the first case and shrinks by one in the second |
| GameInvariants.AutoJoinsStayBalanced | backend/src/game/game.service.ts:73-76 | automatic joins keep the two teams within one player of each other |
| GameInvariants.JoinsKeepOneOwner | backend/src/game/game.service.ts:78-91 | joins before the start keep exactly one owner in a room with players and none in an empty room |
| GameInvariants.NewRoomHasOneOwner | backend/src/game/game.service.ts:38-91 | from a new room, any sequence of joins leaves exactly one owner once someone has joined |
| GameInvariants.AdvanceTimes | backend/src/game/game.service.ts:257 | advancing the leader n times changes only the leader index |
| GameInvariants.RotationGoesRound | backend/src/game/game.service.ts:257 | after n turns of a non-empty team its leader index is (i + n) mod the team size |
| GameInvariants.EveryPlayerLeads | backend/src/game/game.service.ts:257 | every player of a non-empty team becomes leader within as many of its turns as it has players |
| Game.FindPlayerIndex | backend/src/game/game.service.ts:106 | the `findIndex` loop returns -1 exactly when no player matches, else the first matching position |
| Game.FindPlayer | backend/src/game/game.service.ts:229-243 | the scan over teams and players returns exactly FindSlot's first match |
| Game.FindPlayerBySocketId | backend/src/game/game.service.ts:229-235 | the first player on the connection, whose socket id is that connection |
| Game.FindPlayerByName | backend/src/game/game.service.ts:237-243 | the first player with the name, whose name is that name |
| Game.ScanSectors | backend/src/game/game.service.ts:272-279 | the sector loop returns the value of the first sector holding the normalised angle, or 0 |
| Game.GameService.constructor | backend/src/game/game.service.ts:7-8 | the registry starts with no room and no connection |
| Game.GameService.GetGame | backend/src/game/game.service.ts:219-221 | a room exactly for a stored id, and then the stored room itself; in a valid registry it carries that id and satisfies the invariant |
| Game.GameService.GetGameBySocketId | backend/src/game/game.service.ts:223-227 | a room exactly when the connection is bound to a non-empty id of a stored room, and then the room stored under that id; in a valid registry it carries that id and satisfies the invariant |
| Game.GameService.CreateGame | backend/src/game/game.service.ts:38-53 | adds exactly one room, NewGame under the fresh id, and leaves every other room and every connection as they were |
| Game.GameService.JoinGame | backend/src/game/game.service.ts:56-95 | an unknown room is refused; otherwise the answer is Join's; an accepted join stores that room and binds the connection; a refused one changes nothing |
| Game.GameService.LeaveGame | backend/src/game/game.service.ts:97-123 | an unbound connection or a missing room changes nothing; otherwise the connection is forgotten and the room becomes Leave's; a room left without players is deleted, and then neither its id nor any connection still bound to it finds a room |
| Game.GameService.CalculatePoints | backend/src/game/game.service.ts:268-280 | the scan of the service's wheel earns exactly Points, so 2, 3 or 4 |
| Game.GameService.StartNewRound | backend/src/game/game.service.ts:245-251 | the room passed in comes back as StartNewRound describes |
| Game.GameService.NextTurn | backend/src/game/game.service.ts:253-266 | the room passed in comes back as NextTurn describes |
| Game.GameService.StartGame | backend/src/game/game.service.ts:125-140 | the answer is Start's; an accepted start stores that room; a refused one changes nothing |
| Game.GameService.SpinWheel | backend/src/game/game.service.ts:142-162 | the answer is SpinWheel's; an accepted spin stores that room; a refused one changes nothing |
| Game.GameService.SetAssociation | backend/src/game/game.service.ts:164-177 | the answer is SetAssociation's; an accepted request stores that room; a refused one changes nothing |
| Game.GameService.MoveArrow | backend/src/game/game.service.ts:179-192 | the answer is MoveArrow's; an accepted move stores that room; a refused one changes nothing |
| Game.GameService.ConfirmArrow | backend/src/game/game.service.ts:194-217 | the answer is ConfirmArrow's; an accepted confirmation stores that room, finished or with the turn passed; a refused one changes nothing |

Every state-changing method of `GameService` also keeps `Valid()`. Under `Valid()`, every room
is stored under its own non-empty id and satisfies `GameInvariants.Invariant`, and every
connection is bound to a non-empty id.

## Left out

- Network, sockets and broadcasting (`game.gateway.ts`), HTTP and framework wiring
  (`game.controller.ts`, `main.ts`, `app.module.ts`) and the frontend are not part of this
  model.
- `uuidv4` and `Math.random` are parameters. These are the fresh room id of `CreateGame`, the new
  player's id of `JoinGame`, and the wheel angle and pair index of `SpinWheel`. They are
  constrained to where the service draws them: a fresh non-empty id, an angle in [0, 360) and
  an index below 15.
- Game.GameService.SpinWheel: the wheel angle is a whole number of degrees. The service draws a
  floating-point number in [0, 360).
- Scoring.Points: arrow positions are whole numbers of degrees. The service accepts any
  floating-point number, including NaN and infinities, and for those `calculatePoints` returns
  0. Fractional and non-finite positions are not modelled.
- Rooms are values. The service stores a room object and mutates it in place, so a room handed
  out earlier would see later changes. The model stores the changed value back in `games`.
  Sharing between returned rooms and stored rooms is not modelled.
- `StartNewRound` and `NextTurn` take and return the room value instead of mutating the object
  passed in.
- GameInvariants.Step and GameInvariants.Run apply requests to one room and keep it after its
  last player leaves. The registry would delete it instead. So the properties proved over Run
  cover every sequence that can actually happen, and more.
- The `userId` of a player, and the `turnsSinceLeaderRotation` and `wheelSectors` of a room,
  are declared in `types.ts` but never set or read by the service, so they are not fields.
  The same holds for the `CHANGE_TEAM` event, which no handler implements.
- Concurrency is not modelled. Node runs the handlers one at a time.
