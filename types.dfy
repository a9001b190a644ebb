/** The records of backend/src/game/types.ts, as Dafny values.

    JavaScript numbers become `int`: scores, rounds and team ids are whole numbers in the
    game, and angles are modelled in whole degrees. An optional field (`x?: T`) becomes an
    `Option<T>`, so that "absent" stays distinct from any value. */
module GameTypes {

  datatype Option<T> = None | Some(value: T)

  type RoomId = string
  type SocketId = string

  /** A player. The `userId` field is declared in types.ts but the service never sets or
      reads it, so it is not part of the record here. */
  datatype Player = Player(id: string, name: string, teamId: int, isOwner: bool, socketId: SocketId)

  /** The JavaScript number held in `currentLeaderIndex`. It starts as 0 and is advanced by
      `(i + 1) % players.length`, which is NaN once a team has no players; NaN then stays
      NaN (NaN + 1 is NaN, NaN % n is NaN). */
  datatype LeaderIndex = Index(i: int) | NaN

  datatype Team = Team(id: int, name: string, score: int, players: seq<Player>, currentLeaderIndex: LeaderIndex)

  /** A room. `turnsSinceLeaderRotation` and `wheelSectors` are declared in types.ts but
      never used by the service, so they are not fields here. */
  datatype GameState = GameState(
    id: RoomId,
    teams: seq<Team>,
    currentTeamId: int,
    currentRound: int,
    isGameStarted: bool,
    isGameFinished: bool,
    wheelResult: Option<int>,
    currentAntonyms: Option<(string, string)>,
    currentAssociation: Option<string>,
    arrowPosition: Option<int>,
    winnerTeamId: Option<int>)

  datatype SectorColor = Blue | Red | Yellow

  /** A sector of the wheel covers the half-open arc [startAngle, endAngle). */
  datatype WheelSector = WheelSector(value: int, color: SectorColor, startAngle: int, endAngle: int)
}
