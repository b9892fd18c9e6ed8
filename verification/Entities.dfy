/** The game entities of src/server/player.h, src/server/object.h and src/server/map.h: the fields that the
    modelled operations use.  Teams, bases and treasures live in fixed arrays and are named by index. */
module Entities {

  datatype PlayerState = UNDEFINED | WAITING | APPEARING | ALIVE | KILLED | DEAD | PAUSED

  datatype ObjectType = NoType | Debris | Spark | Ball | Shot | Wreckage

  const MAX_TOTAL_OBJECTS := 16384
  const LOCKBANK_MAX := 4
  const MAX_RECORDED_SHOVES := 4

  class Player {
    var id: int
    var state: PlayerState
    var isRobot: bool
    var score: int
    var fuel: int
    var fuelMax: int

    // team play
    var team: int
    var homeBase: int

    // references to other players
    var lockPlayer: bool
    var lockVisible: bool
    var lockObject: Player?
    const lockbank: array<Player?>
    const shovers: array<Player?>
    var war: Player?

    // balls and shots
    var ballTmp: GameObject?
    var hasBall: bool
    var usesConnector: bool
    var usesShield: bool
    var shots: int
    var shotMax: int
    var shotTime: int

    constructor ()
      ensures lockbank.Length == LOCKBANK_MAX && shovers.Length == MAX_RECORDED_SHOVES
      ensures fresh(lockbank) && fresh(shovers) && lockbank != shovers
      ensures id == 0 && team == -1 && homeBase == -1 && !hasBall && ballTmp == null && !usesConnector && shots == 0
    {
      id, state, isRobot, score := 0, UNDEFINED, false, 0;
      team, homeBase := -1, -1;
      lockPlayer, lockVisible, lockObject, war := false, false, null, null;
      lockbank := new Player?[LOCKBANK_MAX](_ => null);
      shovers := new Player?[MAX_RECORDED_SHOVES](_ => null);
      ballTmp, hasBall, usesConnector, usesShield := null, false, false, false;
      shots, shotMax, shotTime := 0, 0, 0;
    }
  }

  class GameObject {
    var id: int
    var kind: ObjectType
    var life: int
    var owner: Player?
    var attached: bool
    var treasure: int
    var looseCount: int
    var looseTicks: int

    // the chain of objects in the same block
    var blockX: int
    var blockY: int
    var cellPrev: GameObject?
    var cellNext: GameObject?

    constructor (id: int)
      ensures this.id == id && kind == NoType && life == 0 && owner == null && !attached
      ensures cellPrev == null && cellNext == null
    {
      this.id, kind, life, owner, attached, treasure := id, NoType, 0, null, false, -1;
      looseCount, looseTicks := 0, 0;
      blockX, blockY, cellPrev, cellNext := 0, 0, null, null;
    }
  }
}
