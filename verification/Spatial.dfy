/** Values shared by the spatial models: cells, actors, inputs, and the
    floor-division geometry that maps a Q16.16 position to its cell. */
module Spatial {

  import opened Prelude

  type ActorId = nat

  /** Apply stripes, in the handler set and in the native core. */
  const STRIPES: nat := 64

  /** A cell locator; every actor publishes in one zone at lod 0. */
  datatype Cell = Cell(x: int, y: int, z: int)

  datatype Actor = Actor(px: int, py: int, pz: int, vx: int, vy: int, vz: int,
                         inputTick: int, flags: int, updateSeq: int)

  datatype Input = Input(inputTick: int, mx: int, my: int, mz: int, flags: int)

  /** The fixed parameters of a handler set. `advance` is the sim model: apply one input, then
      step once; None when either call fails. */
  datatype World = World(cellSize: int, radius: nat, advance: (Actor, Input) -> Option<Actor>)

  /** Python's `pos // size` on every axis. Dafny's division is Euclidean, which is the floor
      for a positive divisor. */
  function CellOf(w: World, a: Actor): Cell
    requires 0 < w.cellSize
  {
    Cell(a.px / w.cellSize, a.py / w.cellSize, a.pz / w.cellSize)
  }

  const ORIGIN: Actor := Actor(0, 0, 0, 0, 0, 0, 0, 0, 0)

  /** An absolute reposition: velocity is zeroed, everything else is carried. */
  function Teleported(a: Actor, px: int, py: int): Actor {
    Actor(px, py, a.pz, 0, 0, 0, a.inputTick, a.flags, a.updateSeq)
  }
}
