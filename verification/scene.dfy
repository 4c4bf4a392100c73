/** The state of the stimulus: one record per disk and the shared parameters.

    The program keeps parallel lists `x`, `y`, `d` in a dictionary together
    with the scalar parameters `r`, `z`, `noise` and `speed`, and reads the
    arena side from the global `paperSize`. Here a field is a sequence of
    `Circle` records and the scalars are gathered in `Config`. */
module Scene {
  import opened Geometry

  /** One disk: centre (x, y) and motion direction d in radians. */
  datatype Circle = Circle(x: real, y: real, d: real)

  /** A field of disks together with the generator position reached after
      the draws that produced it. */
  datatype Frame = Frame(field: seq<Circle>, next: nat)

  datatype Option<T> = None | Some(value: T)

  /** r: disk radius; z: repulsion radius as a multiple of r; noiseDeg: heading
      noise amplitude in degrees; speed: step length per frame; paperSize: side
      of the square arena. */
  datatype Config = Config(r: real, z: real, noiseDeg: real, speed: real, paperSize: real)

  /** The values the program is configured with (MOT_s.py lines 12-24). */
  const Default := Config(15.0, 4.0, 15.0, 2.0, 500.0)
  const DefaultCount: nat := 10

  /** Noise amplitude in radians. */
  function Noise(cfg: Config): real { cfg.noiseDeg * Pi / 180.0 }

  /** Distance below which a neighbour repels a moving disk. */
  function Repulsion(cfg: Config): real { cfg.z * cfg.r }

  /** Lowest and highest admissible centre coordinate on either axis. */
  function Low(cfg: Config): real { cfg.r }
  function High(cfg: Config): real { cfg.paperSize - cfg.r }

  predicate InArena(cfg: Config, c: Circle) {
    Low(cfg) <= c.x <= High(cfg) && Low(cfg) <= c.y <= High(cfg)
  }

  predicate AllInArena(cfg: Config, field: seq<Circle>) {
    forall k :: 0 <= k < |field| ==> InArena(cfg, field[k])
  }

  /** Room for a full step between the walls, the condition under which a
      bounce cannot carry a disk out of the arena. */
  predicate Roomy(cfg: Config) {
    cfg.speed >= 0.0 && cfg.paperSize - 2.0 * cfg.r >= 2.0 * cfg.speed
  }

  lemma DefaultIsRoomy()
    ensures Roomy(Default)
    ensures Noise(Default) > 0.0 && Repulsion(Default) == 60.0
  {
  }
}
