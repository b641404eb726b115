/** The entity shapes of the map-based canvas (types.ts): celestial kinds,
    notes and the canvas transform, plus the tuning constants the canvas
    reads from its constants module. That module is not part of this model,
    so its numbers are a parameter (`Tuning`) constrained only by what the
    code relies on: positive diameters and an ordered zoom range. */
module Entities {
  import opened Basics
  import opened Geometry

  datatype Kind =
    | Galaxy | Nebula
    | Sun | RedGiant | WhiteDwarf | Pulsar
    | Jupiter | Saturn
    | Neptune | Uranus
    | Earth | Venus | Mars | Mercury
    | Pluto | Ceres
    | Moon | Asteroid | Comet

  /** The enum's string value, used in default note content. */
  function KindName(k: Kind): string {
    match k
    case Galaxy => "Galaxy"
    case Nebula => "Nebula"
    case Sun => "Sun"
    case RedGiant => "RedGiant"
    case WhiteDwarf => "WhiteDwarf"
    case Pulsar => "Pulsar"
    case Jupiter => "Jupiter"
    case Saturn => "Saturn"
    case Neptune => "Neptune"
    case Uranus => "Uranus"
    case Earth => "Earth"
    case Venus => "Venus"
    case Mars => "Mars"
    case Mercury => "Mercury"
    case Pluto => "Pluto"
    case Ceres => "Ceres"
    case Moon => "Moon"
    case Asteroid => "Asteroid"
    case Comet => "Comet"
  }

  /** A note. `parentId` is the hierarchical parent, `linkedIds` the peers of
      symmetric arbitrary links, `groupId` the Nebula container it belongs
      to; a Nebula whose `groupId` is its own id is an active container. */
  datatype Note = Note(
    id: string,
    content: string,
    position: Point,
    kind: Kind,
    parentId: Option<string>,
    tags: seq<string>,
    linkedIds: seq<string>,
    groupId: Option<string>)

  datatype CanvasState = CanvasState(zoom: real, pan: Point)

  /** Numbers from the constants module: note diameter per kind, the wheel
      zoom range, and the black-hole pull and absorb radii (screen pixels). */
  datatype Tuning = Tuning(
    diameter: Kind -> real,
    zoomMin: real,
    zoomMax: real,
    pullDistance: real,
    absorbDistance: real)
  {
    predicate Valid() {
      && (forall k :: diameter(k) > 0.0)
      && zoomMin <= zoomMax
    }
  }

  /** The square footprint of a note in world coordinates. */
  function Footprint(n: Note, t: Tuning): Box {
    SquareAt(n.position, t.diameter(n.kind))
  }

  function Center(n: Note, t: Tuning): Point {
    Point(n.position.x + t.diameter(n.kind) / 2.0, n.position.y + t.diameter(n.kind) / 2.0)
  }
}
