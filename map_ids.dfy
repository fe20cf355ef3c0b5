/** Identifiers shared by the map model and the simulation. */
module MapIds {

  /** `LaneID`: an index into the map's lanes. */
  type LaneId = nat

  /** `IntersectionID`: an index into the map's intersections. */
  type IntersectionId = nat

  /** `TurnID`: a movement from lane `src` to lane `dst` through intersection `parent`. */
  datatype TurnId = TurnId(parent: IntersectionId, src: LaneId, dst: LaneId)

  /** The same movement in the opposite direction. */
  function Swap(t: TurnId): (r: TurnId)
    ensures r.parent == t.parent && r.src == t.dst && r.dst == t.src
  {
    TurnId(t.parent, t.dst, t.src)
  }
}
