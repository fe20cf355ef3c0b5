/**
 * Simulation time and the position tag of an agent: a tick counter that
 * advances one timestep at a time, and whether an agent is on a lane or on
 * a turn.
 */
module Sim {
  import opened Wrappers
  import opened MapIds

  /** Rust's `u32`. */
  newtype U32 = x: int | 0 <= x < 0x1_0000_0000

  const U32_MAX: U32 := 0xFFFF_FFFF

  /** The result of comparing two values under a total order (`std::cmp::Ordering`). */
  datatype Ordering = Less | Equal | Greater

  /** The comparison `Ord` gives on `u32`. */
  function CompareU32(a: U32, b: U32): Ordering
  {
    if a < b then Less else if a == b then Equal else Greater
  }

  /** A moment in simulated time, counted in timesteps since the start. */
  class Tick {
    var count: U32

    /** `Tick::zero`: the start of the simulation. */
    constructor Zero()
      ensures count == 0
    {
      count := 0;
    }

    /**
     * `Tick::increment`: one timestep later. The counter is a `u32` whose
     * addition may not overflow.
     */
    method Increment()
      requires count < U32_MAX
      modifies this
      ensures count == old(count) + 1
    {
      count := count + 1;
    }

    /**
     * `Tick - Tick`: the tick as far from zero as `this` is from `other`;
     * the subtraction of `u32` counters may not go below zero.
     */
    method Sub(other: Tick) returns (r: Tick)
      requires other.count <= count
      ensures fresh(r)
      ensures r.count as int + other.count as int == count as int
    {
      r := new Tick.Zero();
      r.count := count - other.count;
    }

    /** The derived `Ord`: ticks compare as their counters do. */
    function Cmp(other: Tick): (r: Ordering)
      reads this, other
      ensures r == Equal <==> count == other.count
      ensures r == Less <==> count < other.count
      ensures r == Greater <==> other.count < count
    {
      CompareU32(count, other.count)
    }
  }

  /** The derived ordering of ticks is a total order, and equal ticks are those with equal counters. */
  lemma CmpIsTotalOrder(a: Tick, b: Tick, c: Tick)
    ensures a.Cmp(a) == Equal
    ensures a.Cmp(b) == Less <==> b.Cmp(a) == Greater
    ensures a.Cmp(b) == Equal <==> b.Cmp(a) == Equal
    ensures a.Cmp(b) == Less && b.Cmp(c) == Less ==> a.Cmp(c) == Less
    ensures a.Cmp(b) == Equal && b.Cmp(c) == Equal ==> a.Cmp(c) == Equal
  {
  }

  /** Where an agent is: on a lane, or crossing an intersection along a turn. */
  datatype On = Lane(lane: LaneId) | Turn(turn: TurnId)

  /** `On::as_lane`: the lane, and an abort ("not a lane") on a turn. */
  function AsLane(o: On): (r: Result<LaneId, string>)
    ensures r.Success? <==> o.Lane?
    ensures r.Success? ==> o == Lane(r.value)
  {
    match o
    case Lane(id) => Success(id)
    case Turn(_) => Failure("not a lane")
  }

  /** `On::as_turn`: the turn, and an abort ("not a turn") on a lane. */
  function AsTurn(o: On): (r: Result<TurnId, string>)
    ensures r.Success? <==> o.Turn?
    ensures r.Success? ==> o == Turn(r.value)
  {
    match o
    case Turn(id) => Success(id)
    case Lane(_) => Failure("not a turn")
  }

  /** `On::maybe_turn`: the turn, if the agent is on one. */
  function MaybeTurn(o: On): (r: Option<TurnId>)
    ensures r.Some? <==> o.Turn?
    ensures r.Some? ==> o == Turn(r.value)
  {
    match o
    case Turn(id) => Some(id)
    case Lane(_) => None
  }

  /**
   * Exactly one projection succeeds; it recovers the id the tag was built
   * from, and `maybe_turn` agrees with `as_turn`.
   */
  lemma ProjectionsAgree(o: On)
    ensures AsLane(o).Success? != AsTurn(o).Success?
    ensures AsLane(o).Success? ==> Lane(AsLane(o).value) == o
    ensures AsTurn(o).Success? ==> Turn(AsTurn(o).value) == o
    ensures MaybeTurn(o) == (if AsTurn(o).Success? then Some(AsTurn(o).value) else None)
  {
  }

  /** Tagging an id and projecting it back gives the id. */
  lemma ProjectionRoundTrips(l: LaneId, t: TurnId)
    ensures AsLane(Lane(l)) == Success(l) && AsTurn(Lane(l)).Failure?
    ensures AsTurn(Turn(t)) == Success(t) && AsLane(Turn(t)).Failure?
    ensures MaybeTurn(Turn(t)) == Some(t) && MaybeTurn(Lane(l)) == None
  {
  }
}
