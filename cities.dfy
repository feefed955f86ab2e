/** The waypoint of the travelling-salesperson instance: an integer point in
    three dimensions whose coordinates can be overwritten (City.cpp). */
module Cities {

  /** The coordinates of a city as a value. */
  datatype Point = Point(x: int, y: int, z: int)

  /** The default constructor reduces each draw of `rand()` modulo this bound. */
  const CoordinateRange: int := 1000

  /** Where `City()` puts a city for the three draws `d`. */
  function RandomPoint(d: (nat, nat, nat)): (p: Point)
    ensures 0 <= p.x < CoordinateRange && 0 <= p.y < CoordinateRange && 0 <= p.z < CoordinateRange
  {
    Point(d.0 % CoordinateRange, d.1 % CoordinateRange, d.2 % CoordinateRange)
  }

  /** The cities that a run of default constructions creates, one per
      triple of draws, in order. */
  function RandomPoints(ds: seq<(nat, nat, nat)>): (ps: seq<Point>)
    ensures |ps| == |ds|
    ensures forall k :: 0 <= k < |ds| ==> ps[k] == RandomPoint(ds[k])
  {
    seq(|ds|, k requires 0 <= k < |ds| => RandomPoint(ds[k]))
  }

  class City {
    var x: int
    var y: int
    var z: int

    /** `City()`: every coordinate is a draw of `rand()` (a non-negative
        number) reduced modulo 1000, so it lies in [0, 999]. */
    constructor Random(drawX: nat, drawY: nat, drawZ: nat)
      ensures x == drawX % CoordinateRange && y == drawY % CoordinateRange && z == drawZ % CoordinateRange
      ensures 0 <= x < CoordinateRange && 0 <= y < CoordinateRange && 0 <= z < CoordinateRange
      ensures Coords() == RandomPoint((drawX, drawY, drawZ))
    {
      x := drawX % CoordinateRange;
      y := drawY % CoordinateRange;
      z := drawZ % CoordinateRange;
    }

    /** `City(const City &)`: a new city at the same coordinates. */
    constructor Copy(other: City)
      ensures SameCity(this, other)
      ensures Coords() == other.Coords()
    {
      x, y, z := other.x, other.y, other.z;
    }

    /** `City(int, int, int)`. */
    constructor (inX: int, inY: int, inZ: int)
      ensures GetX() == inX && GetY() == inY && GetZ() == inZ
    {
      x, y, z := inX, inY, inZ;
    }

    /** Overwrites all three coordinates. */
    method SetCoordinates(inX: int, inY: int, inZ: int)
      modifies this
      ensures GetX() == inX && GetY() == inY && GetZ() == inZ
    {
      x, y, z := inX, inY, inZ;
    }

    /** `getX`, `getY` and `getZ`: the coordinates of `Coords()`. */
    function GetX(): (r: int) reads this ensures r == Coords().x { x }
    function GetY(): (r: int) reads this ensures r == Coords().y { y }
    function GetZ(): (r: int) reads this ensures r == Coords().z { z }

    /** The coordinates as a value, which is all that the value equality of
        cities looks at. */
    function Coords(): Point reads this { Point(x, y, z) }
  }

  /** `operator==(const City &, const City &)`: equal coordinates. */
  predicate SameCity(c1: City, c2: City)
    reads c1, c2
    ensures SameCity(c1, c2) <==> c1.Coords() == c2.Coords()
  {
    c1.GetX() == c2.GetX() && c1.GetY() == c2.GetY() && c1.GetZ() == c2.GetZ()
  }

  /** `operator!=(const City &, const City &)`. */
  predicate DifferentCity(c1: City, c2: City)
    reads c1, c2
    ensures DifferentCity(c1, c2) <==> c1.Coords() != c2.Coords()
  {
    !SameCity(c1, c2)
  }
}
