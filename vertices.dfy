/**
 * Program.vertBuilder and the horizontal offset Execute hands it: every raw vertex is
 * scaled, shifted horizontally, converted to the host's length unit, and the running
 * minimum and maximum of each axis give the bounding box of the whole pool.
 */
module Vertices {
  import opened Wrappers
  import opened CityModel
  import Crs

  /** Revit's internal length unit is the foot: ConvertToInternalUnits(x, Meters) is x times this. */
  const FeetPerMetre: real := 1.0 / 0.3048

  function ToInternal(metres: real): real {
    metres * FeetPerMetre
  }

  /** One vertex as vertBuilder places it: z is scaled but never shifted. */
  function Place(v: Triple, scale: Triple, transX: real, transY: real): Point {
    Point(ToInternal(v.x * scale.x + transX),
          ToInternal(v.y * scale.y + transY),
          ToInternal(v.z * scale.z))
  }

  function PlaceAll(raw: seq<Triple>, scale: Triple, transX: real, transY: real): (pts: seq<Point>)
    ensures |pts| == |raw|
    ensures forall i :: 0 <= i < |raw| ==> pts[i] == Place(raw[i], scale, transX, transY)
  {
    seq(|raw|, i requires 0 <= i < |raw| => Place(raw[i], scale, transX, transY))
  }

  /** The inverse of Place, for a scale with no zero component. */
  function Unplace(p: Point, scale: Triple, transX: real, transY: real): Triple
    requires scale.x != 0.0 && scale.y != 0.0 && scale.z != 0.0
  {
    Triple((p.x / FeetPerMetre - transX) / scale.x,
           (p.y / FeetPerMetre - transY) / scale.y,
           p.z / FeetPerMetre / scale.z)
  }

  /** Placing a vertex loses nothing: the raw vertex can be recovered from its position. */
  lemma PlaceRoundTrip(v: Triple, scale: Triple, transX: real, transY: real)
    requires scale.x != 0.0 && scale.y != 0.0 && scale.z != 0.0
    ensures Unplace(Place(v, scale, transX, transY), scale, transX, transY) == v
  {
    var p := Place(v, scale, transX, transY);
    assert p.x / FeetPerMetre == v.x * scale.x + transX;
    assert p.y / FeetPerMetre == v.y * scale.y + transY;
    assert p.z / FeetPerMetre == v.z * scale.z;
  }

  // ---- bounding box -----------------------------------------------------------------

  datatype Box = Box(min: Point, max: Point)

  function Min(a: real, b: real): real { if a <= b then a else b }
  function Max(a: real, b: real): real { if a >= b then a else b }

  /** One step of the running minimum and maximum; None stands for "no vertex yet". */
  function Extend(box: Option<Box>, p: Point): Box {
    match box
    case None => Box(p, p)
    case Some(b) =>
      Box(Point(Min(b.min.x, p.x), Min(b.min.y, p.y), Min(b.min.z, p.z)),
          Point(Max(b.max.x, p.x), Max(b.max.y, p.y), Max(b.max.z, p.z)))
  }

  /** The running box after the points `pts`, starting from `box`. */
  function BoundsFrom(pts: seq<Point>, box: Option<Box>): Option<Box> {
    if pts == [] then box else BoundsFrom(pts[1..], Some(Extend(box, pts[0])))
  }

  function Bounds(pts: seq<Point>): Option<Box> {
    BoundsFrom(pts, None)
  }

  /** Coordinate `axis` (0 for x, 1 for y, 2 for z) of a point. */
  function Coord(p: Point, axis: nat): real
    requires axis < 3
  {
    if axis == 0 then p.x else if axis == 1 then p.y else p.z
  }

  predicate Inside(p: Point, b: Box) {
    forall axis :: 0 <= axis < 3 ==> Coord(b.min, axis) <= Coord(p, axis) <= Coord(b.max, axis)
  }

  /** Each bound of `b` is the coordinate of some point of `pts`. */
  predicate Attained(pts: seq<Point>, b: Box) {
    forall axis :: 0 <= axis < 3 ==>
      (exists i :: 0 <= i < |pts| && Coord(pts[i], axis) == Coord(b.min, axis)) &&
      (exists i :: 0 <= i < |pts| && Coord(pts[i], axis) == Coord(b.max, axis))
  }

  lemma ExtendAxis(box: Option<Box>, p: Point, axis: nat)
    requires axis < 3
    ensures box.None? ==> Coord(Extend(box, p).min, axis) == Coord(p, axis) == Coord(Extend(box, p).max, axis)
    ensures box.Some? ==> Coord(Extend(box, p).min, axis) == Min(Coord(box.value.min, axis), Coord(p, axis))
    ensures box.Some? ==> Coord(Extend(box, p).max, axis) == Max(Coord(box.value.max, axis), Coord(p, axis))
  {
  }

  /**
   * Along one axis, the running box encloses its start and every point, and each of its
   * bounds comes from its start or from one of the points.
   */
  lemma {:induction false} BoundsFromAxis(pts: seq<Point>, box: Option<Box>, axis: nat)
    requires axis < 3
    ensures (box.Some? || pts != []) <==> BoundsFrom(pts, box).Some?
    ensures BoundsFrom(pts, box).Some? ==>
      var b := BoundsFrom(pts, box).value;
      && (forall i :: 0 <= i < |pts| ==> Coord(b.min, axis) <= Coord(pts[i], axis) <= Coord(b.max, axis))
      && (box.Some? ==> Coord(b.min, axis) <= Coord(box.value.min, axis) && Coord(box.value.max, axis) <= Coord(b.max, axis))
      && ((box.Some? && Coord(b.min, axis) == Coord(box.value.min, axis)) ||
          exists i :: 0 <= i < |pts| && Coord(pts[i], axis) == Coord(b.min, axis))
      && ((box.Some? && Coord(b.max, axis) == Coord(box.value.max, axis)) ||
          exists i :: 0 <= i < |pts| && Coord(pts[i], axis) == Coord(b.max, axis))
  {
    if pts != [] {
      var next := Some(Extend(box, pts[0]));
      ExtendAxis(box, pts[0], axis);
      BoundsFromAxis(pts[1..], next, axis);
      var b := BoundsFrom(pts, box).value;
      assert b == BoundsFrom(pts[1..], next).value;
      forall i | 0 <= i < |pts| ensures Coord(b.min, axis) <= Coord(pts[i], axis) <= Coord(b.max, axis) {
        if i > 0 { assert pts[i] == pts[1..][i - 1]; }
      }
      if exists i :: 0 <= i < |pts[1..]| && Coord(pts[1..][i], axis) == Coord(b.min, axis) {
        var i :| 0 <= i < |pts[1..]| && Coord(pts[1..][i], axis) == Coord(b.min, axis);
        assert pts[i + 1] == pts[1..][i];
      } else if Coord(b.min, axis) != Coord(pts[0], axis) {
        assert box.Some? && Coord(b.min, axis) == Coord(box.value.min, axis);
      }
      if exists i :: 0 <= i < |pts[1..]| && Coord(pts[1..][i], axis) == Coord(b.max, axis) {
        var i :| 0 <= i < |pts[1..]| && Coord(pts[1..][i], axis) == Coord(b.max, axis);
        assert pts[i + 1] == pts[1..][i];
      } else if Coord(b.max, axis) != Coord(pts[0], axis) {
        assert box.Some? && Coord(b.max, axis) == Coord(box.value.max, axis);
      }
    }
  }

  /** The box of a non-empty vertex pool encloses every vertex and is as tight as can be. */
  lemma BoundsTight(pts: seq<Point>)
    requires pts != []
    ensures Bounds(pts).Some?
    ensures forall i :: 0 <= i < |pts| ==> Inside(pts[i], Bounds(pts).value)
    ensures Attained(pts, Bounds(pts).value)
  {
    BoundsFromAxis(pts, None, 0);
    BoundsFromAxis(pts, None, 1);
    BoundsFromAxis(pts, None, 2);
    var b := Bounds(pts).value;
    forall i | 0 <= i < |pts| ensures Inside(pts[i], b) {
      forall axis | 0 <= axis < 3
        ensures Coord(b.min, axis) <= Coord(pts[i], axis) <= Coord(b.max, axis)
      {
        BoundsFromAxis(pts, None, axis);
      }
    }
    forall axis | 0 <= axis < 3
      ensures (exists i :: 0 <= i < |pts| && Coord(pts[i], axis) == Coord(b.min, axis)) &&
              (exists i :: 0 <= i < |pts| && Coord(pts[i], axis) == Coord(b.max, axis))
    {
      BoundsFromAxis(pts, None, axis);
    }
  }

  /**
   * Program.vertBuilder: one position per raw vertex, in order, and the bounding box of all
   * of them (None for an empty pool).
   */
  method VertBuilder(raw: seq<Triple>, scale: Triple, transX: real, transY: real)
    returns (verts: seq<Point>, box: Option<Box>)
    ensures verts == PlaceAll(raw, scale, transX, transY)
    ensures box == Bounds(verts)
    ensures box.Some? <==> raw != []
    ensures box.Some? ==> (forall i :: 0 <= i < |verts| ==> Inside(verts[i], box.value)) && Attained(verts, box.value)
  {
    ghost var all := PlaceAll(raw, scale, transX, transY);
    verts, box := [], None;
    var i := 0;
    while i < |raw|
      invariant 0 <= i <= |raw|
      invariant verts == all[..i]
      invariant Bounds(all) == BoundsFrom(all[i..], box)
      invariant box.Some? <==> i > 0
    {
      var p := Place(raw[i], scale, transX, transY);
      assert all[i..][1..] == all[i + 1..];
      verts := verts + [p];
      box := Some(Extend(box, p));
      i := i + 1;
    }
    assert all[..i] == all;
    if raw != [] {
      BoundsTight(verts);
    }
  }

  // ---- where the vertices land --------------------------------------------------------

  /** A planar point: projected (x, y), or geographic (longitude, latitude) in degrees. */
  datatype Planar = Planar(x: real, y: real)

  /**
   * The horizontal shift Execute passes to vertBuilder: none when the document has no
   * reference system or the site was moved to the document; otherwise the document's
   * `translate` minus the host site reprojected into the document's reference system.
   */
  function SiteOffset(epsg: int, relocate: bool, translate: Triple, site: Planar,
                      reverse: (int, Planar) -> Planar): Planar
  {
    if epsg == Crs.NoReferenceSystem || relocate then Planar(0.0, 0.0)
    else
      var anchor := reverse(epsg, site);
      Planar(translate.x - anchor.x, translate.y - anchor.y)
  }

  /**
   * The real-world planar point that ends up at the host's origin: the site reprojected into
   * the document's reference system, or the document's own `translate` when it has none or
   * when the site was moved onto the document.
   */
  function SiteOrigin(epsg: int, relocate: bool, translate: Triple, site: Planar,
                      reverse: (int, Planar) -> Planar): Planar
  {
    if epsg == Crs.NoReferenceSystem || relocate then Planar(translate.x, translate.y)
    else reverse(epsg, site)
  }

  /**
   * Every vertex lands at its real-world position (scale times raw plus `translate`) measured
   * from the site origin; the height is the scaled raw height.
   */
  lemma PlacedRelativeToSite(v: Triple, scale: Triple, epsg: int, relocate: bool, translate: Triple,
                             site: Planar, reverse: (int, Planar) -> Planar)
    ensures
      var d := SiteOffset(epsg, relocate, translate, site, reverse);
      var o := SiteOrigin(epsg, relocate, translate, site, reverse);
      Place(v, scale, d.x, d.y) ==
        Point(ToInternal(v.x * scale.x + translate.x - o.x),
              ToInternal(v.y * scale.y + translate.y - o.y),
              ToInternal(v.z * scale.z))
  {
  }
}
