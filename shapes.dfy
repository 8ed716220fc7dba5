/**
 * Program.CreateTessellatedShape: one shape for every geometry of a city object whose `lod`
 * is the selected one, carrying the faces of the walk, the object's material, the name
 * `id-lod <lod>` and the resolved parameter values.
 */
module Shapes {
  import opened Wrappers
  import opened CityModel
  import opened FaceWalk
  import opened Attributes

  /** What the host's DirectShape receives for one geometry. */
  datatype Shape = Shape(name: string, material: string, faces: seq<Loop>, parameters: map<string, string>)

  function ShapeName(id: string, lod: string): string {
    id + "-lod " + lod
  }

  /** The attributes the parent map holds for `id`, if any. */
  function ParentOf(parents: map<string, seq<Attr>>, id: string): Option<seq<Attr>> {
    if id in parents then Some(parents[id]) else None
  }

  /** The geometry loop from `gs` on, after the shapes `acc`. */
  function ShapesFrom(e: Entry, material: string, verts: seq<Point>, lod: string, params: seq<string>,
                      parents: map<string, seq<Attr>>, gs: seq<Geometry>, acc: seq<Shape>): Result<seq<Shape>>
  {
    if gs == [] then Ok(acc)
    else if gs[0].lod != Some(lod) then ShapesFrom(e, material, verts, lod, params, parents, gs[1..], acc)
    else
      var faces :- GeometryFaces(gs[0], verts);
      var values :- Settings(params, e.id, e.obj.objectType, e.obj.attributes, ParentOf(parents, e.id));
      ShapesFrom(e, material, verts, lod, params, parents, gs[1..],
                 acc + [Shape(ShapeName(e.id, gs[0].lod.value), material, faces, values)])
  }

  function ObjectShapes(e: Entry, material: string, verts: seq<Point>, lod: string, params: seq<string>,
                        parents: map<string, seq<Attr>>): Result<seq<Shape>>
  {
    if e.obj.geometry.None? then Ok([])
    else ShapesFrom(e, material, verts, lod, params, parents, e.obj.geometry.value, [])
  }

  method CreateTessellatedShape(e: Entry, material: string, verts: seq<Point>, lod: string,
                                params: seq<string>, parents: map<string, seq<Attr>>)
    returns (r: Result<seq<Shape>>)
    ensures r == ObjectShapes(e, material, verts, lod, params, parents)
  {
    var builder := new TessellatedShapeBuilder();
    if e.obj.geometry.None? {
      return Ok([]);
    }
    var gs := e.obj.geometry.value;
    var shapes: seq<Shape> := [];
    var i := 0;
    while i < |gs|
      invariant 0 <= i <= |gs|
      invariant ObjectShapes(e, material, verts, lod, params, parents) ==
        ShapesFrom(e, material, verts, lod, params, parents, gs[i..], shapes)
    {
      assert gs[i..][1..] == gs[i + 1..];
      if gs[i].lod == Some(lod) {
        var faces := WalkGeometry(gs[i], verts, builder);
        if faces.Err? {
          return Err(faces.fault);
        }
        var values := SetParameters(params, e.id, e.obj.objectType, e.obj.attributes, ParentOf(parents, e.id));
        if values.Err? {
          return Err(values.fault);
        }
        shapes := shapes + [Shape(ShapeName(e.id, gs[i].lod.value), material, faces.value, values.value)];
      }
      i := i + 1;
    }
    return Ok(shapes);
  }

  // ---- what the shapes are ---------------------------------------------------------------

  /** The geometries drawn at level `lod`, in order. */
  function AtLevel(gs: seq<Geometry>, lod: string): (r: seq<Geometry>)
    ensures forall k :: 0 <= k < |r| ==> r[k] in gs && r[k].lod == Some(lod)
  {
    if gs == [] then []
    else (if gs[0].lod == Some(lod) then [gs[0]] else []) + AtLevel(gs[1..], lod)
  }

  /** Every geometry at the level walks without a fault. */
  predicate LevelWalks(gs: seq<Geometry>, lod: string, verts: seq<Point>) {
    forall k :: 0 <= k < |AtLevel(gs, lod)| ==> GeometryFaces(AtLevel(gs, lod)[k], verts).Ok?
  }

  lemma LevelWalksStep(gs: seq<Geometry>, lod: string, verts: seq<Point>)
    requires gs != []
    ensures LevelWalks(gs, lod, verts) <==>
      (gs[0].lod == Some(lod) ==> GeometryFaces(gs[0], verts).Ok?) && LevelWalks(gs[1..], lod, verts)
  {
    var level := AtLevel(gs, lod);
    var rest := AtLevel(gs[1..], lod);
    if gs[0].lod == Some(lod) {
      assert level == [gs[0]] + rest;
      forall k | 1 <= k < |level| ensures level[k] == rest[k - 1] { }
      if LevelWalks(gs, lod, verts) {
        assert GeometryFaces(level[0], verts).Ok?;
        forall k | 0 <= k < |rest| ensures GeometryFaces(rest[k], verts).Ok? {
          assert rest[k] == level[k + 1];
        }
      }
      if GeometryFaces(gs[0], verts).Ok? && LevelWalks(gs[1..], lod, verts) {
        forall k | 0 <= k < |level| ensures GeometryFaces(level[k], verts).Ok? {
          if k > 0 {
            assert level[k] == rest[k - 1];
          }
        }
      }
    } else {
      assert level == rest;
    }
  }

  /**
   * The loop succeeds exactly when every geometry at the level walks and, if there is one,
   * the parameters resolve.
   */
  lemma {:induction false} ShapesFromSucceeds(e: Entry, material: string, verts: seq<Point>, lod: string,
                                              params: seq<string>, parents: map<string, seq<Attr>>,
                                              gs: seq<Geometry>, acc: seq<Shape>)
    ensures ShapesFrom(e, material, verts, lod, params, parents, gs, acc).Ok? <==>
      LevelWalks(gs, lod, verts) &&
      (AtLevel(gs, lod) != [] ==> Settings(params, e.id, e.obj.objectType, e.obj.attributes, ParentOf(parents, e.id)).Ok?)
  {
    if gs != [] {
      LevelWalksStep(gs, lod, verts);
      var values := Settings(params, e.id, e.obj.objectType, e.obj.attributes, ParentOf(parents, e.id));
      if gs[0].lod == Some(lod) {
        assert AtLevel(gs, lod) == [gs[0]] + AtLevel(gs[1..], lod);
        var faces := GeometryFaces(gs[0], verts);
        if faces.Ok? && values.Ok? {
          ShapesFromSucceeds(e, material, verts, lod, params, parents, gs[1..],
                             acc + [Shape(ShapeName(e.id, lod), material, faces.value, values.value)]);
        }
      } else {
        assert AtLevel(gs, lod) == AtLevel(gs[1..], lod);
        ShapesFromSucceeds(e, material, verts, lod, params, parents, gs[1..], acc);
      }
    }
  }

  /**
   * `s` is the shape made from geometry `g` of object `e`: named after the object and the
   * level, with the faces of the walk of `g`, the object's material and the resolved parameters.
   */
  predicate MadeFrom(s: Shape, e: Entry, material: string, verts: seq<Point>, lod: string, params: seq<string>,
                     parents: map<string, seq<Attr>>, g: Geometry)
  {
    var values := Settings(params, e.id, e.obj.objectType, e.obj.attributes, ParentOf(parents, e.id));
    GeometryFaces(g, verts).Ok? && values.Ok? &&
    s == Shape(ShapeName(e.id, lod), material, GeometryFaces(g, verts).value, values.value)
  }

  /** A successful loop adds one shape per geometry at the level, in order. */
  lemma {:induction false} ShapesFromContents(e: Entry, material: string, verts: seq<Point>, lod: string,
                                              params: seq<string>, parents: map<string, seq<Attr>>,
                                              gs: seq<Geometry>, acc: seq<Shape>)
    requires ShapesFrom(e, material, verts, lod, params, parents, gs, acc).Ok?
    ensures
      var shapes := ShapesFrom(e, material, verts, lod, params, parents, gs, acc).value;
      var level := AtLevel(gs, lod);
      && |shapes| == |acc| + |level|
      && shapes[..|acc|] == acc
      && forall k :: 0 <= k < |level| ==> MadeFrom(shapes[|acc| + k], e, material, verts, lod, params, parents, level[k])
  {
    if gs != [] {
      var rest := gs[1..];
      if gs[0].lod == Some(lod) {
        var level := AtLevel(gs, lod);
        var restLevel := AtLevel(rest, lod);
        assert level == [gs[0]] + restLevel;
        var faces := GeometryFaces(gs[0], verts);
        var values := Settings(params, e.id, e.obj.objectType, e.obj.attributes, ParentOf(parents, e.id));
        var made := Shape(ShapeName(e.id, lod), material, faces.value, values.value);
        var acc' := acc + [made];
        assert ShapesFrom(e, material, verts, lod, params, parents, gs, acc) ==
               ShapesFrom(e, material, verts, lod, params, parents, rest, acc');
        ShapesFromContents(e, material, verts, lod, params, parents, rest, acc');
        var shapes := ShapesFrom(e, material, verts, lod, params, parents, rest, acc').value;
        assert shapes[..|acc|] == shapes[..|acc'|][..|acc|];
        forall k | 0 <= k < |level|
          ensures MadeFrom(shapes[|acc| + k], e, material, verts, lod, params, parents, level[k])
        {
          if k == 0 {
            assert shapes[|acc|] == shapes[..|acc'|][|acc|] == made;
          } else {
            assert level[k] == restLevel[k - 1];
            assert |acc| + k == |acc'| + (k - 1);
          }
        }
      } else {
        assert AtLevel(gs, lod) == AtLevel(rest, lod);
        ShapesFromContents(e, material, verts, lod, params, parents, rest, acc);
      }
    }
  }

  /** An object's shapes: one per geometry at the selected level, none without geometry. */
  lemma ObjectShapesAre(e: Entry, material: string, verts: seq<Point>, lod: string, params: seq<string>,
                        parents: map<string, seq<Attr>>)
    requires ObjectShapes(e, material, verts, lod, params, parents).Ok?
    ensures e.obj.geometry.None? ==> ObjectShapes(e, material, verts, lod, params, parents).value == []
    ensures e.obj.geometry.Some? ==>
      var shapes := ObjectShapes(e, material, verts, lod, params, parents).value;
      var level := AtLevel(e.obj.geometry.value, lod);
      && |shapes| == |level|
      && forall k :: 0 <= k < |level| ==> MadeFrom(shapes[k], e, material, verts, lod, params, parents, level[k])
  {
    if e.obj.geometry.Some? {
      ShapesFromContents(e, material, verts, lod, params, parents, e.obj.geometry.value, []);
      var shapes := ObjectShapes(e, material, verts, lod, params, parents).value;
      forall k | 0 <= k < |AtLevel(e.obj.geometry.value, lod)|
        ensures MadeFrom(shapes[k], e, material, verts, lod, params, parents, AtLevel(e.obj.geometry.value, lod)[k])
      {
        assert 0 + k == k;
      }
    }
  }
}
