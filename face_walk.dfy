/**
 * The face walk of CreateTessellatedShape: for each boundary of a geometry the loop buffer
 * is cleared, vertex indices are resolved and appended to it, every nested index list is
 * appended and emitted as one face, and an element that held no nested list emits the whole
 * buffer. The host's TessellatedShapeBuilder is the sink that records the emitted faces.
 */
module FaceWalk {
  import opened Wrappers
  import opened CityModel
  import Crs

  const Int64Min: int := -0x8000_0000_0000_0000
  const Int64Max: int := 0x7fff_ffff_ffff_ffff

  /** The `unchecked((int)…)` cast of a 64-bit integer: keep the low 32 bits, two's complement. */
  function Wrap32(n: int): (r: int)
    ensures Crs.Int32Min <= r <= Crs.Int32Max
    ensures (r - n) % 0x1_0000_0000 == 0
    ensures Crs.Int32Min <= n <= Crs.Int32Max ==> r == n
  {
    (n - Crs.Int32Min) % 0x1_0000_0000 + Crs.Int32Min
  }

  /**
   * `verticesList[(int)facePoint.Value]`: a JSON integer outside the 64-bit range is read as a
   * big integer, whose conversion throws; any other is wrapped to 32 bits and must index the
   * vertex list.
   */
  function VertexAt(n: int, verts: seq<Point>): (r: Result<Point>)
    ensures r.Ok? <==> Int64Min <= n <= Int64Max && 0 <= Wrap32(n) < |verts|
    ensures r.Ok? ==> r.value == verts[Wrap32(n)]
  {
    if n < Int64Min || Int64Max < n then Err(Overflow)
    else if 0 <= Wrap32(n) < |verts| then Ok(verts[Wrap32(n)])
    else Err(IndexOutOfRange)
  }

  // ---- the walk as functions ------------------------------------------------------------

  /** The buffer, the faces emitted so far, and `levelCheck` (a nested list was seen). */
  datatype WalkState = WalkState(faces: seq<Loop>, buffer: seq<Point>, nested: bool)

  /** The innermost loop: append the vertex of every item of a nested list. */
  function LookupFrom(items: seq<Node>, verts: seq<Point>, acc: seq<Point>): Result<seq<Point>> {
    if items == [] then Ok(acc)
    else match items[0]
      case Array(_) => Err(InvalidCast)
      case Index(n) =>
        var v :- VertexAt(n, verts);
        LookupFrom(items[1..], verts, acc + [v])
  }

  /**
   * One `facePoint`: a number or an empty list (which has no values) is read as a vertex
   * index; a non-empty list is appended, emitted as a face, and the buffer cleared.
   */
  function PointStep(fp: Node, verts: seq<Point>, st: WalkState): Result<WalkState> {
    match fp
    case Index(n) =>
      var v :- VertexAt(n, verts);
      Ok(st.(buffer := st.buffer + [v]))
    case Array(items) =>
      if items == [] then Err(InvalidCast)
      else
        var loop :- LookupFrom(items, verts, st.buffer);
        Ok(WalkState(st.faces + [loop], [], true))
  }

  function WalkPoints(fps: seq<Node>, verts: seq<Point>, st: WalkState): Result<WalkState> {
    if fps == [] then Ok(st)
    else
      var st' :- PointStep(fps[0], verts, st);
      WalkPoints(fps[1..], verts, st')
  }

  /**
   * One element (`facePoints`) of a boundary: `levelCheck` starts false, and without a nested
   * list the whole buffer is emitted. A number cannot be iterated: the conversion of a JSON
   * value to `IEnumerable` throws.
   */
  function ElementStep(facePoints: Node, verts: seq<Point>, faces: seq<Loop>, buffer: seq<Point>): Result<WalkState> {
    match facePoints
    case Index(_) => Err(InvalidCast)
    case Array(fps) =>
      var st :- WalkPoints(fps, verts, WalkState(faces, buffer, false));
      Ok(if st.nested then st else st.(faces := st.faces + [st.buffer]))
  }

  function WalkElements(items: seq<Node>, verts: seq<Point>, faces: seq<Loop>, buffer: seq<Point>): Result<seq<Loop>> {
    if items == [] then Ok(faces)
    else
      var st :- ElementStep(items[0], verts, faces, buffer);
      WalkElements(items[1..], verts, st.faces, st.buffer)
  }

  /** One boundary: the buffer starts empty; a number cannot be iterated. */
  function BoundaryFaces(b: Node, verts: seq<Point>, faces: seq<Loop>): Result<seq<Loop>> {
    match b
    case Index(_) => Err(InvalidCast)
    case Array(items) => WalkElements(items, verts, faces, [])
  }

  function BoundariesFaces(bs: seq<Node>, verts: seq<Point>, faces: seq<Loop>): Result<seq<Loop>> {
    if bs == [] then Ok(faces)
    else
      var faces' :- BoundaryFaces(bs[0], verts, faces);
      BoundariesFaces(bs[1..], verts, faces')
  }

  /** The faces one geometry emits, in order. */
  function GeometryFaces(g: Geometry, verts: seq<Point>): Result<seq<Loop>> {
    BoundariesFaces(g.boundaries, verts, [])
  }

  // ---- the sink -------------------------------------------------------------------------

  /** The host's shape builder, reduced to the faces it is given and the result it builds. */
  class TessellatedShapeBuilder {
    var isOpen: bool
    var faces: seq<Loop>
    var result: seq<Loop>

    constructor()
      ensures !isOpen && faces == [] && result == []
    {
      isOpen, faces, result := false, [], [];
    }

    method OpenConnectedFaceSet()
      modifies this
      ensures isOpen && faces == [] && result == old(result)
    {
      isOpen, faces := true, [];
    }

    method AddFace(loop: Loop)
      requires isOpen
      modifies this
      ensures isOpen && faces == old(faces) + [loop] && result == old(result)
    {
      faces := faces + [loop];
    }

    method CloseConnectedFaceSet()
      modifies this
      ensures !isOpen && faces == old(faces) && result == old(result)
    {
      isOpen := false;
    }

    method Build()
      modifies this
      ensures result == faces && faces == old(faces) && isOpen == old(isOpen)
    {
      result := faces;
    }

    /** Drops the face sets; the built result stays available. */
    method Clear()
      modifies this
      ensures !isOpen && faces == [] && result == old(result)
    {
      isOpen, faces := false, [];
    }

    function GetBuildResult(): (r: seq<Loop>)
      reads this
      ensures r == result
    {
      result
    }
  }

  // ---- the walk as the source performs it ------------------------------------------------

  /** `foreach (var fp in facePoint)`: resolve every index of a nested list onto the buffer. */
  method ResolveNested(items: seq<Node>, verts: seq<Point>, buffer: seq<Point>) returns (r: Result<seq<Point>>)
    ensures r == LookupFrom(items, verts, buffer)
  {
    var buf := buffer;
    var i := 0;
    while i < |items|
      invariant 0 <= i <= |items|
      invariant LookupFrom(items, verts, buffer) == LookupFrom(items[i..], verts, buf)
    {
      assert items[i..][1..] == items[i + 1..];
      if items[i].Array? {
        return Err(InvalidCast);
      }
      var v := VertexAt(items[i].index, verts);
      if v.Err? {
        return Err(v.fault);
      }
      buf := buf + [v.value];
      i := i + 1;
    }
    return Ok(buf);
  }

  /** `foreach (var facePoints in boundary)`, one iteration: returns the buffer it leaves. */
  method WalkElement(facePoints: Node, verts: seq<Point>, buffer: seq<Point>, builder: TessellatedShapeBuilder)
    returns (r: Result<seq<Point>>)
    requires builder.isOpen
    modifies builder
    ensures builder.isOpen && builder.result == old(builder.result)
    ensures ElementStep(facePoints, verts, old(builder.faces), buffer).Err? ==>
      r == Err(ElementStep(facePoints, verts, old(builder.faces), buffer).fault)
    ensures ElementStep(facePoints, verts, old(builder.faces), buffer).Ok? ==>
      r == Ok(ElementStep(facePoints, verts, old(builder.faces), buffer).value.buffer) &&
      builder.faces == ElementStep(facePoints, verts, old(builder.faces), buffer).value.faces
  {
    if facePoints.Index? {
      return Err(InvalidCast);
    }
    var buf := buffer;
    var levelCheck := false;
    var fps := facePoints.items;
    ghost var faces0 := builder.faces;
    var i := 0;
    while i < |fps|
      invariant 0 <= i <= |fps|
      invariant builder.isOpen && builder.result == old(builder.result)
      invariant WalkPoints(fps, verts, WalkState(faces0, buffer, false)) ==
        WalkPoints(fps[i..], verts, WalkState(builder.faces, buf, levelCheck))
    {
      assert fps[i..][1..] == fps[i + 1..];
      var facePoint := fps[i];
      if facePoint.Index? {
        var v := VertexAt(facePoint.index, verts);
        if v.Err? {
          return Err(v.fault);
        }
        buf := buf + [v.value];
      } else {
        if facePoint.items == [] {
          return Err(InvalidCast);
        }
        var loop := ResolveNested(facePoint.items, verts, buf);
        if loop.Err? {
          return Err(loop.fault);
        }
        builder.AddFace(loop.value);
        levelCheck := true;
        buf := [];
      }
      i := i + 1;
    }
    if !levelCheck {
      builder.AddFace(buf);
    }
    return Ok(buf);
  }

  /** `foreach (var boundary in boundaryGroup.boundaries)`, one iteration. */
  method WalkBoundary(b: Node, verts: seq<Point>, builder: TessellatedShapeBuilder) returns (r: Result<()>)
    requires builder.isOpen
    modifies builder
    ensures builder.isOpen && builder.result == old(builder.result)
    ensures BoundaryFaces(b, verts, old(builder.faces)).Err? ==>
      r == Err(BoundaryFaces(b, verts, old(builder.faces)).fault)
    ensures BoundaryFaces(b, verts, old(builder.faces)).Ok? ==>
      r.Ok? && builder.faces == BoundaryFaces(b, verts, old(builder.faces)).value
  {
    if b.Index? {
      return Err(InvalidCast);
    }
    var buf: seq<Point> := [];
    var items := b.items;
    ghost var faces0 := builder.faces;
    var i := 0;
    while i < |items|
      invariant 0 <= i <= |items|
      invariant builder.isOpen && builder.result == old(builder.result)
      invariant WalkElements(items, verts, faces0, []) == WalkElements(items[i..], verts, builder.faces, buf)
    {
      assert items[i..][1..] == items[i + 1..];
      var next := WalkElement(items[i], verts, buf, builder);
      if next.Err? {
        return Err(next.fault);
      }
      buf := next.value;
      i := i + 1;
    }
    return Ok(());
  }

  /**
   * The face set of one geometry: open a set, walk every boundary, close, build, clear, and
   * read back the built faces.
   */
  method WalkGeometry(g: Geometry, verts: seq<Point>, builder: TessellatedShapeBuilder) returns (r: Result<seq<Loop>>)
    modifies builder
    ensures r == GeometryFaces(g, verts)
    ensures r.Ok? ==> !builder.isOpen && builder.faces == []
  {
    builder.OpenConnectedFaceSet();
    var bs := g.boundaries;
    var i := 0;
    while i < |bs|
      invariant 0 <= i <= |bs|
      invariant builder.isOpen
      invariant GeometryFaces(g, verts) == BoundariesFaces(bs[i..], verts, builder.faces)
    {
      assert bs[i..][1..] == bs[i + 1..];
      var walked := WalkBoundary(bs[i], verts, builder);
      if walked.Err? {
        return Err(walked.fault);
      }
      i := i + 1;
    }
    builder.CloseConnectedFaceSet();
    builder.Build();
    builder.Clear();
    return Ok(builder.GetBuildResult());
  }
}
