/**
 * What the face walk emits for the boundary layouts of the CityJSON geometry types: one face
 * per ring for a Solid shell (holes included, each its own face), growing prefixes of the
 * rings for a flat MultiSurface surface, and a failure for a MultiPoint, a MultiLineString
 * and a MultiSolid.
 */
module FaceShapes {
  import opened Wrappers
  import opened CityModel
  import opened FaceWalk
  import Crs

  /** A ring: a non-empty list of vertex indices. */
  predicate IsRing(n: Node) {
    n.Array? && n.items != [] && forall k :: 0 <= k < |n.items| ==> n.items[k].Index?
  }

  /** A list of vertex indices, possibly empty. */
  predicate IsFlat(n: Node) {
    n.Array? && forall k :: 0 <= k < |n.items| ==> n.items[k].Index?
  }

  /** A surface of a Solid shell: a non-empty list of rings (the outer ring, then the holes). */
  predicate IsSurface(n: Node) {
    n.Array? && n.items != [] && forall k :: 0 <= k < |n.items| ==> IsRing(n.items[k])
  }

  /** A Solid shell: a list of surfaces. */
  predicate IsShell(n: Node) {
    n.Array? && forall k :: 0 <= k < |n.items| ==> IsSurface(n.items[k])
  }

  /** The boundaries of a Solid: a list of shells (the outer shell, then the cavities). */
  predicate AllShells(shells: seq<Node>) {
    shells == [] || (IsShell(shells[0]) && AllShells(shells[1..]))
  }

  /** The vertex loop of one index list, resolved on its own. */
  function Resolve(ring: Node, verts: seq<Point>): Result<Loop> {
    if ring.Array? then LookupFrom(ring.items, verts, []) else Err(InvalidCast)
  }

  /** The loops of a list of rings, in order; the first ring that cannot be resolved fails. */
  function ResolveAll(rings: seq<Node>, verts: seq<Point>): Result<seq<Loop>> {
    if rings == [] then Ok([])
    else
      var loop :- Resolve(rings[0], verts);
      var rest :- ResolveAll(rings[1..], verts);
      Ok([loop] + rest)
  }

  /** All rings of a list of surfaces, in order. */
  function RingsOf(surfaces: seq<Node>): seq<Node> {
    if surfaces == [] then []
    else (if surfaces[0].Array? then surfaces[0].items else []) + RingsOf(surfaces[1..])
  }

  /** All rings of a list of shells, in order. */
  function ShellRings(shells: seq<Node>): seq<Node> {
    if shells == [] then []
    else (if shells[0].Array? then RingsOf(shells[0].items) else []) + ShellRings(shells[1..])
  }

  // ---- resolving index lists -------------------------------------------------------------

  /**
   * Resolving a list of indices succeeds exactly when every index names a vertex, and then
   * appends the named vertices in order.
   */
  lemma {:induction false} LookupFromIs(items: seq<Node>, verts: seq<Point>, acc: seq<Point>)
    requires forall k :: 0 <= k < |items| ==> items[k].Index?
    ensures LookupFrom(items, verts, acc).Ok? <==> forall k :: 0 <= k < |items| ==> VertexAt(items[k].index, verts).Ok?
    ensures LookupFrom(items, verts, acc).Ok? ==>
      LookupFrom(items, verts, acc).value ==
        acc + seq(|items|, k requires 0 <= k < |items| => VertexAt(items[k].index, verts).value)
  {
    if items != [] {
      var v := VertexAt(items[0].index, verts);
      if v.Ok? {
        LookupFromIs(items[1..], verts, acc + [v.value]);
        forall k | 1 <= k < |items| ensures items[k] == items[1..][k - 1] { }
        if LookupFrom(items, verts, acc).Ok? {
          var tail := seq(|items| - 1, k requires 0 <= k < |items| - 1 => VertexAt(items[1..][k].index, verts).value);
          var whole := seq(|items|, k requires 0 <= k < |items| => VertexAt(items[k].index, verts).value);
          assert whole == [v.value] + tail;
        }
      }
    }
  }

  /** Resolving onto a non-empty buffer is resolving on its own, after the buffer. */
  lemma LookupFromOnto(items: seq<Node>, verts: seq<Point>, acc: seq<Point>)
    requires forall k :: 0 <= k < |items| ==> items[k].Index?
    ensures LookupFrom(items, verts, acc).Err? <==> LookupFrom(items, verts, []).Err?
    ensures LookupFrom(items, verts, acc).Err? ==> LookupFrom(items, verts, acc) == LookupFrom(items, verts, [])
    ensures LookupFrom(items, verts, acc).Ok? ==>
      LookupFrom(items, verts, acc).value == acc + LookupFrom(items, verts, []).value
  {
    LookupFromIs(items, verts, acc);
    LookupFromIs(items, verts, []);
    if !LookupFrom(items, verts, acc).Ok? {
      var k :| 0 <= k < |items| && !VertexAt(items[k].index, verts).Ok?;
      LookupFromFault(items, verts, acc, []);
    }
  }

  /** A failing lookup fails with the same fault whatever the buffer. */
  lemma {:induction false} LookupFromFault(items: seq<Node>, verts: seq<Point>, a: seq<Point>, b: seq<Point>)
    ensures LookupFrom(items, verts, a).Err? <==> LookupFrom(items, verts, b).Err?
    ensures LookupFrom(items, verts, a).Err? ==> LookupFrom(items, verts, a).fault == LookupFrom(items, verts, b).fault
  {
    if items != [] && items[0].Index? && VertexAt(items[0].index, verts).Ok? {
      var v := VertexAt(items[0].index, verts).value;
      LookupFromFault(items[1..], verts, a + [v], b + [v]);
    }
  }

  /** Resolving two runs of rings is resolving each and concatenating. */
  lemma {:induction false} ResolveAllAppend(a: seq<Node>, b: seq<Node>, verts: seq<Point>)
    ensures ResolveAll(a, verts).Err? ==> ResolveAll(a + b, verts) == Err(ResolveAll(a, verts).fault)
    ensures ResolveAll(a, verts).Ok? && ResolveAll(b, verts).Err? ==>
      ResolveAll(a + b, verts) == Err(ResolveAll(b, verts).fault)
    ensures ResolveAll(a, verts).Ok? && ResolveAll(b, verts).Ok? ==>
      ResolveAll(a + b, verts) == Ok(ResolveAll(a, verts).value + ResolveAll(b, verts).value)
  {
    if a == [] {
      assert a + b == b;
      if ResolveAll(b, verts).Ok? {
        assert [] + ResolveAll(b, verts).value == ResolveAll(b, verts).value;
      }
    } else {
      assert (a + b)[0] == a[0];
      assert (a + b)[1..] == a[1..] + b;
      ResolveAllAppend(a[1..], b, verts);
      if ResolveAll(a, verts).Ok? && ResolveAll(b, verts).Ok? {
        var loop := Resolve(a[0], verts).value;
        assert [loop] + (ResolveAll(a[1..], verts).value + ResolveAll(b, verts).value) ==
               ([loop] + ResolveAll(a[1..], verts).value) + ResolveAll(b, verts).value;
      }
    }
  }

  // ---- Solid: every ring is its own face ---------------------------------------------------

  /** Rings met as facePoints with an empty buffer: each is emitted on its own and the buffer cleared. */
  lemma {:induction false} WalkRings(rings: seq<Node>, verts: seq<Point>, faces: seq<Loop>, nested: bool)
    requires forall k :: 0 <= k < |rings| ==> IsRing(rings[k])
    ensures ResolveAll(rings, verts).Err? ==>
      WalkPoints(rings, verts, WalkState(faces, [], nested)) == Err(ResolveAll(rings, verts).fault)
    ensures ResolveAll(rings, verts).Ok? ==>
      WalkPoints(rings, verts, WalkState(faces, [], nested)) ==
      Ok(WalkState(faces + ResolveAll(rings, verts).value, [], nested || rings != []))
  {
    if rings != [] {
      forall k | 0 <= k < |rings[1..]| ensures IsRing(rings[1..][k]) {
        assert rings[1..][k] == rings[k + 1];
      }
      var r := LookupFrom(rings[0].items, verts, []);
      assert Resolve(rings[0], verts) == r;
      assert PointStep(rings[0], verts, WalkState(faces, [], nested)) ==
        if r.Ok? then Ok(WalkState(faces + [r.value], [], true)) else Err(r.fault);
      if r.Ok? {
        WalkRings(rings[1..], verts, faces + [r.value], true);
        if ResolveAll(rings[1..], verts).Ok? {
          assert faces + [r.value] + ResolveAll(rings[1..], verts).value ==
                 faces + ([r.value] + ResolveAll(rings[1..], verts).value);
        }
      }
    } else {
      assert faces + [] == faces;
    }
  }

  /** The surfaces of a shell, walked as elements: one face per ring, the buffer left empty. */
  lemma {:induction false} WalkSurfaces(surfaces: seq<Node>, verts: seq<Point>, faces: seq<Loop>)
    requires forall k :: 0 <= k < |surfaces| ==> IsSurface(surfaces[k])
    ensures ResolveAll(RingsOf(surfaces), verts).Err? ==>
      WalkElements(surfaces, verts, faces, []) == Err(ResolveAll(RingsOf(surfaces), verts).fault)
    ensures ResolveAll(RingsOf(surfaces), verts).Ok? ==>
      WalkElements(surfaces, verts, faces, []) == Ok(faces + ResolveAll(RingsOf(surfaces), verts).value)
  {
    if surfaces == [] {
      assert faces + [] == faces;
    } else {
      var s := surfaces[0];
      forall k | 0 <= k < |surfaces[1..]| ensures IsSurface(surfaces[1..][k]) {
        assert surfaces[1..][k] == surfaces[k + 1];
      }
      WalkRings(s.items, verts, faces, false);
      ResolveAllAppend(s.items, RingsOf(surfaces[1..]), verts);
      var first := ResolveAll(s.items, verts);
      if first.Ok? {
        WalkSurfaces(surfaces[1..], verts, faces + first.value);
        if ResolveAll(RingsOf(surfaces[1..]), verts).Ok? {
          assert faces + first.value + ResolveAll(RingsOf(surfaces[1..]), verts).value ==
                 faces + (first.value + ResolveAll(RingsOf(surfaces[1..]), verts).value);
        }
      }
    }
  }

  /**
   * A Solid shell yields one face per ring of each of its surfaces, in order, holes included
   * as faces of their own; it fails exactly when some ring fails to resolve.
   */
  lemma ShellFaces(shell: Node, verts: seq<Point>, faces: seq<Loop>)
    requires IsShell(shell)
    ensures ResolveAll(RingsOf(shell.items), verts).Err? ==>
      BoundaryFaces(shell, verts, faces) == Err(ResolveAll(RingsOf(shell.items), verts).fault)
    ensures ResolveAll(RingsOf(shell.items), verts).Ok? ==>
      BoundaryFaces(shell, verts, faces) == Ok(faces + ResolveAll(RingsOf(shell.items), verts).value)
  {
    WalkSurfaces(shell.items, verts, faces);
  }

  /** The first shell of a Solid: its rings are walked first, and then the other shells. */
  lemma SolidStep(shells: seq<Node>, verts: seq<Point>, faces: seq<Loop>)
    requires shells != [] && IsShell(shells[0])
    ensures
      var first := ResolveAll(RingsOf(shells[0].items), verts);
      var after := ResolveAll(ShellRings(shells[1..]), verts);
      && (first.Err? ==> BoundariesFaces(shells, verts, faces) == Err(first.fault) &&
                         ResolveAll(ShellRings(shells), verts) == Err(first.fault))
      && (first.Ok? ==>
            BoundariesFaces(shells, verts, faces) == BoundariesFaces(shells[1..], verts, faces + first.value))
      && (first.Ok? && after.Err? ==> ResolveAll(ShellRings(shells), verts) == Err(after.fault))
      && (first.Ok? && after.Ok? ==> ResolveAll(ShellRings(shells), verts) == Ok(first.value + after.value))
  {
    var own := RingsOf(shells[0].items);
    assert ShellRings(shells) == own + ShellRings(shells[1..]);
    ShellFaces(shells[0], verts, faces);
    ResolveAllAppend(own, ShellRings(shells[1..]), verts);
  }

  /** A Solid geometry (a list of shells) yields one face per ring of all its shells. */
  lemma {:induction false} SolidFaces(shells: seq<Node>, verts: seq<Point>, faces: seq<Loop>)
    requires AllShells(shells)
    ensures ResolveAll(ShellRings(shells), verts).Err? ==>
      BoundariesFaces(shells, verts, faces) == Err(ResolveAll(ShellRings(shells), verts).fault)
    ensures ResolveAll(ShellRings(shells), verts).Ok? ==>
      BoundariesFaces(shells, verts, faces) == Ok(faces + ResolveAll(ShellRings(shells), verts).value)
  {
    if shells == [] {
      assert faces + [] == faces;
    } else {
      assert IsShell(shells[0]) && AllShells(shells[1..]);
      SolidStep(shells, verts, faces);
      var first := ResolveAll(RingsOf(shells[0].items), verts);
      if first.Ok? {
        var faces' := faces + first.value;
        SolidFaces(shells[1..], verts, faces');
        var after := ResolveAll(ShellRings(shells[1..]), verts);
        if after.Ok? {
          assert faces' + after.value == faces + (first.value + after.value);
        }
      }
    }
  }

  /** Resolving rings succeeds exactly when every index of every ring names a vertex. */
  lemma {:induction false} ResolveAllSucceeds(rings: seq<Node>, verts: seq<Point>)
    requires forall k :: 0 <= k < |rings| ==> IsFlat(rings[k])
    ensures ResolveAll(rings, verts).Ok? <==>
      forall r, k :: 0 <= r < |rings| && IsFlat(rings[r]) && 0 <= k < |rings[r].items| ==>
        VertexAt(rings[r].items[k].index, verts).Ok?
    ensures ResolveAll(rings, verts).Ok? ==> |ResolveAll(rings, verts).value| == |rings|
  {
    if rings != [] {
      LookupFromIs(rings[0].items, verts, []);
      forall k | 0 <= k < |rings[1..]| ensures IsFlat(rings[1..][k]) {
        assert rings[1..][k] == rings[k + 1];
      }
      ResolveAllSucceeds(rings[1..], verts);
      forall r | 1 <= r < |rings| ensures rings[r] == rings[1..][r - 1] { }
    }
  }

  // ---- MultiSurface: the buffer keeps growing within a surface -----------------------------

  /** Index lists met as facePoints append to the buffer and emit nothing. */
  lemma {:induction false} WalkFlatPoints(items: seq<Node>, verts: seq<Point>, faces: seq<Loop>,
                                          buffer: seq<Point>, nested: bool)
    requires forall k :: 0 <= k < |items| ==> items[k].Index?
    ensures LookupFrom(items, verts, buffer).Err? ==>
      WalkPoints(items, verts, WalkState(faces, buffer, nested)) == Err(LookupFrom(items, verts, buffer).fault)
    ensures LookupFrom(items, verts, buffer).Ok? ==>
      WalkPoints(items, verts, WalkState(faces, buffer, nested)) ==
        Ok(WalkState(faces, LookupFrom(items, verts, buffer).value, nested))
  {
    if items != [] {
      var v := VertexAt(items[0].index, verts);
      if v.Ok? {
        forall k | 0 <= k < |items[1..]| ensures items[1..][k].Index? {
          assert items[1..][k] == items[k + 1];
        }
        WalkFlatPoints(items[1..], verts, faces, buffer + [v.value], nested);
      }
    }
  }

  /** The faces a flat surface emits from buffer `buffer`: each ring extends the buffer and emits it whole. */
  function Accumulated(buffer: seq<Point>, ls: seq<Loop>): seq<Loop>
    decreases |ls|
  {
    if ls == [] then [] else [buffer + ls[0]] + Accumulated(buffer + ls[0], ls[1..])
  }

  function Concat(ls: seq<Loop>): seq<Point> {
    if ls == [] then [] else ls[0] + Concat(ls[1..])
  }

  lemma {:induction false} WalkFlatRings(rings: seq<Node>, verts: seq<Point>, faces: seq<Loop>, buffer: seq<Point>)
    requires forall k :: 0 <= k < |rings| ==> IsFlat(rings[k])
    ensures ResolveAll(rings, verts).Err? ==>
      WalkElements(rings, verts, faces, buffer) == Err(ResolveAll(rings, verts).fault)
    ensures ResolveAll(rings, verts).Ok? ==>
      WalkElements(rings, verts, faces, buffer) == Ok(faces + Accumulated(buffer, ResolveAll(rings, verts).value))
  {
    if rings == [] {
      assert faces + [] == faces;
    } else {
      var r := rings[0];
      WalkFlatPoints(r.items, verts, faces, buffer, false);
      LookupFromOnto(r.items, verts, buffer);
      forall k | 0 <= k < |rings[1..]| ensures IsFlat(rings[1..][k]) {
        assert rings[1..][k] == rings[k + 1];
      }
      var first := LookupFrom(r.items, verts, []);
      if first.Ok? {
        var b := buffer + first.value;
        WalkFlatRings(rings[1..], verts, faces + [b], b);
        if ResolveAll(rings[1..], verts).Ok? {
          var ls := ResolveAll(rings, verts).value;
          assert ls[1..] == ResolveAll(rings[1..], verts).value;
          assert faces + [b] + Accumulated(b, ls[1..]) == faces + ([b] + Accumulated(b, ls[1..]));
        }
      }
    }
  }

  /**
   * A flat MultiSurface surface (a list of rings of indices) is walked without clearing the
   * buffer between its rings: its k-th face is all its rings up to and including the k-th,
   * concatenated. The outer ring alone is the first face; each hole adds a face that repeats
   * everything before it.
   */
  lemma MultiSurfaceFaces(rings: seq<Node>, verts: seq<Point>, faces: seq<Loop>)
    requires forall k :: 0 <= k < |rings| ==> IsFlat(rings[k])
    ensures ResolveAll(rings, verts).Err? ==>
      BoundaryFaces(Array(rings), verts, faces) == Err(ResolveAll(rings, verts).fault)
    ensures ResolveAll(rings, verts).Ok? ==>
      BoundaryFaces(Array(rings), verts, faces) == Ok(faces + Accumulated([], ResolveAll(rings, verts).value))
  {
    WalkFlatRings(rings, verts, faces, []);
  }

  /** Face k of a flat surface is the buffer it started with and the rings 0 to k. */
  lemma {:induction false} AccumulatedAt(buffer: seq<Point>, ls: seq<Loop>, k: nat)
    requires k < |ls|
    ensures |Accumulated(buffer, ls)| == |ls|
    ensures Accumulated(buffer, ls)[k] == buffer + Concat(ls[..k + 1])
    decreases |ls|
  {
    AccumulatedLength(buffer, ls);
    if k == 0 {
      assert ls[..1] == [ls[0]];
      assert Concat(ls[..1]) == ls[0] + Concat([]);
    } else {
      AccumulatedAt(buffer + ls[0], ls[1..], k - 1);
      assert ls[..k + 1][1..] == ls[1..][..k];
      assert Concat(ls[..k + 1]) == ls[0] + Concat(ls[1..][..k]);
    }
  }

  lemma {:induction false} AccumulatedLength(buffer: seq<Point>, ls: seq<Loop>)
    ensures |Accumulated(buffer, ls)| == |ls|
    decreases |ls|
  {
    if ls != [] {
      AccumulatedLength(buffer + ls[0], ls[1..]);
    }
  }

  // ---- MultiPoint, MultiLineString and MultiSolid -----------------------------------------

  /** A MultiPoint boundary is a bare index, which the boundary loop cannot iterate. */
  lemma PointFails(n: int, rest: seq<Node>, verts: seq<Point>, faces: seq<Loop>)
    ensures BoundariesFaces([Index(n)] + rest, verts, faces) == Err(InvalidCast)
  {
    assert ([Index(n)] + rest)[0] == Index(n);
  }

  /**
   * A MultiLineString boundary is a list of indices: the element loop meets a bare index
   * where it expects a list of face points, and the walk fails.
   */
  lemma LineStringFails(n: int, rest: seq<Node>, verts: seq<Point>, faces: seq<Loop>)
    ensures BoundaryFaces(Array([Index(n)] + rest), verts, faces) == Err(InvalidCast)
  {
    assert ([Index(n)] + rest)[0] == Index(n);
  }

  /** Every element of a boundary the element loop walks without fault is a list. */
  lemma {:induction false} ElementsAreLists(items: seq<Node>, verts: seq<Point>, faces: seq<Loop>, buffer: seq<Point>)
    requires WalkElements(items, verts, faces, buffer).Ok?
    ensures forall j :: 0 <= j < |items| ==> items[j].Array?
  {
    if items != [] {
      var st := ElementStep(items[0], verts, faces, buffer).value;
      ElementsAreLists(items[1..], verts, st.faces, st.buffer);
      forall j | 1 <= j < |items| ensures items[j].Array? {
        assert items[j] == items[1..][j - 1];
      }
    }
  }

  /**
   * A geometry walks without fault only when every boundary is a list of lists: the
   * MultiPoint and MultiLineString layouts, which put bare indices at those levels, abort.
   */
  lemma {:induction false} WalkedBoundariesAreLists(bs: seq<Node>, verts: seq<Point>, faces: seq<Loop>)
    requires BoundariesFaces(bs, verts, faces).Ok?
    ensures forall k :: 0 <= k < |bs| ==> bs[k].Array? && forall j :: 0 <= j < |bs[k].items| ==> bs[k].items[j].Array?
  {
    if bs != [] {
      ElementsAreLists(bs[0].items, verts, faces, []);
      var faces' := BoundaryFaces(bs[0], verts, faces).value;
      WalkedBoundariesAreLists(bs[1..], verts, faces');
      forall k | 1 <= k < |bs|
        ensures bs[k].Array? && forall j :: 0 <= j < |bs[k].items| ==> bs[k].items[j].Array?
      {
        assert bs[k] == bs[1..][k - 1];
      }
    }
  }

  /**
   * A MultiSolid boundary (a solid: shells of surfaces of rings) puts a ring where a vertex
   * index is read, so the first non-empty surface of its first shell makes the walk fail.
   */
  lemma MultiSolidFails(shells: seq<Node>, surfaces: seq<Node>, rest: seq<Node>, verts: seq<Point>, faces: seq<Loop>)
    requires shells != [] && shells[0] == Array(surfaces)
    requires surfaces != [] && surfaces[0].Array? && surfaces[0].items != [] && surfaces[0].items[0].Array?
    ensures BoundaryFaces(Array(shells), verts, faces) == Err(InvalidCast)
  {
    assert LookupFrom(surfaces[0].items, verts, []) == Err(InvalidCast);
  }

  /** An index 2^32 past a vertex wraps around to that vertex. */
  lemma WrappedIndexAliases(k: nat, verts: seq<Point>)
    requires k < |verts| && k <= Crs.Int32Max
    ensures VertexAt(k + 0x1_0000_0000, verts) == Ok(verts[k])
  {
    assert Wrap32(k + 0x1_0000_0000) == k;
  }

  // ---- faces are made of pool vertices ----------------------------------------------------

  predicate PointsIn(ps: seq<Point>, verts: seq<Point>) {
    forall k :: 0 <= k < |ps| ==> ps[k] in verts
  }

  predicate LoopsIn(ls: seq<Loop>, verts: seq<Point>) {
    forall k :: 0 <= k < |ls| ==> PointsIn(ls[k], verts)
  }

  predicate StateIn(st: WalkState, verts: seq<Point>) {
    LoopsIn(st.faces, verts) && PointsIn(st.buffer, verts)
  }

  lemma {:induction false} LookupFromIn(items: seq<Node>, verts: seq<Point>, acc: seq<Point>)
    requires PointsIn(acc, verts) && LookupFrom(items, verts, acc).Ok?
    ensures PointsIn(LookupFrom(items, verts, acc).value, verts)
  {
    if items != [] {
      var v := VertexAt(items[0].index, verts).value;
      LookupFromIn(items[1..], verts, acc + [v]);
    }
  }

  lemma {:induction false} WalkPointsIn(fps: seq<Node>, verts: seq<Point>, st: WalkState)
    requires StateIn(st, verts) && WalkPoints(fps, verts, st).Ok?
    ensures StateIn(WalkPoints(fps, verts, st).value, verts)
  {
    if fps != [] {
      var next := PointStep(fps[0], verts, st).value;
      if fps[0].Array? {
        LookupFromIn(fps[0].items, verts, st.buffer);
      }
      assert StateIn(next, verts);
      WalkPointsIn(fps[1..], verts, next);
    }
  }

  lemma {:induction false} WalkElementsIn(items: seq<Node>, verts: seq<Point>, faces: seq<Loop>, buffer: seq<Point>)
    requires LoopsIn(faces, verts) && PointsIn(buffer, verts) && WalkElements(items, verts, faces, buffer).Ok?
    ensures LoopsIn(WalkElements(items, verts, faces, buffer).value, verts)
  {
    if items != [] {
      var start := WalkState(faces, buffer, false);
      if items[0].Array? {
        WalkPointsIn(items[0].items, verts, start);
      }
      var st := ElementStep(items[0], verts, faces, buffer).value;
      assert StateIn(st, verts);
      WalkElementsIn(items[1..], verts, st.faces, st.buffer);
    }
  }

  lemma {:induction false} BoundariesFacesIn(bs: seq<Node>, verts: seq<Point>, faces: seq<Loop>)
    requires LoopsIn(faces, verts) && BoundariesFaces(bs, verts, faces).Ok?
    ensures LoopsIn(BoundariesFaces(bs, verts, faces).value, verts)
  {
    if bs != [] {
      if bs[0].Array? {
        WalkElementsIn(bs[0].items, verts, faces, []);
      }
      BoundariesFacesIn(bs[1..], verts, BoundaryFaces(bs[0], verts, faces).value);
    }
  }

  /** Every point of every face a geometry emits is a vertex of the pool. */
  lemma GeometryFacesIn(g: Geometry, verts: seq<Point>)
    requires GeometryFaces(g, verts).Ok?
    ensures LoopsIn(GeometryFaces(g, verts).value, verts)
  {
    BoundariesFacesIn(g.boundaries, verts, []);
  }
}
