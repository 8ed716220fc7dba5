/**
 * Program.Execute: one import of a CityJSON file into the open project, from the
 * already-loaded check to the recording of the file's path, with the host's site, its
 * materials and the user's dialog answers given as inputs.
 */
module Import {
  import opened Wrappers
  import opened CityModel
  import Crs
  import Validity
  import opened Vertices
  import LodSelection
  import Parameters
  import ParentMap
  import Materials
  import opened Shapes
  import LoadedFiles
  import FaceWalk
  import FaceShapes

  /**
   * How an import ends when nothing throws. A thrown exception leaves the "Load CityJSON"
   * transaction uncommitted, so an Err of the model stands for "the import changed nothing".
   * The CJ materials that matGenerator may have created and committed before that
   * transaction opened stay in the project, whatever the outcome.
   */
  datatype Outcome =
    | AlreadyLoaded   // the path is in the record: the import changes nothing
    | InvalidFile     // CheckValidity refused the document
    | NoLodChosen(movedSite: Option<Planar>, params: seq<string>)
    | TemplatingUnsupported(movedSite: Option<Planar>, params: seq<string>)
    | Imported(movedSite: Option<Planar>, shapes: seq<Shape>, box: Option<Box>, params: seq<string>,
               loadedFiles: string)

  /** The project state and the user's answers that the import consults. */
  datatype Host = Host(
    site: Planar,               // the project site as (longitude, latitude) in degrees
    materials: seq<string>,     // what matGenerator returned, in palette order
    existing: seq<string>,      // names of the materials in the project
    moveSite: bool,             // the answer of the site dialog, if it is shown
    forward: (int, Planar) -> Planar,    // reprojection from a reference system to geographic
    reverse: (int, Planar) -> Planar,    // reprojection from geographic to a reference system
    choose: seq<string> -> string)       // the answer of the LoD dialog

  /**
   * Whether the site is moved onto the document: the dialog is shown only when the site
   * differs from the document's reprojected `translate`, and then the user decides.
   */
  function Relocate(epsg: int, translate: Triple, host: Host): bool {
    epsg != Crs.NoReferenceSystem && host.forward(epsg, Planar(translate.x, translate.y)) != host.site && host.moveSite
  }

  /** The object loop: a material per object, then its shapes, after the shapes `acc`. */
  function DocumentShapes(es: seq<Entry>, lod: string, verts: seq<Point>, params: seq<string>,
                          parents: map<string, seq<Attr>>, host: Host, acc: seq<Shape>): Result<seq<Shape>>
  {
    if es == [] then Ok(acc)
    else
      var material :- Materials.MatSelector(host.materials, host.existing, es[0].obj.objectType);
      var shapes :- ObjectShapes(es[0], material, verts, lod, params, parents);
      DocumentShapes(es[1..], lod, verts, params, parents, host, acc + shapes)
  }

  /** The site after the import: moved onto the document's reprojected `translate`, or unchanged. */
  function MovedSite(epsg: int, translate: Triple, host: Host): Option<Planar> {
    if Relocate(epsg, translate, host) then Some(host.forward(epsg, Planar(translate.x, translate.y))) else None
  }

  /** The placed vertex pool: scaled, shifted by the site offset, converted to feet. */
  function PlacedVertices(doc: CityDocument, epsg: int, host: Host): seq<Point>
    requires Validity.CheckValidity(doc)
  {
    var translate := doc.transform.value.translate.value;
    var offset := SiteOffset(epsg, Relocate(epsg, translate, host), translate, host.site, host.reverse);
    PlaceAll(doc.vertices.value, doc.transform.value.scale.value, offset.x, offset.y)
  }

  /** The import after the vertices are placed: LoD choice, parameters, parent map and shapes. */
  function ConvertObjects(es: seq<Entry>, verts: seq<Point>, moved: Option<Planar>, files: string, path: string,
                          host: Host): Result<Outcome>
  {
    var lod := LodSelection.SelectLod(es, host.choose);
    var params := Parameters.ParameterNames(es);
    if lod == "" then Ok(NoLodChosen(moved, params))
    else if lod == LodSelection.Failed then Ok(TemplatingUnsupported(moved, params))
    else
      var parents :- ParentMap.ParentMapOf(es);
      var shapes :- DocumentShapes(es, lod, verts, params, parents, host, []);
      Ok(Imported(moved, shapes, Bounds(verts), params, LoadedFiles.RecordLoaded(files, path)))
  }

  /** The whole import, step by step in the order Execute takes them. */
  function ImportSpec(doc: CityDocument, files: string, path: string, host: Host): Result<Outcome> {
    if path in LoadedFiles.Split(files) then Ok(AlreadyLoaded)
    else if !Validity.CheckValidity(doc) then Ok(InvalidFile)
    else
      var epsg :- Crs.EpsgNum(doc.metadata);
      ConvertObjects(doc.cityObjects.value, PlacedVertices(doc, epsg, host),
                     MovedSite(epsg, doc.transform.value.translate.value, host), files, path, host)
  }

  /** The foreach over `CityObjects` that creates the shapes. */
  method BuildShapes(es: seq<Entry>, lod: string, verts: seq<Point>, params: seq<string>,
                     parents: map<string, seq<Attr>>, host: Host) returns (r: Result<seq<Shape>>)
    ensures r == DocumentShapes(es, lod, verts, params, parents, host, [])
  {
    var shapes: seq<Shape> := [];
    var i := 0;
    while i < |es|
      invariant 0 <= i <= |es|
      invariant DocumentShapes(es, lod, verts, params, parents, host, []) ==
        DocumentShapes(es[i..], lod, verts, params, parents, host, shapes)
    {
      assert es[i..][1..] == es[i + 1..];
      var material := Materials.MatSelector(host.materials, host.existing, es[i].obj.objectType);
      if material.Err? {
        return Err(material.fault);
      }
      var created := CreateTessellatedShape(es[i], material.value, verts, lod, params, parents);
      if created.Err? {
        return Err(created.fault);
      }
      shapes := shapes + created.value;
      i := i + 1;
    }
    return Ok(shapes);
  }

  /** The placement branch of Execute: no reference system, site moved, or offset from the site. */
  method PlaceVertices(doc: CityDocument, epsg: int, host: Host)
    returns (moved: Option<Planar>, verts: seq<Point>, box: Option<Box>)
    requires Validity.CheckValidity(doc)
    ensures moved == MovedSite(epsg, doc.transform.value.translate.value, host)
    ensures verts == PlacedVertices(doc, epsg, host) && box == Bounds(verts)
  {
    var scale := doc.transform.value.scale.value;
    var translate := doc.transform.value.translate.value;
    moved := None;
    if epsg == Crs.NoReferenceSystem {
      verts, box := VertBuilder(doc.vertices.value, scale, 0.0, 0.0);
      return;
    }
    var projected := host.forward(epsg, Planar(translate.x, translate.y));
    var newLocation := false;
    if host.site != projected {
      newLocation := host.moveSite;
    }
    if newLocation {
      moved := Some(projected);
      verts, box := VertBuilder(doc.vertices.value, scale, 0.0, 0.0);
    } else {
      var anchor := host.reverse(epsg, host.site);
      verts, box := VertBuilder(doc.vertices.value, scale, translate.x - anchor.x, translate.y - anchor.y);
    }
  }

  /** From the LoD choice to the recorded path. */
  method Convert(es: seq<Entry>, verts: seq<Point>, box: Option<Box>, moved: Option<Planar>, files: string,
                 path: string, host: Host) returns (r: Result<Outcome>)
    requires box == Bounds(verts)
    ensures r == ConvertObjects(es, verts, moved, files, path, host)
  {
    var lod := LodSelection.LodSelecter(es, host.choose);
    var params := Parameters.ParamFinder(es);
    if lod == "" {
      return Ok(NoLodChosen(moved, params));
    }
    if lod == LodSelection.Failed {
      return Ok(TemplatingUnsupported(moved, params));
    }
    var parents := ParentMap.BuildParentMap(es);
    if parents.Err? {
      return Err(parents.fault);
    }
    var shapes := BuildShapes(es, lod, verts, params, parents.value, host);
    if shapes.Err? {
      return Err(shapes.fault);
    }
    return Ok(Imported(moved, shapes.value, box, params, LoadedFiles.RecordLoaded(files, path)));
  }

  method Execute(doc: CityDocument, files: string, path: string, host: Host) returns (r: Result<Outcome>)
    ensures r == ImportSpec(doc, files, path, host)
  {
    var loaded := LoadedFiles.CheckExist(path, files);
    if loaded {
      return Ok(AlreadyLoaded);
    }
    if !Validity.CheckValidity(doc) {
      return Ok(InvalidFile);
    }
    var epsg := Crs.EpsgNum(doc.metadata);
    if epsg.Err? {
      return Err(epsg.fault);
    }
    var moved, verts, box := PlaceVertices(doc, epsg.value, host);
    r := Convert(doc.cityObjects.value, verts, box, moved, files, path, host);
  }

  // ---- what an import promises ------------------------------------------------------------

  /** A successful import of a clean path records it, so importing that path again is refused. */
  lemma ImportOnce(doc: CityDocument, files: string, path: string, host: Host, nextDoc: CityDocument, nextHost: Host)
    requires LoadedFiles.Clean(path)
    requires ImportSpec(doc, files, path, host).Ok? && ImportSpec(doc, files, path, host).value.Imported?
    ensures ImportSpec(nextDoc, ImportSpec(doc, files, path, host).value.loadedFiles, path, nextHost) == Ok(AlreadyLoaded)
  {
    var recorded := ImportSpec(doc, files, path, host).value.loadedFiles;
    ImportKeepsRecord(doc, files, path, host);
    assert LoadedFiles.Split(recorded)[|LoadedFiles.Split(files)|] == path;
    RecordedIsRefused(nextDoc, recorded, path, nextHost);
  }

  /** The first step of the command: a recorded path is refused before anything else. */
  lemma RecordedIsRefused(doc: CityDocument, files: string, path: string, host: Host)
    requires path in LoadedFiles.Split(files)
    ensures ImportSpec(doc, files, path, host) == Ok(AlreadyLoaded)
  {
  }

  /** A successful import keeps every recorded path and adds its own after them. */
  lemma ImportKeepsRecord(doc: CityDocument, files: string, path: string, host: Host)
    requires LoadedFiles.Clean(path)
    requires ImportSpec(doc, files, path, host).Ok? && ImportSpec(doc, files, path, host).value.Imported?
    ensures path !in LoadedFiles.Split(files)
    ensures LoadedFiles.Split(ImportSpec(doc, files, path, host).value.loadedFiles) == LoadedFiles.Split(files) + [path]
  {
    LoadedFiles.RecordClean(files, path);
  }

  /** Every shape of the object loop comes from one object, under that object's material. */
  lemma {:induction false} DocumentShapesMember(es: seq<Entry>, lod: string, verts: seq<Point>, params: seq<string>,
                                                parents: map<string, seq<Attr>>, host: Host, acc: seq<Shape>, s: Shape)
    requires DocumentShapes(es, lod, verts, params, parents, host, acc).Ok?
    requires s in DocumentShapes(es, lod, verts, params, parents, host, acc).value
    ensures s in acc || exists i :: 0 <= i < |es| && ObjectShape(es[i], lod, verts, params, parents, host, s)
  {
    if es != [] {
      var material := Materials.MatSelector(host.materials, host.existing, es[0].obj.objectType).value;
      var shapes := ObjectShapes(es[0], material, verts, lod, params, parents).value;
      DocumentShapesMember(es[1..], lod, verts, params, parents, host, acc + shapes, s);
      if s !in acc && s in shapes {
        assert ObjectShape(es[0], lod, verts, params, parents, host, s);
      }
      if exists i :: 0 <= i < |es[1..]| && ObjectShape(es[1..][i], lod, verts, params, parents, host, s) {
        var i :| 0 <= i < |es[1..]| && ObjectShape(es[1..][i], lod, verts, params, parents, host, s);
        assert es[1..][i] == es[i + 1];
      }
    }
  }

  /** `s` is one of the shapes created for the object `e`. */
  predicate ObjectShape(e: Entry, lod: string, verts: seq<Point>, params: seq<string>,
                        parents: map<string, seq<Attr>>, host: Host, s: Shape)
  {
    var material := Materials.MatSelector(host.materials, host.existing, e.obj.objectType);
    material.Ok? && ObjectShapes(e, material.value, verts, lod, params, parents).Ok? &&
    s in ObjectShapes(e, material.value, verts, lod, params, parents).value
  }

  /**
   * A shape created for an object is named after the object and the level, carries the
   * object's material, and holds the faces of one of its geometries at that level.
   */
  lemma ObjectShapeIs(e: Entry, lod: string, verts: seq<Point>, params: seq<string>,
                      parents: map<string, seq<Attr>>, host: Host, s: Shape)
    requires ObjectShape(e, lod, verts, params, parents, host, s)
    ensures s.name == ShapeName(e.id, lod)
    ensures Materials.MatSelector(host.materials, host.existing, e.obj.objectType) == Ok(s.material)
    ensures e.obj.geometry.Some? &&
      exists g :: g in e.obj.geometry.value && g.lod == Some(lod) && FaceWalk.GeometryFaces(g, verts) == Ok(s.faces)
  {
    var material := Materials.MatSelector(host.materials, host.existing, e.obj.objectType).value;
    ObjectShapesAre(e, material, verts, lod, params, parents);
    var shapes := ObjectShapes(e, material, verts, lod, params, parents).value;
    var k :| 0 <= k < |shapes| && shapes[k] == s;
    var g := AtLevel(e.obj.geometry.value, lod)[k];
    assert g in e.obj.geometry.value && g.lod == Some(lod);
  }

  /**
   * An import succeeds only for a new path and a valid document whose LoD choice is a real
   * label, and each shape it creates belongs to a city object, is named `id-lod <choice>` and
   * carries that object's material.
   */
  lemma ImportedShapes(doc: CityDocument, files: string, path: string, host: Host)
    requires ImportSpec(doc, files, path, host).Ok? && ImportSpec(doc, files, path, host).value.Imported?
    ensures path !in LoadedFiles.Split(files) && Validity.CheckValidity(doc)
    ensures
      var es := doc.cityObjects.value;
      var lod := LodSelection.SelectLod(es, host.choose);
      && lod != "" && lod != LodSelection.Failed
      && forall s :: s in ImportSpec(doc, files, path, host).value.shapes ==>
           exists i :: 0 <= i < |es| && s.name == ShapeName(es[i].id, lod) &&
             Materials.MatSelector(host.materials, host.existing, es[i].obj.objectType) == Ok(s.material)
  {
    var es := doc.cityObjects.value;
    var lod := LodSelection.SelectLod(es, host.choose);
    var epsg := Crs.EpsgNum(doc.metadata).value;
    var verts := PlacedVertices(doc, epsg, host);
    var params := Parameters.ParameterNames(es);
    var parents := ParentMap.ParentMapOf(es).value;
    forall s | s in ImportSpec(doc, files, path, host).value.shapes
      ensures exists i :: (0 <= i < |es| && s.name == ShapeName(es[i].id, lod) &&
        Materials.MatSelector(host.materials, host.existing, es[i].obj.objectType) == Ok(s.material))
    {
      DocumentShapesMember(es, lod, verts, params, parents, host, [], s);
      var i :| 0 <= i < |es| && ObjectShape(es[i], lod, verts, params, parents, host, s);
      ObjectShapeIs(es[i], lod, verts, params, parents, host, s);
    }
  }

  /** Every point of every face of `shapes` lies inside `box`. */
  predicate FacesInside(shapes: seq<Shape>, box: Option<Box>) {
    forall n, k, p :: 0 <= n < |shapes| && 0 <= k < |shapes[n].faces| && p in shapes[n].faces[k] ==>
      box.Some? && Inside(p, box.value)
  }

  /** A point of a face of the object loop lies inside the bounds of the vertex pool. */
  lemma FacePointInside(es: seq<Entry>, lod: string, verts: seq<Point>, params: seq<string>,
                        parents: map<string, seq<Attr>>, host: Host, s: Shape, k: int, j: int)
    requires DocumentShapes(es, lod, verts, params, parents, host, []).Ok?
    requires s in DocumentShapes(es, lod, verts, params, parents, host, []).value
    requires 0 <= k < |s.faces| && 0 <= j < |s.faces[k]|
    ensures Bounds(verts).Some? && Inside(s.faces[k][j], Bounds(verts).value)
  {
    DocumentShapesMember(es, lod, verts, params, parents, host, [], s);
    var i :| 0 <= i < |es| && ObjectShape(es[i], lod, verts, params, parents, host, s);
    ObjectShapeIs(es[i], lod, verts, params, parents, host, s);
    var g :| g in es[i].obj.geometry.value && g.lod == Some(lod) && FaceWalk.GeometryFaces(g, verts) == Ok(s.faces);
    FaceShapes.GeometryFacesIn(g, verts);
    var m :| 0 <= m < |verts| && verts[m] == s.faces[k][j];
    BoundsTight(verts);
  }

  /** Every point of every face of the object loop lies inside the bounds of the vertex pool. */
  lemma ShapesInsideBounds(es: seq<Entry>, lod: string, verts: seq<Point>, params: seq<string>,
                           parents: map<string, seq<Attr>>, host: Host)
    requires DocumentShapes(es, lod, verts, params, parents, host, []).Ok?
    ensures FacesInside(DocumentShapes(es, lod, verts, params, parents, host, []).value, Bounds(verts))
  {
    var shapes := DocumentShapes(es, lod, verts, params, parents, host, []).value;
    forall n, k, p | 0 <= n < |shapes| && 0 <= k < |shapes[n].faces| && p in shapes[n].faces[k]
      ensures Bounds(verts).Some? && Inside(p, Bounds(verts).value)
    {
      var j :| 0 <= j < |shapes[n].faces[k]| && shapes[n].faces[k][j] == p;
      FacePointInside(es, lod, verts, params, parents, host, shapes[n], k, j);
    }
    if exists n, k, p :: 0 <= n < |shapes| && 0 <= k < |shapes[n].faces| && p in shapes[n].faces[k] {
      var n, k, p :| 0 <= n < |shapes| && 0 <= k < |shapes[n].faces| && p in shapes[n].faces[k];
      var j :| 0 <= j < |shapes[n].faces[k]| && shapes[n].faces[k][j] == p;
      FacePointInside(es, lod, verts, params, parents, host, shapes[n], k, j);
    }
  }

  /** Every point of every face the import creates lies inside the bounding box it reports. */
  lemma ImportedInsideBox(doc: CityDocument, files: string, path: string, host: Host)
    requires ImportSpec(doc, files, path, host).Ok? && ImportSpec(doc, files, path, host).value.Imported?
    ensures FacesInside(ImportSpec(doc, files, path, host).value.shapes, ImportSpec(doc, files, path, host).value.box)
  {
    var es := doc.cityObjects.value;
    var epsg := Crs.EpsgNum(doc.metadata).value;
    var verts := PlacedVertices(doc, epsg, host);
    var moved := MovedSite(epsg, doc.transform.value.translate.value, host);
    assert ImportSpec(doc, files, path, host) == ConvertObjects(es, verts, moved, files, path, host);
    var lod := LodSelection.SelectLod(es, host.choose);
    var params := Parameters.ParameterNames(es);
    var parents := ParentMap.ParentMapOf(es).value;
    ShapesInsideBounds(es, lod, verts, params, parents, host);
  }
}
