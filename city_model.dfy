/**
 * The typed form of a CityJSON document as the importer reads it. Every member the
 * importer probes for null is an Option; everything else it never looks at is dropped.
 */
module CityModel {
  import opened Wrappers

  /** A JSON number triple: a raw vertex, `transform.scale` or `transform.translate`. */
  datatype Triple = Triple(x: real, y: real, z: real)

  /** A point in the host's internal length unit (Revit's XYZ). */
  datatype Point = Point(x: real, y: real, z: real)

  /** A vertex loop handed to the shape builder. */
  type Loop = seq<Point>

  /**
   * An attribute value: a JSON scalar, already in the text the `(string)` cast gives it,
   * or a JSON array or object, which that cast refuses.
   */
  datatype AttrValue = Text(text: string) | Composite

  /** One property of an `attributes` object, in document order. */
  datatype Attr = Attr(name: string, value: AttrValue)

  /** A node of a `boundaries` array: a vertex index or a nested array. */
  datatype Node = Index(index: int) | Array(items: seq<Node>)

  /** One element of an object's `geometry` array. */
  datatype Geometry = Geometry(lod: Option<string>, boundaries: seq<Node>)

  datatype CityObject = CityObject(
    objectType: string,
    attributes: Option<seq<Attr>>,
    children: Option<seq<string>>,
    geometry: Option<seq<Geometry>>)

  /** One member of the `CityObjects` dictionary, in document order. */
  datatype Entry = Entry(id: string, obj: CityObject)

  datatype Transform = Transform(scale: Option<Triple>, translate: Option<Triple>)

  datatype Metadata = Metadata(referenceSystem: Option<string>)

  datatype CityDocument = CityDocument(
    docType: Option<string>,
    version: Option<string>,
    transform: Option<Transform>,
    cityObjects: Option<seq<Entry>>,
    vertices: Option<seq<Triple>>,
    metadata: Option<Metadata>)
}
