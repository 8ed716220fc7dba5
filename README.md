# cityjsonToRevit import, modelled in Dafny

This project models `Program.Execute` of the cityjsonToRevit add-in and the routines it
calls. The command imports one CityJSON file into an open project. In order, it:

1. refuses a file whose path is already recorded in the project parameter `loadedFiles`;
2. checks the document's shape (`CheckValidity`);
3. reads the EPSG code from `metadata.referenceSystem` (`epsgNum`);
4. decides whether to move the project site onto the document, and places the vertices
   (`vertBuilder`);
5. collects the levels of detail (`lodSelecter`) and the parameter names (`paramFinder`);
6. builds the parent map from `children` to the parent's `attributes`;
7. creates one shape per geometry at the chosen level for every city object
   (`matSelector`, `CreateTessellatedShape`);
8. appends the path to the record.

Each module follows one part of `Command/Program.cs`:

| module | file | what it holds |
|---|---|---|
| `Wrappers` | wrappers.dfy | `Option`, `Result` and `Fault`; each fault stands for a .NET exception the code can throw |
| `CityModel` | city_model.dfy | the document as the importer reads it; boundaries are a JSON tree of indices and lists |
| `Seqs` | seqs.dfy | LINQ `Distinct()` as `Dedup`, and its properties |
| `Crs` | crs.dfy | `epsgNum`, with `LastIndexOf`, `Substring` and `Int32.Parse` (`NumberStyles.Integer`) |
| `Validity` | validity.dfy | `CheckValidity` |
| `LodSelection` | lod_selection.dfy | `lodSelecter` as a method, proved against `SelectLod` |
| `Vertices` | vertices.dfy | `vertBuilder` as a method; the site offset; the bounding box |
| `ParentMap` | parent_map.dfy | the loops that fill `semanticParentInfo` |
| `Attributes` | attributes.dfy | the parameter loop of `CreateTessellatedShape` |
| `Parameters` | parameters.dfy | `paramFinder` |
| `Materials` | materials.dfy | `matSelector` and its type table |
| `LoadedFiles` | loaded_files.dfy | `checkExist` and the `loadedFiles` record |
| `FaceWalk` | face_walk.dfy | the boundary walk of `CreateTessellatedShape`; a `TessellatedShapeBuilder` class |
| `FaceShapes` | face_shapes.dfy | what the walk yields for each CityJSON geometry type |
| `Shapes` | shapes.dfy | `CreateTessellatedShape` as a method over the geometry loop |
| `Import` | import.dfy | `Execute` as a method, proved against the function `ImportSpec` |

Each loop of the source is a method. It is proved equal to a left-fold function of its
inputs, and lemmas state what the fold means.

- Every exception is an `Err`. The "Load CityJSON" transaction is then never committed, so
  the import itself changes nothing. The CJ materials are another matter: `matGenerator`
  creates them in a transaction of its own, which commits before "Load CityJSON" opens. So
  they stay in the project after any outcome, `AlreadyLoaded` and a fault included.
- Integer parsing is written out: the 32-bit range, the sign and the white space
  `Int32.Parse` accepts.
- A JSON index cast to `int` is written out too: `unchecked((int)…)` wraps an `Int64` to 32 bits.
- Coordinates are exact reals.

## Model

| member | source | states |
|---|---|---|
| Crs.LastIndexOf | Command/Program.cs:30-33 | the result is -1 or a position holding the character, and no later position holds it |
| Crs.CodeText | Command/Program.cs:30-35 | the text is a suffix of the reference system with no '/'. It follows the last '/', or the last ':' when there is no '/' |
| Crs.ParseInt32 | Command/Program.cs:36 | a parsed value lies in the 32-bit range, and the only faults are Format and Overflow |
| Crs.ParseSigned | Command/Program.cs:36 | once the white space is gone, a sign and digits parse to their signed value, or to an Overflow fault outside the 32-bit range |
| Crs.ParseLayout | Command/Program.cs:36 | a text made of white space, an optional sign, one or more digits and white space parses to its signed value, or to an Overflow fault outside the 32-bit range |
| Crs.ParsedLayout | Command/Program.cs:36 | a text that is not refused as malformed splits into white space, an optional sign, one or more digits and white space |
| Crs.ParseInt32Accepts | Command/Program.cs:36 | Int32.Parse gives a Format fault exactly for the texts not in that layout; for the others it gives the layout's value, or an Overflow fault outside the 32-bit range |
| Crs.TrimStartSplits | Command/Program.cs:36 | the leading white space Int32.Parse skips is a prefix made only of white space |
| Crs.TrimEndSplits | Command/Program.cs:36 | the trailing white space Int32.Parse skips is a suffix made only of white space |
| Crs.EpsgNum | Command/Program.cs:23-38 | a missing `metadata` is a binder fault; a missing `referenceSystem` gives -1; otherwise the result is Int32.Parse of the code text |
| Crs.ParseDecimal | Command/Program.cs:36 | Int32.Parse reads back the decimal rendering of every code up to Int32.MaxValue |
| Crs.ParseNegativeDecimal | Command/Program.cs:36 | a leading '-' negates the value, down to Int32.MinValue |
| Crs.DecimalDigits | Command/Program.cs:36 | a decimal rendering is non-empty, all digits, and has the rendered value |
| Crs.LastIndexOfJoin | Command/Program.cs:30-33 | in `prefix + c + tail` with no `c` in the tail, the last `c` is at the join |
| Crs.EpsgNumOfUrl | Command/Program.cs:23-38 | a URL-style reference system `…/<code>` yields its code |
| Crs.EpsgNumOfUrn | Command/Program.cs:23-38 | a reference system `…:<code>` without '/' yields its code |
| Crs.EpsgNumOfMissingCode | Command/Program.cs:30-36 | a reference system that ends in '/' is a Format fault |
| Validity.CheckValidity | Command/Program.cs:67-80 | valid exactly when CityObjects, vertices, transform.scale and transform.translate are present, type is "CityJSON", and version is "1.0" or "1.1" |
| LodSelection.LodSelecter | Command/Program.cs:82-121 | the loops return what `SelectLod` decides: "Failed" at the first geometry without lod, else the only distinct label, else the dialog's choice among the distinct labels |
| LodSelection.GeometryLabelsAre | Command/Program.cs:95-103 | the inner loop fails exactly when a geometry lacks lod, and otherwise appends every label in order |
| LodSelection.DocumentLabelsAre | Command/Program.cs:86-105 | the collection fails exactly when some geometry of some object lacks lod, and otherwise lists every label in document order; objects without geometry add none |
| LodSelection.SelectLodFails | Command/Program.cs:97-101 | one unlabelled geometry makes the result "Failed", whatever labels came before |
| LodSelection.SelectLodSingle | Command/Program.cs:106-110 | when every label is the same, that label is returned without the dialog |
| LodSelection.SelectLodDefers | Command/Program.cs:106-120 | with no labels, or two different ones, the result is the dialog's pick from the distinct labels |
| Seqs.DedupMember | Command/Program.cs:106 | Distinct keeps exactly the elements of its input |
| Seqs.DedupNoDups | Command/Program.cs:660 | Distinct leaves no element twice |
| Seqs.DedupFirstSeenOrder | Command/Program.cs:660 | Distinct lists its elements in the order of their first occurrence |
| Seqs.DedupSingleton | Command/Program.cs:106-107 | Distinct leaves a single element exactly when the input is one value repeated |
| Seqs.DedupNotSingle | Command/Program.cs:106-107 | two different elements never leave a single element |
| Vertices.PlaceAll | Command/Program.cs:359-368 | one placed vertex per input vertex, in order: scaled, shifted in x and y only, converted from metres to feet |
| Vertices.PlaceRoundTrip | Command/Program.cs:361-366 | placement is undone exactly by the inverse conversion when no scale component is zero |
| Vertices.BoundsTight | Command/Program.cs:369-377 | the running minima and maxima of a non-empty vertex list bound every vertex, and each bound is attained by some vertex |
| Vertices.VertBuilder | Command/Program.cs:350-379 | the method returns the placed vertices and their bounds. The box exists exactly when there are vertices, contains every vertex, and is attained on every axis |
| Vertices.PlacedRelativeToSite | Command/Program.cs:486-494 | when the site is kept, a vertex is placed at its CityJSON position minus the site's reprojected origin. With no reference system, or after moving the site, it is placed at the CityJSON position minus the translate |
| ParentMap.DeclareChildren | Command/Program.cs:527-530 | one declaration per child, each carrying the parent's attributes |
| ParentMap.BuildParentMap | Command/Program.cs:519-534 | the nested loops compute `ParentMapOf` |
| ParentMap.AddChildren | Command/Program.cs:527-530 | the inner loop adds every child of one object, or fails at the first child already present |
| ParentMap.AddAllAppend | Command/Program.cs:519-534 | adding two runs of declarations is adding the first, then the second |
| ParentMap.AddAllSucceeds | Command/Program.cs:529 | `Dictionary.Add` succeeds for a run of declarations exactly when the children are distinct and none is already a key |
| ParentMap.AddAllContents | Command/Program.cs:529 | after a successful run, the keys are the old keys plus the children, each child maps to its declaration's attributes, and old entries are kept |
| ParentMap.DeclaredChild | Command/Program.cs:523-530 | every child of an object with both children and attributes is declared |
| ParentMap.DeclarationSource | Command/Program.cs:523-530 | every declaration comes from such an object |
| ParentMap.ParentMapSucceeds | Command/Program.cs:519-534 | the map is built exactly when no child is declared twice |
| ParentMap.ParentMapContents | Command/Program.cs:519-534 | the keys are exactly the declared children, and each maps to its parent's attributes |
| Attributes.LastNamedFront | Command/Program.cs:222-227 | the last attribute named `p` is the last one in the rest of the list, else the first attribute if it is named `p` |
| Attributes.SetFromIs | Command/Program.cs:212-216 | scanning an attributes object leaves the last text named `p`, or the current value; a composite value named `p` is an InvalidCast fault |
| Attributes.LastNamedWitness | Command/Program.cs:222-227 | a value found for `p` is the value of some attribute named `p` |
| Attributes.LastNamedSome | Command/Program.cs:222-227 | an attribute named `p` always yields a value |
| Attributes.ResolveParamIs | Command/Program.cs:195-230 | "Object Name" gets the id and "Object Type" the type. Any other name gets the own attribute, else the parent's, else nothing; a composite value is an InvalidCast fault |
| Attributes.OwnWins | Command/Program.cs:210-227 | an object's own text attribute overrides the parent's value |
| Attributes.ParentInherited | Command/Program.cs:210-220 | without its own attribute, an object takes the parent's text value |
| Attributes.SetParameters | Command/Program.cs:195-230 | the loop over the parameter names computes `Settings` |
| Attributes.SettingsFromAre | Command/Program.cs:195-230 | the loop succeeds exactly when every parameter resolves. Each resolved parameter is set to its value; nothing outside the parameters is set, and an unresolved one stays unset |
| Parameters.NamesOf | Command/Program.cs:651-654 | one name per attribute, in order |
| Parameters.ParamFinder | Command/Program.cs:639-662 | the loops return `ParameterNames` |
| Parameters.AddNames | Command/Program.cs:651-654 | the inner loop appends the names of one object's attributes |
| Parameters.AttributeNamesMember | Command/Program.cs:643-656 | a name is collected exactly when some object has an attribute of that name |
| Parameters.ParameterNamesMember | Command/Program.cs:639-662 | a parameter is either reserved ("Object Name", "Object Type", "loadedFiles") or the name of some object's attribute, and every such name is a parameter |
| Parameters.ParameterNamesDistinct | Command/Program.cs:660 | no parameter name occurs twice |
| Parameters.ParameterNamesOrder | Command/Program.cs:653-660 | parameters keep the order in which their names first occur |
| Materials.PaletteIndex | Command/Program.cs:302-335 | a type maps to a palette position below ten exactly when the switch lists it |
| Materials.MatSelector | Command/Program.cs:297-337 | a selected material is the default or one of the listed materials |
| Materials.BuildingPartsShareMaterial | Command/Program.cs:304-311 | every Building subtype gets the Building material |
| Materials.BridgePartsShareMaterial | Command/Program.cs:312-317 | every Bridge subtype gets the Bridge material |
| Materials.TunnelPartsShareMaterial | Command/Program.cs:327-332 | every Tunnel subtype gets the Tunnel material |
| Materials.EveryPaletteEntryUsed | Command/Program.cs:302-335 | every one of the ten palette entries is selected by some type |
| Materials.ExtensionTypeDefault | Command/Program.cs:334 | an extension type ("+…") gets the default material |
| Materials.MatSelectorFullPalette | Command/Program.cs:297-337 | with the full palette and "cj-Default" present, a listed type gets its palette entry and any other type the default |
| Materials.MatSelectorShortList | Command/Program.cs:304-333 | with "cj-Default" present, selection fails exactly when the type's palette position is beyond the material list |
| LoadedFiles.Pieces | Command/Program.cs:341 | split pieces are never empty and contain no '$' |
| LoadedFiles.Split | Command/Program.cs:341 | every entry of the split is a non-empty path without '$' |
| LoadedFiles.CheckExist | Command/Program.cs:339-348 | the loop answers true exactly when the path is one of the split entries |
| LoadedFiles.RecordLoaded | Command/Program.cs:566 | the new record is one separator and the path longer than the old one; what it splits into is stated by `LoadedFiles.RecordSplits` |
| LoadedFiles.PiecesAppend | Command/Program.cs:341 | splitting at a '$' is splitting each side |
| LoadedFiles.PiecesOfClean | Command/Program.cs:341 | a text without '$' is a single entry |
| LoadedFiles.RecordSplits | Command/Program.cs:566 | the new record splits into the old entries followed by the entries of the path |
| LoadedFiles.RecordClean | Command/Program.cs:566 | the new record splits into the old entries followed by the path, for a non-empty path without '$' |
| LoadedFiles.RecordedIsFound | Command/Program.cs:566 | after recording, the path is found and every earlier entry is still found |
| LoadedFiles.HistorySplits | Command/Program.cs:566 | a record built by successive imports splits back into exactly the imported paths, in order |
| LoadedFiles.DollarPathNeverFound | Command/Program.cs:339-348 | a path containing '$' is never found again after it was recorded |
| FaceWalk.Wrap32 | Command/Program.cs:149 | the 32-bit wrap of an index lies in the Int32 range, agrees with the index modulo 2^32, and leaves in-range indices unchanged |
| FaceWalk.VertexAt | Command/Program.cs:149-150 | an index names a vertex exactly when it fits an Int64 and its 32-bit wrap is a position of the vertex list, and then yields that vertex |
| FaceWalk.TessellatedShapeBuilder.constructor | Command/Program.cs:126 | a new builder is closed and empty |
| FaceWalk.TessellatedShapeBuilder.OpenConnectedFaceSet | Command/Program.cs:137 | opens an empty face set |
| FaceWalk.TessellatedShapeBuilder.AddFace | Command/Program.cs:161 | appends one face to the open face set |
| FaceWalk.TessellatedShapeBuilder.CloseConnectedFaceSet | Command/Program.cs:174 | closes the face set and keeps its faces |
| FaceWalk.TessellatedShapeBuilder.Build | Command/Program.cs:177 | the result becomes the faces given |
| FaceWalk.TessellatedShapeBuilder.Clear | Command/Program.cs:178 | discards the faces and keeps the built result |
| FaceWalk.TessellatedShapeBuilder.GetBuildResult | Command/Program.cs:179 | returns the built result |
| FaceWalk.ResolveNested | Command/Program.cs:155-160 | the innermost loop appends the vertex of every index of a nested list |
| FaceWalk.WalkElement | Command/Program.cs:141-170 | one `facePoints` element adds to the builder the faces `ElementStep` emits and returns the buffer it leaves, or fails with its fault |
| FaceWalk.WalkBoundary | Command/Program.cs:138-173 | one boundary adds the faces `BoundaryFaces` emits, or fails with its fault |
| FaceWalk.WalkGeometry | Command/Program.cs:137-179 | a geometry builds exactly the faces of `GeometryFaces`, and leaves the builder closed and cleared |
| FaceShapes.LookupFromIs | Command/Program.cs:155-160 | resolving a list of indices succeeds exactly when every index names a vertex, and appends the named vertices in order |
| FaceShapes.LookupFromOnto | Command/Program.cs:155-160 | resolving onto a non-empty buffer appends to that buffer what resolving alone yields |
| FaceShapes.LookupFromFault | Command/Program.cs:155-160 | whether resolution fails, and with which fault, does not depend on the buffer |
| FaceShapes.ResolveAllAppend | Command/Program.cs:155-160 | resolving two runs of rings is resolving each and concatenating |
| FaceShapes.WalkRings | Command/Program.cs:144-164 | rings met as face points are emitted one face each, in order, and the buffer is left empty |
| FaceShapes.WalkSurfaces | Command/Program.cs:141-170 | the surfaces of a Solid shell yield one face per ring, holes included |
| FaceShapes.ShellFaces | Command/Program.cs:138-173 | a Solid shell yields one face per ring of its surfaces, and fails exactly when a ring fails to resolve |
| FaceShapes.SolidFaces | Command/Program.cs:138-173 | a Solid's boundaries yield one face per ring of all its shells, in order |
| FaceShapes.ResolveAllSucceeds | Command/Program.cs:155-160 | resolving flat rings succeeds exactly when every index names a vertex, and yields one loop per ring |
| FaceShapes.WalkFlatPoints | Command/Program.cs:144-152 | plain indices append their vertices to the buffer and emit nothing |
| FaceShapes.WalkFlatRings | Command/Program.cs:141-170 | the rings of a MultiSurface surface are emitted with the buffer never cleared: face k holds rings 0..k |
| FaceShapes.MultiSurfaceFaces | Command/Program.cs:138-173 | a MultiSurface/CompositeSurface surface yields the accumulated faces of its rings |
| FaceShapes.AccumulatedAt | Command/Program.cs:141-170 | the accumulated face k is the concatenation of the first k+1 rings |
| FaceShapes.AccumulatedLength | Command/Program.cs:141-170 | there is one accumulated face per ring |
| FaceShapes.PointFails | Command/Program.cs:138-141 | a bare index as a boundary (a MultiPoint) cannot be iterated, and the walk fails with an InvalidCast fault |
| FaceShapes.LineStringFails | Command/Program.cs:141-144 | a boundary whose first element is a bare index (a MultiLineString) fails with an InvalidCast fault |
| FaceShapes.ElementsAreLists | Command/Program.cs:141-170 | every element of a boundary that the element loop walks without fault is a list |
| FaceShapes.WalkedBoundariesAreLists | Command/Program.cs:138-173 | a geometry walks without fault only when every boundary is a list of lists |
| FaceShapes.MultiSolidFails | Command/Program.cs:155-157 | a MultiSolid or CompositeSolid boundary fails with an InvalidCast fault |
| FaceShapes.WrappedIndexAliases | Command/Program.cs:149 | an index 2^32 past a vertex's position names the same vertex |
| FaceShapes.LookupFromIn | Command/Program.cs:155-160 | resolution only yields vertices of the list |
| FaceShapes.WalkPointsIn | Command/Program.cs:144-164 | the face-point loop only emits and buffers vertices of the list |
| FaceShapes.WalkElementsIn | Command/Program.cs:141-170 | the element loop only emits vertices of the list |
| FaceShapes.BoundariesFacesIn | Command/Program.cs:138-173 | the boundary loop only emits vertices of the list |
| FaceShapes.GeometryFacesIn | Command/Program.cs:138-173 | every point of every face of a geometry is a vertex of the list |
| Shapes.CreateTessellatedShape | Command/Program.cs:122-233 | the method returns the object's shapes as `ObjectShapes` defines them |
| Shapes.LevelWalksStep | Command/Program.cs:132-135 | the geometries at the level walk without fault exactly when the first one does (if at that level) and the rest do |
| Shapes.ShapesFromSucceeds | Command/Program.cs:132-230 | the geometry loop succeeds exactly when every geometry at the level walks and, if there is one, the parameters resolve |
| Shapes.ShapesFromContents | Command/Program.cs:132-230 | a successful loop adds one shape per geometry at the level, in order. Each is named `<id>-lod <lod>` and carries its geometry's faces, the material and the resolved parameters |
| Shapes.ObjectShapesAre | Command/Program.cs:122-233 | an object's shapes are one per geometry at the level, in order; an object without geometry has none |
| Import.BuildShapes | Command/Program.cs:535-544 | the object loop computes `DocumentShapes` |
| Import.PlaceVertices | Command/Program.cs:449-496 | the placement branch returns the moved site and the placed vertices, with their bounding box |
| Import.Convert | Command/Program.cs:498-566 | the part of the import after placement computes `ConvertObjects` |
| Import.Execute | Command/Program.cs:380-583 | the command computes `ImportSpec` |
| Import.RecordedIsRefused | Command/Program.cs:427-431 | a path already in the record is refused as already loaded, before the document is looked at |
| Import.ImportOnce | Command/Program.cs:427-431 | after a successful import of a path without '$', the same path is refused as already loaded, whatever the document |
| Import.ImportKeepsRecord | Command/Program.cs:566-568 | a successful import was of a new path. The record then splits into the old entries followed by the path |
| Import.DocumentShapesMember | Command/Program.cs:535-544 | every shape of the object loop was made for one city object under that object's material |
| Import.ObjectShapeIs | Command/Program.cs:539-542 | a shape made for an object is named after it, carries its material, and holds the faces of one of its geometries at the level |
| Import.ImportedShapes | Command/Program.cs:427-544 | a successful import needs a new path, a valid document, and a real LoD choice (neither "" nor "Failed"). Each shape is named `<id>-lod <choice>` for some city object and carries that object's material |
| Import.FacePointInside | Command/Program.cs:369-377 | a point of a created face lies inside the bounding box of the placed vertices |
| Import.ShapesInsideBounds | Command/Program.cs:535-544 | every point of every created face lies inside the bounding box of the placed vertices |
| Import.ImportedInsideBox | Command/Program.cs:535-575 | every point of every face an import creates lies inside the box it zooms to |

## Behaviour worth knowing

- **Repeated child.** A child listed by two parents aborts the import: `Dictionary.Add`
  throws on the second listing (`ParentMap.AddAllSucceeds`).
- **Holes.** Hole rings never become inner loops of a face:
  - in a Solid, every ring is a face of its own (`FaceShapes.SolidFaces`);
  - in a MultiSurface or CompositeSurface, the buffer is never cleared within a surface, so
    face k holds the outer ring followed by the holes up to k (`FaceShapes.WalkFlatRings`).
- **Malformed or unsupported geometry.** Any of the following throws and aborts the whole
  import; no object is skipped:
  - an index outside the vertex list;
  - a MultiPoint or MultiLineString layout, where the walk meets a bare index it tries to
    iterate (`FaceShapes.PointFails`, `FaceShapes.LineStringFails`);
  - a list nested too deeply, as in a MultiSolid (`FaceShapes.MultiSolidFails`).
- **Zero labels.** With no LoD label at all, the dialog is asked, as it is for several
  labels (`LodSelection.SelectLodDefers`).
- **Material classification is not total.** Selection fails when "cj-Default" is missing
  (`Enumerable.First`), or when the material list is shorter than the type's palette
  position (`Materials.MatSelectorShortList`).
- **The CJ materials outlive a failed import.** `matGenerator` commits them in its own
  transaction before the import's transaction opens.

## Left out

- The Revit API is outside the model. This covers transactions, `DirectShape`, `Material`,
  `SiteLocation`, views, `RequestViewChange` and `ZoomAndCenterRectangle`. Their effects are
  the values of `Import.Outcome`: the moved site, the shapes, the box, the parameters and
  the new record.
- `matGenerator` is not part of this model. Its result is an input (`Host.materials`), in
  palette order, as are the names of the project's materials (`Host.existing`).
- `paramMaker`, which creates and binds shared parameters, is not part of this model. The
  names it is called with are `Parameters.ParameterNames`.
- The family-document check, the file dialog and the reading and deserialisation of the
  JSON file are not modelled. The model starts from a `CityModel.CityDocument`.
- DotSpatial reprojection (`PointProjector`, `PointProjectorRev`) is a function parameter
  of `Host`, as are the answers of the map dialog and the LoD dialog. That function always
  succeeds. A failed reprojection is not modelled: `ProjectionInfo.FromEpsgCode` throws for
  an EPSG code DotSpatial does not know (0, say, from a reference system ending in "/0"),
  and the code then aborts where the model goes on.
- `Int32.Parse` follows the invariant culture: only '-' and '+' are signs. Trailing NUL
  characters, which .NET also skips, are not modelled.
- Floating point is not modelled. Coordinates, scales, degrees and the metre-to-foot
  factor are exact reals, and the radian conversion of the site is left out (the site is
  kept in degrees).
- Vertices.VertBuilder: returns no box for an empty vertex list, where the code returns the
  `double.MaxValue`/`double.MinValue` sentinels.
- A missing `loadedFiles` parameter (`parLoad` null) and a null `AsString()` are not
  modelled; the record is a string input.
- Attributes.SetParameters: assumes every parameter is bound to the Generic Models category.
  The code throws a NullReferenceException when it is not, e.g. for an attribute named
  "loadedFiles", which is bound to Project Information.
- Null JSON values (a null `type`, a null attribute value) are not modelled; a type is a
  string and an attribute value is text or composite.
- Faults the host raises for degenerate faces are not modelled. The builder accepts every
  face.
- Two exceptions are modelled as the InvalidCast fault:
  - a `RuntimeBinderException` from casting a list to an index or to a string;
  - the `ArgumentException` Json.NET raises when a JSON number is converted to
    `IEnumerable` to be iterated.
- A `RuntimeBinderException` from reading a member of an absent node is the NullBinding
  fault. `ArgumentOutOfRange` is modelled as IndexOutOfRange.
