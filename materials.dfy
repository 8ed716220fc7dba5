/**
 * Program.matSelector: the material a city object's shape gets, looked up from its CityJSON
 * type in a fixed table of ten palette categories, with the default material for any other
 * type.
 */
module Materials {
  import opened Wrappers

  const DefaultMaterial: string := "cj-Default"

  /** The palette in the order matGenerator creates and lists it. */
  const PaletteNames: seq<string> := ["cj-Building", "cj-Bridge", "cj-Group", "cj-Furniture", "cj-Landuse",
                                      "cj-Plants", "cj-Railway", "cj-Road", "cj-Tunnel", "cj-Water"]

  /** The `switch` of matSelector: a CityJSON type and the palette position it selects. */
  const TypeTable: map<string, nat> := map[
    "Building" := 0, "BuildingPart" := 0, "BuildingInstallation" := 0, "BuildingConstructiveElement" := 0,
    "BuildingFurniture" := 0, "BuildingStorey" := 0, "BuildingRoom" := 0, "BuildingUnit" := 0,
    "Bridge" := 1, "BridgePart" := 1, "BridgeInstallation" := 1, "BridgeConstructiveElement" := 1,
    "BridgeRoom" := 1, "BridgeFurniture" := 1,
    "CityObjectGroup" := 2,
    "CityFurniture" := 3,
    "LandUse" := 4,
    "PlantCover" := 5, "SolitaryVegetationObject" := 5,
    "Railway" := 6,
    "Road" := 7, "TransportSquare" := 7,
    "Tunnel" := 8, "TunnelPart" := 8, "TunnelInstallation" := 8, "TunnelConstructiveElement" := 8,
    "TunnelHollowSpace" := 8, "TunnelFurniture" := 8,
    "WaterBody" := 9, "Waterway" := 9]

  /** The palette position of a type, or None for the default material. */
  function PaletteIndex(objectType: string): (r: Option<nat>)
    ensures r.Some? ==> r.value < |PaletteNames|
    ensures r.Some? <==> objectType in TypeTable
  {
    if objectType in TypeTable then Some(TypeTable[objectType]) else None
  }

  /**
   * matSelector over the material list `materials` (as matGenerator returned it) and the
   * names of the materials in the document: the default material must exist, and a table
   * hit indexes `materials`, which throws when the list is too short.
   */
  function MatSelector(materials: seq<string>, existing: seq<string>, objectType: string): (r: Result<string>)
    ensures r.Ok? ==> r.value == DefaultMaterial || r.value in materials
  {
    if DefaultMaterial !in existing then Err(NoMatch)
    else match PaletteIndex(objectType)
      case None => Ok(DefaultMaterial)
      case Some(k) => if k < |materials| then Ok(materials[k]) else Err(IndexOutOfRange)
  }

  /** The second-level CityJSON types of a Building, a Bridge and a Tunnel. */
  const BuildingParts: set<string> := {"BuildingPart", "BuildingInstallation", "BuildingConstructiveElement",
                                       "BuildingFurniture", "BuildingStorey", "BuildingRoom", "BuildingUnit"}
  const BridgeParts: set<string> := {"BridgePart", "BridgeInstallation", "BridgeConstructiveElement",
                                     "BridgeRoom", "BridgeFurniture"}
  const TunnelParts: set<string> := {"TunnelPart", "TunnelInstallation", "TunnelConstructiveElement",
                                     "TunnelHollowSpace", "TunnelFurniture"}

  /** A part of a building is drawn in the material of the building. */
  lemma BuildingPartsShareMaterial(objectType: string)
    requires objectType in BuildingParts
    ensures PaletteIndex(objectType) == PaletteIndex("Building") == Some(0)
  {
  }

  /** A part of a bridge is drawn in the material of the bridge. */
  lemma BridgePartsShareMaterial(objectType: string)
    requires objectType in BridgeParts
    ensures PaletteIndex(objectType) == PaletteIndex("Bridge") == Some(1)
  {
  }

  /** A part of a tunnel is drawn in the material of the tunnel. */
  lemma TunnelPartsShareMaterial(objectType: string)
    requires objectType in TunnelParts
    ensures PaletteIndex(objectType) == PaletteIndex("Tunnel") == Some(8)
  {
  }

  /** Each palette material is used by some type: none of the ten is unreachable. */
  lemma EveryPaletteEntryUsed(k: nat)
    requires k < |PaletteNames|
    ensures exists t :: PaletteIndex(t) == Some(k)
  {
    var witnesses := ["Building", "Bridge", "CityObjectGroup", "CityFurniture", "LandUse",
                      "PlantCover", "Railway", "Road", "Tunnel", "WaterBody"];
    assert PaletteIndex(witnesses[k]) == Some(k);
  }

  /** Extension types, whose names start with '+', always get the default material. */
  lemma ExtensionTypeDefault(objectType: string)
    requires |objectType| > 0 && objectType[0] == '+'
    ensures PaletteIndex(objectType) == None
  {
    assert forall t :: t in TypeTable ==> |t| > 0 && t[0] != '+';
  }

  /**
   * With the full palette in place the selector never fails, and it names the palette
   * material of the type's category, or the default material.
   */
  lemma MatSelectorFullPalette(existing: seq<string>, objectType: string)
    requires DefaultMaterial in existing
    ensures MatSelector(PaletteNames, existing, objectType).Ok?
    ensures MatSelector(PaletteNames, existing, objectType).value ==
      if objectType in TypeTable then PaletteNames[TypeTable[objectType]] else DefaultMaterial
  {
  }

  /** With a shorter material list the selector fails exactly for the types beyond its end. */
  lemma MatSelectorShortList(materials: seq<string>, existing: seq<string>, objectType: string)
    requires DefaultMaterial in existing
    ensures MatSelector(materials, existing, objectType).Err? <==>
      objectType in TypeTable && TypeTable[objectType] >= |materials|
  {
  }
}
