/** Program.CheckValidity: the structural checks made before anything is imported. */
module Validity {
  import opened Wrappers
  import opened CityModel

  /** The versions of the format the importer accepts. */
  const SupportedVersions: set<string> := {"1.0", "1.1"}

  /**
   * A document is accepted exactly when it is a CityJSON document of a supported version
   * that carries `CityObjects`, `transform.scale`, `transform.translate` and `vertices`.
   */
  function CheckValidity(d: CityDocument): (valid: bool)
    ensures valid <==>
      && d.docType == Some("CityJSON")
      && d.version.Some? && d.version.value in SupportedVersions
      && d.cityObjects.Some?
      && d.vertices.Some?
      && d.transform.Some? && d.transform.value.scale.Some? && d.transform.value.translate.Some?
  {
    if d.cityObjects.None? || d.docType != Some("CityJSON") || d.version.None?
       || d.transform.None? || d.transform.value.scale.None? || d.transform.value.translate.None?
       || d.vertices.None?
    then false
    else if d.version != Some("1.1") && d.version != Some("1.0") then false
    else true
  }
}
