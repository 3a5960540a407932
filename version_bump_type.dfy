/** The component a version bump targets. */
module BumpTypes {
  /** VersionBumpType: None leaves the version as it is; Suffix targets the dynamic suffix. */
  datatype VersionBumpType = None | Major | Minor | Build | Revision | Suffix
}
