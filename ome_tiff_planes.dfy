// The per-plane record both OME-TIFF writer and reader keep: which file
// holds the plane, at which directory, whether that is certain, and
// whether the plane is known to be there.
module OmeTiffPlanes {
  datatype PlaneStatus = Unknown | Present | Absent

  /** A plane's file (empty when none), its directory index in that file, and how sure the entry is. */
  datatype Plane = Plane(id: string, index: nat, certain: bool, status: PlaneStatus)

  /** A plane as a resized table first holds it: no file, directory 0, uncertain, unknown. */
  const DEFAULT_PLANE := Plane("", 0, false, Unknown)
}
