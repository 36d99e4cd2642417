/** Plane selection: the display setup looks up the CRTC driven by the first
    connector, then, for every connector that currently drives some CRTC,
    scans that first CRTC's possible planes and keeps the first plane whose
    `CRTC_ID` property is nonzero. */
module Planes {
  import opened U32
  import opened Options

  /** A DRM plane and the current values of its `CRTC_ID` and `FB_ID`
      properties; `id` is the plane's object id. */
  datatype Plane = Plane(id: u32, crtcId: u32, fbId: u32)

  /** A CRTC: its current mode size and the planes that can be bound to it. */
  datatype Crtc = Crtc(id: u32, width: u32, height: u32, possiblePlanes: seq<Plane>)

  /** A connector and the CRTC it currently drives, if any. */
  datatype Connector = Connector(id: u32, currentCrtc: Option<Crtc>)

  /** A plane currently bound to some CRTC. */
  predicate IsBound(p: Plane) {
    p.crtcId != 0
  }

  /** The position of the first bound plane, if any: the inner loop's `break`. */
  function FirstBound(planes: seq<Plane>): (r: Option<nat>)
    ensures r.Some? ==> r.value < |planes| && IsBound(planes[r.value])
    ensures r.Some? ==> forall j :: 0 <= j < r.value ==> !IsBound(planes[j])
    ensures r.None? ==> forall j :: 0 <= j < |planes| ==> !IsBound(planes[j])
  {
    if |planes| == 0 then None
    else if IsBound(planes[0]) then Some(0)
    else match FirstBound(planes[1..])
         case None => None
         case Some(k) => Some(k + 1)
  }

  /** First match is unique: any position holding a bound plane with no
      bound plane before it is the one `FirstBound` finds. */
  lemma FirstBoundUnique(planes: seq<Plane>, k: nat)
    requires k < |planes| && IsBound(planes[k])
    requires forall j :: 0 <= j < k ==> !IsBound(planes[j])
    ensures FirstBound(planes) == Some(k)
  {
  }

  /** The plane the scan of `planes` leaves selected, if any. */
  function SelectFrom(planes: seq<Plane>): (r: Option<Plane>)
    ensures r.None? <==> forall j :: 0 <= j < |planes| ==> !IsBound(planes[j])
    ensures r.Some? ==> exists k :: 0 <= k < |planes| && r.value == planes[k] && IsBound(planes[k])
                                    && forall j :: 0 <= j < k ==> !IsBound(planes[j])
  {
    match FirstBound(planes)
    case None => None
    case Some(k) => Some(planes[k])
  }

  /** Some connector currently drives a CRTC. */
  predicate AnyDrivesCrtc(connectors: seq<Connector>) {
    exists c :: 0 <= c < |connectors| && connectors[c].currentCrtc.Some?
  }

  /** The connector loop with its nested plane loop. `plane` starts out
      unassigned (`None`); each connector with a current CRTC reruns the scan
      over the FIRST connector's CRTC, so every scan finds the same plane. */
  method SelectPlane(connectors: seq<Connector>) returns (plane: Option<Plane>)
    requires |connectors| > 0
    requires connectors[0].currentCrtc.None? ==> !AnyDrivesCrtc(connectors)
    ensures !AnyDrivesCrtc(connectors) ==> plane.None?
    ensures AnyDrivesCrtc(connectors) ==> plane == SelectFrom(connectors[0].currentCrtc.value.possiblePlanes)
  {
    var ctrc := connectors[0].currentCrtc;
    plane := None;
    for c := 0 to |connectors|
      invariant !AnyDrivesCrtc(connectors[..c]) ==> plane.None?
      invariant AnyDrivesCrtc(connectors[..c]) ==> ctrc.Some? && plane == SelectFrom(ctrc.value.possiblePlanes)
    {
      if connectors[c].currentCrtc.Some? {
        assert ctrc.Some?;
        var planes := ctrc.value.possiblePlanes;
        for j := 0 to |planes|
          invariant forall i :: 0 <= i < j ==> !IsBound(planes[i])
          invariant !AnyDrivesCrtc(connectors[..c]) ==> plane.None?
          invariant AnyDrivesCrtc(connectors[..c]) ==> plane == SelectFrom(planes)
        {
          if IsBound(planes[j]) {
            FirstBoundUnique(planes, j);
            plane := Some(planes[j]);
            break;
          }
        }
        assert connectors[..c + 1][c] == connectors[c];
      }
      assert connectors[..c + 1] == connectors[..c] + [connectors[c]];
    }
    assert connectors[..|connectors|] == connectors;
  }
}
