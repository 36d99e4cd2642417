/** The display-setup tail of the program: the geometry that centres the
    camera image on the CRTC's current mode and the atomic request of ten
    plane property writes that applies it. All arithmetic is `uint32_t`;
    an image wider or taller than the display makes the offset wrap around
    rather than clamp to zero. */
module Commit {
  import opened U32
  import opened Options
  import opened Planes

  /** The plane properties the request writes. */
  datatype Prop = CrtcId | FbId | CrtcX | CrtcY | CrtcW | CrtcH | SrcX | SrcY | SrcW | SrcH

  /** The DRM name under which each property is looked up. */
  function PropName(p: Prop): string {
    match p
    case CrtcId => "CRTC_ID"
    case FbId => "FB_ID"
    case CrtcX => "CRTC_X"
    case CrtcY => "CRTC_Y"
    case CrtcW => "CRTC_W"
    case CrtcH => "CRTC_H"
    case SrcX => "SRC_X"
    case SrcY => "SRC_Y"
    case SrcW => "SRC_W"
    case SrcH => "SRC_H"
  }

  /** One `req.add(plane, name, value)`: a write of `value` to property
      `prop` of the object with id `target`. */
  datatype PropWrite = PropWrite(target: u32, prop: Prop, value: u32)

  /** A frame size in pixels, as the camera reports it. */
  datatype Size = Size(width: u32, height: u32)

  /** The order in which the request adds its writes. */
  const WriteOrder: seq<Prop> := [CrtcId, FbId, CrtcX, CrtcY, CrtcW, CrtcH, SrcX, SrcY, SrcW, SrcH]

  /** What the program does after the listing loops. */
  datatype Setup =
    | NoCrtc                        // the first connector drives no CRTC: report and exit 0
    | NoPlane                       // no bound plane was found: the C++ code goes on with an unassigned pointer
    | Request(batch: seq<PropWrite>) // the atomic request handed to `commit_sync`

  /** The value written for `p`, if any. The requests built here write each
      property at most once (see `AtomicBatch`), so that value is unique. */
  function ValueOf(req: seq<PropWrite>, p: Prop): Option<u32> {
    if |req| == 0 then None
    else if req[0].prop == p then Some(req[0].value)
    else ValueOf(req[1..], p)
  }

  /** When a request writes `p` at position `i` and nowhere before, the
      value written for `p` is the one at `i`. */
  lemma {:induction false} ValueOfFirstWrite(req: seq<PropWrite>, i: nat, p: Prop)
    requires i < |req| && req[i].prop == p
    requires forall j :: 0 <= j < i ==> req[j].prop != p
    ensures ValueOf(req, p) == Some(req[i].value)
  {
    if i > 0 {
      ValueOfFirstWrite(req[1..], i - 1, p);
    }
  }

  /** `x + len / 2 - image / 2` with `x == 0`, in `uint32_t`: the offset
      that centres `image` pixels inside `len` pixels. */
  function CenterOffset(len: u32, image: u32): (r: u32)
    ensures Add(r, image / 2) == len / 2
    ensures image / 2 <= len / 2 ==> r + image / 2 == len / 2
    ensures len / 2 < image / 2 ==> r == Modulus - (image / 2 - len / 2)
    ensures AsInt32(r) == len / 2 - image / 2
  {
    var x: u32 := 0;
    Sub(Add(x, len / 2), image / 2)
  }

  /** The atomic request built for `plane` on `crtc` showing a camera
      image of size `cam`. */
  function AtomicBatch(plane: Plane, crtc: Crtc, cam: Size): (req: seq<PropWrite>)
    ensures |req| == |WriteOrder|
    ensures forall i :: 0 <= i < |req| ==> req[i].target == plane.id && req[i].prop == WriteOrder[i]
    ensures forall i, j :: 0 <= i < j < |req| ==> req[i].prop != req[j].prop
  {
    [ PropWrite(plane.id, CrtcId, plane.crtcId),
      PropWrite(plane.id, FbId, plane.fbId),
      PropWrite(plane.id, CrtcX, CenterOffset(crtc.width, cam.width)),
      PropWrite(plane.id, CrtcY, CenterOffset(crtc.height, cam.height)),
      PropWrite(plane.id, CrtcW, cam.width),
      PropWrite(plane.id, CrtcH, cam.height),
      PropWrite(plane.id, SrcX, 0),
      PropWrite(plane.id, SrcY, 0),
      PropWrite(plane.id, SrcW, Shl16(cam.width)),
      PropWrite(plane.id, SrcH, Shl16(cam.height)) ]
  }

  /** The tail of the program after the listing loops: give up without a
      CRTC, otherwise build the request for the selected plane. */
  function PlanCommit(ctrc: Option<Crtc>, plane: Option<Plane>, cam: Size): (r: Setup)
    ensures r.NoCrtc? <==> ctrc.None?
    ensures r.NoPlane? <==> ctrc.Some? && plane.None?
    ensures r.Request? ==> |r.batch| == |WriteOrder|
    ensures r.Request? ==> forall i :: 0 <= i < |r.batch| ==> r.batch[i].target == plane.value.id && r.batch[i].prop == WriteOrder[i]
    ensures r.Request? ==> BatchMeans(r.batch, plane.value, ctrc.value, cam)
  {
    match ctrc
    case None => NoCrtc
    case Some(crtc) =>
      match plane
      case None => NoPlane
      case Some(p) =>
        BatchContents(p, crtc, cam);
        Request(AtomicBatch(p, crtc, cam))
  }

  /** What each write of a request for `plane` on `crtc` showing `cam`
      carries: the plane's current CRTC and framebuffer; a destination
      offset that, if its 32 bits are read as `int32_t`, is the signed
      centring offset (twincam hands the unsigned value to the request as
      it is; the reading only explains what a wrapped value stands for); a
      destination size equal to the camera size; a source origin of zero;
      and a source size in 16.16 fixed point. */
  predicate BatchMeans(req: seq<PropWrite>, plane: Plane, crtc: Crtc, cam: Size) {
      && ValueOf(req, CrtcId) == Some(plane.crtcId)
      && ValueOf(req, FbId) == Some(plane.fbId)
      && ValueOf(req, CrtcX).Some? && AsInt32(ValueOf(req, CrtcX).value) == crtc.width / 2 - cam.width / 2
      && ValueOf(req, CrtcY).Some? && AsInt32(ValueOf(req, CrtcY).value) == crtc.height / 2 - cam.height / 2
      && ValueOf(req, CrtcW) == Some(cam.width)
      && ValueOf(req, CrtcH) == Some(cam.height)
      && ValueOf(req, SrcX) == Some(0)
      && ValueOf(req, SrcY) == Some(0)
      && ValueOf(req, SrcW).Some? && ValueOf(req, SrcW).value % 0x1_0000 == 0
      && WholePart(ValueOf(req, SrcW).value) == cam.width % 0x1_0000
      && ValueOf(req, SrcH).Some? && ValueOf(req, SrcH).value % 0x1_0000 == 0
      && WholePart(ValueOf(req, SrcH).value) == cam.height % 0x1_0000
  }

  /** The request `AtomicBatch` builds carries what `BatchMeans` describes. */
  lemma BatchContents(plane: Plane, crtc: Crtc, cam: Size)
    ensures BatchMeans(AtomicBatch(plane, crtc, cam), plane, crtc, cam)
  {
    var req := AtomicBatch(plane, crtc, cam);
    forall i | 0 <= i < |req|
      ensures ValueOf(req, req[i].prop) == Some(req[i].value)
    {
      ValueOfFirstWrite(req, i, req[i].prop);
    }
    assert req[2].prop == CrtcX && req[3].prop == CrtcY;
    assert req[4].prop == CrtcW && req[5].prop == CrtcH;
    assert req[6].prop == SrcX && req[7].prop == SrcY;
    assert req[8].prop == SrcW && req[9].prop == SrcH;
  }

  /** Every property is written under its own DRM name. */
  lemma PropNamesDistinct(p: Prop, q: Prop)
    ensures PropName(p) == PropName(q) <==> p == q
  {
  }

  /** No scaling: for a camera size below 2^16 the source rectangle, read
      back from 16.16 fixed point, has exactly the size of the destination
      rectangle. From 2^16 up the shift loses the high bits and the two
      differ. */
  lemma NoScaling(plane: Plane, crtc: Crtc, cam: Size)
    ensures var req := AtomicBatch(plane, crtc, cam);
      && ValueOf(req, SrcW).Some? && ValueOf(req, CrtcW).Some?
      && ValueOf(req, SrcH).Some? && ValueOf(req, CrtcH).Some?
      && (WholePart(ValueOf(req, SrcW).value) == ValueOf(req, CrtcW).value <==> cam.width < 0x1_0000)
      && (WholePart(ValueOf(req, SrcH).value) == ValueOf(req, CrtcH).value <==> cam.height < 0x1_0000)
  {
    BatchContents(plane, crtc, cam);
  }

  /** An image no larger than the display lands inside it, and the margins
      left and right of it differ by at most one pixel (none when the two
      lengths have the same parity). */
  lemma CenteredImageFits(len: u32, image: u32)
    requires image <= len
    ensures var x := CenterOffset(len, image);
      && x + image <= len
      && -1 <= (len - (x + image)) - x <= 1
      && (len % 2 == image % 2 ==> len - (x + image) == x)
  {
  }

  /** A 640x480 camera on a 1920x1080 mode is placed at (640, 300). */
  lemma CenterExample(plane: Plane, crtc: Crtc)
    requires crtc.width == 1920 && crtc.height == 1080
    ensures var req := AtomicBatch(plane, crtc, Size(640, 480));
      ValueOf(req, CrtcX) == Some(640) && ValueOf(req, CrtcY) == Some(300)
  {
    BatchContents(plane, crtc, Size(640, 480));
  }

  /** A 1920x1080 camera on a 640x480 mode: the offsets wrap around to
      2^32 - 640 and 2^32 - 300; they are not clamped to zero. (Read as
      `int32_t` these bits are -640 and -300, but twincam passes them on
      unsigned.) */
  lemma WrapExample(plane: Plane, crtc: Crtc)
    requires crtc.width == 640 && crtc.height == 480
    ensures var req := AtomicBatch(plane, crtc, Size(1920, 1080));
      ValueOf(req, CrtcX) == Some(0xFFFF_FD80) && ValueOf(req, CrtcY) == Some(0xFFFF_FED4)
  {
    BatchContents(plane, crtc, Size(1920, 1080));
  }

  /** The display setup of `main` from the plane loop to the request: select
      the plane over the connectors, then plan the request for the first
      connector's CRTC showing a camera image of size `cam`. */
  method DisplaySetup(connectors: seq<Connector>, cam: Size) returns (r: Setup)
    requires |connectors| > 0
    requires connectors[0].currentCrtc.None? ==> !AnyDrivesCrtc(connectors)
    ensures r.NoCrtc? <==> connectors[0].currentCrtc.None?
    ensures r.NoPlane? <==> connectors[0].currentCrtc.Some?
                            && forall j :: 0 <= j < |connectors[0].currentCrtc.value.possiblePlanes| ==>
                                 !IsBound(connectors[0].currentCrtc.value.possiblePlanes[j])
    ensures r.Request? ==> exists k :: 0 <= k < |connectors[0].currentCrtc.value.possiblePlanes|
                            && FirstBound(connectors[0].currentCrtc.value.possiblePlanes) == Some(k)
                            && |r.batch| == |WriteOrder|
                            && (forall i :: 0 <= i < |r.batch| ==>
                                  r.batch[i].target == connectors[0].currentCrtc.value.possiblePlanes[k].id
                                  && r.batch[i].prop == WriteOrder[i])
                            && BatchMeans(r.batch, connectors[0].currentCrtc.value.possiblePlanes[k],
                                          connectors[0].currentCrtc.value, cam)
  {
    var plane := SelectPlane(connectors);
    if connectors[0].currentCrtc.Some? {
      assert AnyDrivesCrtc(connectors) by { assert connectors[0].currentCrtc.Some?; }
    }
    r := PlanCommit(connectors[0].currentCrtc, plane, cam);
  }
}
