# twincam display setup, modelled in Dafny

twincam shows a libcamera camera on a KMS display. Most of `twincam.cpp`
hands calls to kms++ and libcamera, but `main` contains three small,
deterministic computations. Here they are lifted out as pure functions and
their behaviour is proved:

1. **`PixelFormatToCC`**: decodes a 32-bit DRM pixel-format code into its
   four-character name. Bytes are taken least-significant first. The name
   stops at the first whitespace byte, which is overwritten with NUL, or at
   the first NUL byte, where the C string ends. Module `FourCC`, file `fourcc.dfy`.
2. **Plane selection**: for each connector that currently drives a CRTC,
   the program scans the possible planes of the *first* connector's CRTC.
   It keeps the first plane whose `CRTC_ID` is nonzero. The `plane` pointer stays
   unassigned when no plane qualifies, so it is modelled as an `Option`.
   Module `Planes`, file `planes.dfy`.
3. **Centring geometry and the atomic request**: the destination offset
   `0 + iw/2 - cam_width/2` (and the same for the height) in `uint32_t`,
   plus the ten property writes `CRTC_ID, FB_ID, CRTC_X, CRTC_Y, CRTC_W,
   CRTC_H, SRC_X, SRC_Y, SRC_W, SRC_H`. The source-rectangle size is in 16.16 fixed
   point (`<< 16`). Module `Commit`, file `commit.dfy`.

`uint32_t` arithmetic is modelled in module `U32` (`u32.dfy`). Values are
unbounded integers reduced modulo 2^32. Subtraction wraps, and `<< 16`
drops the bits shifted past bit 31. `option.dfy` holds the `Option` type.

Centring does not clamp: `out_x` is computed in `uint32_t`, so a camera
wider than the mode makes it wrap (twincam.cpp:322-323), and the same holds
for `out_y`. `Commit.CenterOffset` and `Commit.WrapExample` give the wrapped
values. `Commit.CenterOffset` also proves that the wrapped bits, if read as
`int32_t`, are exactly the signed centring offset. That is a way to read
the value, not something twincam does: it passes the unsigned value to the
request unchanged (twincam.cpp:325-326).

`Commit.DisplaySetup` joins the two halves of `main` that matter here: the
plane loop (twincam.cpp:108-153) and the request built from its result
(twincam.cpp:307-333).

## Model

| member | source | states |
|---|---|---|
| FourCC.PixelFormatToCC | twincam.cpp:55-68 | the name has at most 4 characters; character i is byte i of the code, least-significant first (`(f >> 8*i) & 0xff`), and is neither NUL nor C-locale whitespace; a name shorter than 4 stops at a NUL or whitespace byte |
| FourCC.BlankFirstSpace | twincam.cpp:60-65 | the loop overwrites the first whitespace byte with NUL and changes no other byte; without whitespace the buffer is unchanged |
| FourCC.FirstSpace | twincam.cpp:60-64 | the loop's stopping index: no whitespace before it; it is whitespace unless it is the buffer's end |
| FourCC.CString | twincam.cpp:67 | `std::string(buf)` is the bytes before the first NUL, or the whole buffer if there is none |
| FourCC.PixelFormatToCCIsNamePrefix | twincam.cpp:55-68 | the name equals the longest prefix of the four bytes that contains neither NUL nor whitespace, defined independently |
| FourCC.FullNameIff | twincam.cpp:56-67 | the name has exactly 4 characters if and only if none of the four bytes is NUL or whitespace |
| FourCC.EncodeBytes | twincam.cpp:56-59 | the four extracted bytes re-encode, byte 0 lowest, to the original code: nothing is lost |
| FourCC.BytesOfEncode | twincam.cpp:56-59 | extracting the bytes of an encoded code returns the four bytes in order |
| FourCC.DecodeEncode | twincam.cpp:55-68 | round trip: a code built from four non-NUL, non-whitespace bytes decodes to exactly those four characters |
| FourCC.XRGB8888Name | twincam.cpp:55-68 | code 0x34325258 decodes to "XR24" |
| FourCC.R8Name | twincam.cpp:55-68 | code 0x20203852 (`R8` padded with spaces) decodes to "R8": the name stops at the first space |
| FourCC.NulBeforeSpaceName | twincam.cpp:55-68 | a NUL in byte 1 ends the name ("A") even though byte 2 is a space that the loop blanks |
| U32.Add | twincam.cpp:322-323 | `uint32_t` addition: the exact sum, or the sum minus 2^32 when it overflows |
| U32.Sub | twincam.cpp:322-323 | `uint32_t` subtraction is undone by addition; it is the exact difference when `b <= a` and wraps to `2^32 - (b - a)` otherwise |
| U32.Shl16 | twincam.cpp:332-333 | `v << 16` has 16 zero low bits, and its upper 16 bits hold the low 16 bits of `v` |
| U32.SubAsInt32 | twincam.cpp:322-323 | a wrapped difference read as `int32_t` is the signed difference whenever that fits in 32 signed bits |
| U32.Shl16RoundTrip | twincam.cpp:332-333 | `(v << 16) >> 16 == v` exactly when `v < 2^16` |
| Planes.FirstBound | twincam.cpp:143-152 | the inner loop with `break`: the index found holds a plane with nonzero `crtc_id`, and no earlier plane qualifies; none is found only when no plane qualifies |
| Planes.FirstBoundUnique | twincam.cpp:143-152 | a qualifying plane with no qualifying plane before it is the one the scan picks, so no later plane is ever chosen |
| Planes.SelectFrom | twincam.cpp:143-152 | nothing is selected if and only if no plane has a nonzero `crtc_id`; otherwise the selected plane is the first that does |
| Planes.SelectPlane | twincam.cpp:108-153 | the nested connector and plane loops leave `plane` unassigned when no connector drives a CRTC, and otherwise select from the first connector's CRTC exactly as the first-match rule does |
| Commit.CenterOffset | twincam.cpp:316-323 | the offset plus `image/2` is `len/2` modulo 2^32; it is exact when the image half fits; otherwise it wraps to `2^32 - (image/2 - len/2)` rather than clamping; read as `int32_t` it is `len/2 - image/2` |
| Commit.AtomicBatch | twincam.cpp:312-333 | ten writes to the selected plane in the order CRTC_ID, FB_ID, CRTC_X, CRTC_Y, CRTC_W, CRTC_H, SRC_X, SRC_Y, SRC_W, SRC_H, each property written once |
| Commit.BatchContents | twincam.cpp:312-333 | CRTC_ID and FB_ID copy the plane's current values; CRTC_X/Y, if their bits are read as `int32_t`, are the signed centring offsets; CRTC_W/H are the camera size; SRC_X = SRC_Y = 0; SRC_W/H have zero fraction bits and whole part equal to the camera size modulo 2^16 |
| Commit.PlanCommit | twincam.cpp:307-333 | without a CRTC the program stops with no request; with a CRTC but no selected plane the plane is unassigned; otherwise the request is ten writes to the selected plane in the order CRTC_ID … SRC_H, carrying every value listed for `Commit.BatchContents` (plane's CRTC and framebuffer, centring offsets, camera size, zero source origin, 16.16 source size) |
| Commit.DisplaySetup | twincam.cpp:108-333 | the plane loop (108-153) followed by the request (307-333), skipping the listing code between them: no request exactly when the first connector drives no CRTC; an unassigned plane exactly when that CRTC has no possible plane with a nonzero `crtc_id`; otherwise ten writes, all to the first such plane, in the order CRTC_ID … SRC_H, carrying every value listed for `Commit.BatchContents` |
| Commit.NoScaling | twincam.cpp:327-333 | the source-rectangle size read back from 16.16 equals the destination size if and only if the camera dimension is below 2^16 |
| Commit.CenteredImageFits | twincam.cpp:316-323 | an image no larger than the display lies inside it, and its left and right margins differ by at most one pixel (by none when both lengths have the same parity) |
| Commit.CenterExample | twincam.cpp:316-326 | a 640x480 camera on a 1920x1080 mode gets CRTC_X = 640 and CRTC_Y = 300 |
| Commit.WrapExample | twincam.cpp:316-326 | a 1920x1080 camera on a 640x480 mode gets CRTC_X = 2^32 - 640 and CRTC_Y = 2^32 - 300; the offsets are not clamped to 0 |
| Commit.PropNamesDistinct | twincam.cpp:313-333 | the ten DRM property names are pairwise different |

## Left out

- Listing the card, connectors, CRTCs, video modes, planes and cameras (twincam.cpp:93-200, 211-304): this only formats output over kms++ and libcamera objects. The plane selection inside the connector loop is modelled.
- Command-line parsing and the usage message (twincam.cpp:76-91): a thin wrapper over kms++util's `OptionSet`.
- The camera manager and the camera lifecycle (twincam.cpp:204-209, 335-408): start, acquire, configure, buffer allocation, request creation and queueing, start, release and stop. These are foreign device calls that only print errors. `commit_sync` is also left out: the model stops at the request it is given.
- The camera size is a parameter (`Commit.Size`). twincam reads it from `cameras[0]`'s `PixelArraySize` property, and that read is undefined when there is no camera.
- The CRTC's mode size and the planes' `CRTC_ID`/`FB_ID` values are fields of the `Crtc` and `Plane` records. twincam reads them from the kernel.
- No buffer pool, ownership tracking or per-frame capture-to-display handoff is modelled: the code has none of them. Only a disabled `#if 0` stub exists (twincam.cpp:396-401).
- src/jpeg_error_manager.cpp: a libjpeg error trampoline built on `longjmp`. It has no state of its own.
- FourCC.PixelFormatToCC: `isspace` is modelled as the fixed C-locale set (space, `\t`, `\n`, `\v`, `\f`, `\r`). Locale-dependent classification and the undefined behaviour of `isspace` on a negative `char` (bytes 0x80 and above on signed-`char` targets) are not modelled. Those bytes count as name bytes.
- Planes.SelectPlane: requires at least one connector and requires that, if the first connector drives no CRTC, no other connector does either. Without these the C++ code calls `front()` on an empty vector or dereferences a null `ctrc`, which is undefined behaviour, not an error path.
- Commit.PlanCommit: the `NoPlane` outcome stands for the C++ code going on with an unassigned `plane` pointer (undefined behaviour). The model stops there instead of guessing what that pointer holds.
- Commit.DisplaySetup: carries the same two requires as `Planes.SelectPlane`, for the same undefined-behaviour reasons. The listing and camera code between the plane loop and the request (twincam.cpp:155-305) is left out as above.
