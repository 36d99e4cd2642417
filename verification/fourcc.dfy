/** `PixelFormatToCC`: turns a 32-bit DRM pixel-format code into its
    four-character name, least-significant byte first. The name ends at the
    first whitespace byte (which is overwritten by a terminator) or at the
    first NUL byte (where the C string ends). */
module FourCC {
  import opened U32

  /** C-locale `isspace`: space, tab, newline, vertical tab, form feed and
      carriage return. */
  predicate IsSpace(b: byte) {
    b == 0x20 || 0x09 <= b <= 0x0d
  }

  /** A byte that can stay in the name: neither NUL nor whitespace. */
  predicate IsNameByte(b: byte) {
    b != 0 && !IsSpace(b)
  }

  /** Byte `i` of `f`: `(f >> 8*i) & 0xff`. */
  function ByteAt(f: u32, i: nat): byte
    requires i < 4
  {
    (f / [0x1, 0x100, 0x1_0000, 0x100_0000][i]) % 0x100
  }

  /** The four bytes of `f`, least-significant first. */
  function Bytes(f: u32): (bs: seq<byte>)
    ensures |bs| == 4
    ensures forall i :: 0 <= i < 4 ==> bs[i] == ByteAt(f, i)
  {
    [ByteAt(f, 0), ByteAt(f, 1), ByteAt(f, 2), ByteAt(f, 3)]
  }

  /** The reference encoder of a four-character code (the kernel's
      `fourcc_code(a, b, c, d)`): byte `a` lowest. */
  function Encode(a: byte, b: byte, c: byte, d: byte): u32 {
    a + 0x100 * b + 0x1_0000 * c + 0x100_0000 * d
  }

  /** The position of the first whitespace byte of `buf`, or `|buf|` when
      there is none. */
  function FirstSpace(buf: seq<byte>): (k: nat)
    ensures k <= |buf|
    ensures forall i :: 0 <= i < k ==> !IsSpace(buf[i])
    ensures k < |buf| ==> IsSpace(buf[k])
  {
    if |buf| == 0 || IsSpace(buf[0]) then 0 else 1 + FirstSpace(buf[1..])
  }

  /** The overwrite loop: scans every byte and replaces the first whitespace
      byte, and only that one, with NUL. A NUL byte does not stop the scan. */
  function BlankFirstSpace(buf: seq<byte>): (r: seq<byte>)
    ensures FirstSpace(buf) < |buf| ==> r == buf[FirstSpace(buf) := 0]
    ensures FirstSpace(buf) == |buf| ==> r == buf
  {
    if |buf| == 0 then []
    else if IsSpace(buf[0]) then [0] + buf[1..]
    else [buf[0]] + BlankFirstSpace(buf[1..])
  }

  /** `std::string(buf)`: the characters before the first NUL. */
  function CString(buf: seq<byte>): (s: string)
    ensures |s| <= |buf|
    ensures forall i :: 0 <= i < |s| ==> buf[i] != 0 && s[i] == buf[i] as char
    ensures |s| < |buf| ==> buf[|s|] == 0
  {
    if |buf| == 0 || buf[0] == 0 then ""
    else [buf[0] as char] + CString(buf[1..])
  }

  /** twincam's decoder: a five-byte buffer holding the four bytes of
      `f` and a terminating NUL, blanked at the first whitespace byte, read
      as a C string. */
  function PixelFormatToCC(f: u32): (s: string)
    ensures |s| <= 4
    ensures forall i :: 0 <= i < |s| ==> IsNameByte(ByteAt(f, i)) && s[i] as int == ByteAt(f, i)
    ensures |s| < 4 ==> !IsNameByte(ByteAt(f, |s|))
  {
    var buf := Bytes(f) + [0];
    var blanked := BlankFirstSpace(buf);
    var k := FirstSpace(buf);
    assert blanked[4] == 0;
    assert forall i :: 0 <= i < |buf| && i != k ==> blanked[i] == buf[i];
    var s := CString(blanked);
    assert k < |buf| ==> blanked[k] == 0;
    assert |s| <= k;
    assert forall i :: 0 <= i < 4 ==> buf[i] == ByteAt(f, i);
    assert forall i :: 0 <= i < |s| ==> !IsSpace(buf[i]) && blanked[i] == buf[i];
    s
  }

  /** The reference reading of a name: the longest prefix of `bs` made of
      name bytes. */
  function NamePrefix(bs: seq<byte>): (p: seq<byte>)
    ensures |p| <= |bs| && p == bs[..|p|]
    ensures forall i :: 0 <= i < |p| ==> IsNameByte(p[i])
    ensures |p| < |bs| ==> !IsNameByte(bs[|p|])
  {
    if |bs| == 0 || !IsNameByte(bs[0]) then [] else [bs[0]] + NamePrefix(bs[1..])
  }

  /** Bytes read as the characters of a `std::string`. */
  function AsChars(bs: seq<byte>): (s: string)
    ensures |s| == |bs|
    ensures forall i :: 0 <= i < |bs| ==> s[i] as int == bs[i]
  {
    seq(|bs|, i requires 0 <= i < |bs| => bs[i] as char)
  }

  /** The decoder returns exactly the longest prefix of the four bytes that
      holds neither NUL nor whitespace. */
  lemma PixelFormatToCCIsNamePrefix(f: u32)
    ensures PixelFormatToCC(f) == AsChars(NamePrefix(Bytes(f)))
  {
  }

  /** The name has all four characters exactly when none of the four bytes
      is NUL or whitespace. */
  lemma FullNameIff(f: u32)
    ensures |PixelFormatToCC(f)| == 4 <==> forall i :: 0 <= i < 4 ==> IsNameByte(ByteAt(f, i))
  {
  }

  /** Splitting a number into its low byte and the rest. */
  lemma LowByte(x: byte, y: nat)
    ensures (x + 0x100 * y) / 0x100 == y && (x + 0x100 * y) % 0x100 == x
  {
  }

  /** Re-encoding the four decoded bytes gives back the code. */
  lemma {:induction false} EncodeBytes(f: u32)
    ensures Encode(ByteAt(f, 0), ByteAt(f, 1), ByteAt(f, 2), ByteAt(f, 3)) == f
  {
    var q1, q2, q3 := f / 0x100, f / 0x1_0000, f / 0x100_0000;
    assert q1 / 0x100 == q2;
    assert q2 / 0x100 == q3;
    assert f == f % 0x100 + 0x100 * q1;
    assert q1 == q1 % 0x100 + 0x100 * q2;
    assert q2 == q2 % 0x100 + 0x100 * q3;
    assert q3 == q3 % 0x100;
  }

  /** Shifting right by 16 or 24 is shifting right by 8 repeatedly. */
  lemma ShiftSteps(x: nat)
    ensures x / 0x1_0000 == (x / 0x100) / 0x100
    ensures x / 0x100_0000 == (x / 0x1_0000) / 0x100
  {
  }

  /** Decoding the bytes of an encoded code gives back the four bytes. */
  lemma {:induction false} BytesOfEncode(a: byte, b: byte, c: byte, d: byte)
    ensures Bytes(Encode(a, b, c, d)) == [a, b, c, d]
  {
    var f := Encode(a, b, c, d);
    var t2: nat := c + 0x100 * d;
    var t1: nat := b + 0x100 * t2;
    assert f == a + 0x100 * t1;
    LowByte(a, t1);
    LowByte(b, t2);
    LowByte(c, d);
    ShiftSteps(f);
    assert f / 0x100 == t1;
    assert f / 0x1_0000 == t2;
    assert f / 0x100_0000 == d;
    assert ByteAt(f, 0) == a;
    assert ByteAt(f, 1) == b;
    assert ByteAt(f, 2) == c;
    assert ByteAt(f, 3) == d;
  }

  /** Round trip: a code built from four name bytes decodes to exactly
      those four characters. */
  lemma {:induction false} DecodeEncode(a: byte, b: byte, c: byte, d: byte)
    requires IsNameByte(a) && IsNameByte(b) && IsNameByte(c) && IsNameByte(d)
    ensures PixelFormatToCC(Encode(a, b, c, d)) == AsChars([a, b, c, d])
  {
    var f := Encode(a, b, c, d);
    BytesOfEncode(a, b, c, d);
    FullNameIff(f);
  }

  /** `XR24` (32-bit xRGB): all four characters survive. */
  lemma XRGB8888Name()
    ensures PixelFormatToCC(0x3432_5258) == "XR24"
  {
  }

  /** `R8  ` (8-bit red): the name stops at the first padding space. */
  lemma R8Name()
    ensures PixelFormatToCC(0x2020_3852) == "R8"
  {
  }

  /** A NUL byte ends the name even when a later byte is whitespace. */
  lemma NulBeforeSpaceName()
    ensures PixelFormatToCC(0x4220_0041) == "A"
  {
  }
}
