/**
 * Byte-level framing of one `multipart/x-mixed-replace` part, as the camera
 * feed writes it: the delimiter line `--frame`, a `Content-Type: image/jpeg`
 * header, a blank line, the JPEG bytes and a closing CRLF. The delimiter is the
 * "dash-boundary" of section 5.1.1 of RFC 2046: two hyphens followed by the
 * boundary parameter of the media type.
 */
module Multipart {
  import opened Wrappers

  newtype byte = b: int | 0 <= b < 256

  predicate IsLatin1(s: string)
  {
    forall i | 0 <= i < |s| :: s[i] as int < 256
  }

  /** A Python `bytes` literal: one byte per character. */
  function Bytes(s: string): (r: seq<byte>)
    requires IsLatin1(s)
    ensures |r| == |s| && forall i | 0 <= i < |s| :: r[i] as int == s[i] as int
  {
    seq(|s|, i requires 0 <= i < |s| => s[i] as int as byte)
  }

  /** The dash-boundary that opens every part of a multipart body (RFC 2046, section 5.1.1). */
  function Delimiter(boundary: string): string
  {
    "--" + boundary
  }

  const MixedReplaceParams: string := "multipart/x-mixed-replace; boundary="

  /** The media type of a multipart stream whose parts replace one another, with its boundary parameter. */
  function MixedReplaceType(boundary: string): string
  {
    MixedReplaceParams + boundary
  }

  /** Reads the boundary parameter back out of a `multipart/x-mixed-replace` media type. */
  function BoundaryOf(mediaType: string): (b: Option<string>)
    ensures b.Some? <==> exists boundary :: mediaType == MixedReplaceType(boundary)
    ensures b.Some? ==> mediaType == MixedReplaceType(b.value)
  {
    var n := |MixedReplaceParams|;
    if |mediaType| >= n && mediaType[..n] == MixedReplaceParams then
      assert mediaType == MixedReplaceType(mediaType[n..]);
      Some(mediaType[n..])
    else
      None
  }

  lemma {:induction false} BoundaryRoundTrip(boundary: string)
    ensures BoundaryOf(MixedReplaceType(boundary)) == Some(boundary)
  {
    var mt := MixedReplaceType(boundary);
    assert mt[..|MixedReplaceParams|] == MixedReplaceParams;
    assert mt[|MixedReplaceParams|..] == boundary;
  }

  /** `b'--frame\r\n' b'Content-Type: image/jpeg\r\n\r\n'`: the 37 bytes that open every part. */
  const PartHeader: seq<byte> := Bytes("--frame\r\n") + Bytes("Content-Type: image/jpeg\r\n\r\n")

  const CRLF: seq<byte> := Bytes("\r\n")

  /** One part of the camera feed, wrapping one JPEG image. */
  function Part(jpeg: seq<byte>): (chunk: seq<byte>)
    ensures |PartHeader| == 37 && |CRLF| == 2
    ensures |chunk| == 37 + |jpeg| + 2
    ensures chunk[..37] == PartHeader && chunk[|chunk| - 2..] == CRLF
  {
    PartHeader + jpeg + CRLF
  }

  /** Undoes `Part`: strips the 37-byte header and the 2-byte trailer, or fails if they are not there. */
  function ParsePart(chunk: seq<byte>): (jpeg: Option<seq<byte>>)
    ensures jpeg.Some? ==> |chunk| == |jpeg.value| + 39
  {
    if |chunk| >= 39 && chunk[..37] == PartHeader && chunk[|chunk| - 2..] == CRLF then
      Some(chunk[37..|chunk| - 2])
    else
      None
  }

  lemma {:induction false} PartRoundTrip(jpeg: seq<byte>)
    ensures ParsePart(Part(jpeg)) == Some(jpeg)
  {
    var chunk := Part(jpeg);
    assert chunk[37..|chunk| - 2] == jpeg;
  }

  /** Every chunk `ParsePart` accepts is exactly the part of what it returns. */
  lemma {:induction false} ParsePartSound(chunk: seq<byte>)
    ensures ParsePart(chunk).Some? ==> Part(ParsePart(chunk).value) == chunk
  {
    if ParsePart(chunk).Some? {
      var n := |chunk|;
      assert chunk == chunk[..37] + chunk[37..n - 2] + chunk[n - 2..];
    }
  }

  /** Every part opens with the dash-boundary for `boundary=frame`, followed by CRLF. */
  lemma {:induction false} PartOpensWithDelimiter(jpeg: seq<byte>)
    ensures IsLatin1(Delimiter("frame") + "\r\n")
    ensures Part(jpeg)[..9] == Bytes(Delimiter("frame") + "\r\n")
  {
    var chunk := Part(jpeg);
    assert chunk[..9] == Bytes("--frame\r\n");
  }
}
