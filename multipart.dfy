/**
  The byte layout of one part of the `multipart/x-mixed-replace` response that
  `mjpeg_generator` yields (app.py lines 48-51), and the media type the `/stream`
  route declares for it (app.py line 57).

  Each part is the dash-boundary line `--frame CRLF`, the header field
  `Content-Type: image/jpeg CRLF`, the blank line `CRLF`, the JPEG bytes, and a
  closing `CRLF`. In the body-part grammar of section 5.1.1 of RFC 2046 that
  closing CRLF is the first half of the next part's delimiter.
 */
module Multipart {
  import opened Wrappers

  newtype byte = x: int | 0 <= x < 256

  predicate IsAscii(s: string) {
    forall i :: 0 <= i < |s| ==> s[i] as int < 128
  }

  /** The bytes of an ASCII string, as a Python `b"..."` literal spells them. */
  function Ascii(s: string): (b: seq<byte>)
    requires IsAscii(s)
    ensures |b| == |s|
    ensures forall i :: 0 <= i < |s| ==> b[i] as int == s[i] as int
  {
    seq(|s|, i requires 0 <= i < |s| => s[i] as int as byte)
  }

  lemma AsciiAppend(s: string, t: string)
    requires IsAscii(s) && IsAscii(t)
    ensures IsAscii(s + t) && Ascii(s + t) == Ascii(s) + Ascii(t)
  {
    assert forall i :: 0 <= i < |s + t| ==> (s + t)[i] == if i < |s| then s[i] else t[i - |s|];
  }

  /** The boundary token shared by the route's media type and every part. */
  const Boundary: string := "frame"

  const CrlfText: string := "\r\n"
  const DelimiterText: string := "--frame\r\n"
  const ContentTypeText: string := "Content-Type: image/jpeg\r\n\r\n"

  const Crlf: seq<byte> := Ascii(CrlfText)

  /** The 37 bytes that precede the JPEG payload in every part. */
  const PartHeader: seq<byte> := Ascii(DelimiterText) + Ascii(ContentTypeText)

  /** The bytes yielded for one encoded frame, concatenated exactly as the source writes them. */
  function Chunk(jpg: seq<byte>): (part: seq<byte>)
    ensures |part| == |jpg| + 39
  {
    Ascii(DelimiterText) + Ascii(ContentTypeText) + jpg + Ascii(CrlfText)
  }

  /**
    What a reader of one part recovers: the payload between the fixed 37-byte
    header and the 2-byte trailer, or None when the bytes are not a part.
   */
  function Unframe(part: seq<byte>): (jpg: Option<seq<byte>>)
    ensures jpg.Some? ==> |jpg.value| + 39 == |part|
  {
    if |part| >= 39 && part[..37] == PartHeader && part[|part| - 2..] == Crlf
    then Some(part[37..|part| - 2])
    else None
  }

  /** Stripping header and trailer from a yielded part gives back the JPEG bytes unchanged. */
  lemma UnframeChunk(jpg: seq<byte>)
    ensures Unframe(Chunk(jpg)) == Some(jpg)
  {
    var part := Chunk(jpg);
    assert |PartHeader| == 37;
    assert part == PartHeader + jpg + Crlf;
    assert part[..37] == PartHeader;
    assert part[37..|part| - 2] == jpg;
    assert part[|part| - 2..] == Crlf;
  }

  /** Conversely, every byte string a reader accepts as a part is the part of its payload. */
  lemma ChunkUnframe(part: seq<byte>)
    requires Unframe(part).Some?
    ensures Chunk(Unframe(part).value) == part
  {
    var jpg := Unframe(part).value;
    assert part == part[..37] + part[37..|part| - 2] + part[|part| - 2..];
  }

  /** Distinct payloads give distinct parts. */
  lemma ChunkInjective(a: seq<byte>, b: seq<byte>)
    requires Chunk(a) == Chunk(b)
    ensures a == b
  {
    UnframeChunk(a);
    UnframeChunk(b);
  }

  /** The dash-boundary line `--` boundary CRLF, as bytes. */
  function DelimiterLine(boundary: string): seq<byte>
    requires IsAscii(boundary)
  {
    Ascii("--" + boundary + CrlfText)
  }

  /** The dash-boundary line of `Boundary`. */
  const BoundaryLine: seq<byte> := DelimiterLine(Boundary)

  /** Every part a reader accepts opens with the dash-boundary line of `Boundary`. */
  lemma FramedPartStartsWithDelimiter(part: seq<byte>)
    requires Unframe(part).Some?
    ensures |part| >= 9 && part[..9] == BoundaryLine
  {
    assert "--" + Boundary + CrlfText == DelimiterText;
    assert |Ascii(DelimiterText)| == 9;
    assert part[..37] == PartHeader;
    assert part[..9] == PartHeader[..9];
  }

  /** One header field of a body part: `name: value CRLF`. */
  datatype HeaderField = HeaderField(name: string, value: string)

  function HeaderBlock(fields: seq<HeaderField>): string {
    if fields == [] then ""
    else fields[0].name + ": " + fields[0].value + CrlfText + HeaderBlock(fields[1..])
  }

  /**
    A body part in the layout of section 5.1.1 of RFC 2046: the dash-boundary
    line, the header fields, the blank line, then the body. The CRLF that ends
    the body belongs to the delimiter of the part after it.
   */
  function BodyPart(boundary: string, fields: seq<HeaderField>, body: seq<byte>): seq<byte>
    requires IsAscii("--" + boundary + CrlfText + HeaderBlock(fields) + CrlfText)
  {
    Ascii("--" + boundary + CrlfText + HeaderBlock(fields) + CrlfText) + body
  }

  /** The single header field of every part, as `HeaderBlock` writes it. */
  const JpegFields: seq<HeaderField> := [HeaderField("Content-Type", "image/jpeg")]

  /** The text before the payload: the dash-boundary line, the header block and the blank line. */
  function Prelude(): string {
    "--" + Boundary + CrlfText + HeaderBlock(JpegFields) + CrlfText
  }

  lemma PreludeText()
    ensures Prelude() == DelimiterText + ContentTypeText
  {
    assert HeaderBlock(JpegFields[1..]) == "";
    var field := "Content-Type" + ": " + "image/jpeg" + CrlfText;
    assert field == "Content-Type: image/jpeg\r\n";
    assert HeaderBlock(JpegFields) == field + "";
    assert "--" + Boundary + CrlfText == DelimiterText;
    assert field + CrlfText == ContentTypeText;
  }

  /** The 37 header bytes of every part are the RFC 2046 prelude for `Boundary` and `JpegFields`. */
  lemma PreludeBytes()
    ensures IsAscii(Prelude()) && Ascii(Prelude()) == PartHeader
  {
    PreludeText();
    AsciiAppend(DelimiterText, ContentTypeText);
  }

  /**
    The literal bytes of a yielded part are an RFC 2046 body part with the
    single header `Content-Type: image/jpeg`, followed by the CRLF that starts
    the next delimiter.
   */
  lemma ChunkIsBodyPart(jpg: seq<byte>)
    ensures IsAscii(Prelude())
    ensures Chunk(jpg) == BodyPart(Boundary, JpegFields, jpg) + Crlf
  {
    PreludeBytes();
  }

  /** The boundary rules of section 5.1.1 of RFC 2046: 1 to 70 `bchars`, not ending in a space. */
  predicate IsBChar(c: char) {
    ('0' <= c <= '9') || ('a' <= c <= 'z') || ('A' <= c <= 'Z') ||
    c in "'()+_,-./:=? "
  }

  predicate ValidBoundary(b: string) {
    1 <= |b| <= 70 && (forall i :: 0 <= i < |b| ==> IsBChar(b[i])) && b[|b| - 1] != ' '
  }

  /** `frame` is a boundary that section 5.1.1 of RFC 2046 allows. */
  lemma BoundaryIsValid()
    ensures ValidBoundary(Boundary)
  {
    assert forall i :: 0 <= i < |Boundary| ==> 'a' <= Boundary[i] <= 'z';
  }

  /** A media type with its parameters, `type/subtype; name=value ...`. */
  datatype Parameter = Parameter(name: string, value: string)
  datatype MediaType = MediaType(mainType: string, subType: string, params: seq<Parameter>)

  function RenderParams(ps: seq<Parameter>): string {
    if ps == [] then "" else "; " + ps[0].name + "=" + ps[0].value + RenderParams(ps[1..])
  }

  /** The header value as it is written on the wire. */
  function Render(m: MediaType): string {
    m.mainType + "/" + m.subType + RenderParams(m.params)
  }

  /** The value of the first parameter called `name`, if any. */
  function Param(ps: seq<Parameter>, name: string): (v: Option<string>)
    ensures v.Some? <==> exists i :: 0 <= i < |ps| && ps[i].name == name
    ensures v.Some? ==> exists i :: 0 <= i < |ps| && ps[i] == Parameter(name, v.value) &&
                                    forall j :: 0 <= j < i ==> ps[j].name != name
  {
    if ps == [] then None
    else if ps[0].name == name then Some(ps[0].value)
    else
      var rest := Param(ps[1..], name);
      assert forall i :: 1 <= i < |ps| ==> ps[i] == ps[1..][i - 1];
      rest
  }
}
