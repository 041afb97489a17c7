/**
  The `/stream` route (app.py lines 53-58): a streaming response whose body is
  `mjpeg_generator(shots=32, downscale=(128,128))` and whose media type is
  `multipart/x-mixed-replace; boundary=frame`. The HTTP serving itself is not
  modelled; only the arguments the route fixes and the media type it declares.
 */
module StreamRoute {
  import opened Wrappers
  import opened Multipart
  import opened FramePipeline
  import opened Generator

  /** The two things the route hands to `StreamingResponse`. */
  datatype StreamingResponse = StreamingResponse(cfg: Config, mediaType: MediaType)

  const StreamMediaType: MediaType := MediaType("multipart", "x-mixed-replace", [Parameter("boundary", Boundary)])

  lemma StreamParamsText()
    ensures RenderParams(StreamMediaType.params) == "; boundary=frame"
  {
    var ps := StreamMediaType.params;
    assert RenderParams(ps[1..]) == "";
    assert "; " + "boundary" + "=" + "frame" == "; boundary=frame";
  }

  /** The media type is written on the wire as the route spells it. */
  lemma StreamMediaTypeText()
    ensures Render(StreamMediaType) == "multipart/x-mixed-replace; boundary=frame"
  {
    StreamParamsText();
    assert "multipart" + "/" + "x-mixed-replace" == "multipart/x-mixed-replace";
  }

  /**
    The route's response: 32 shots, a 128 by 128 processing size, and a
    multipart media type whose boundary parameter is the token every part
    uses, a valid RFC 2046 boundary.
   */
  function Stream(): (resp: StreamingResponse)
    ensures resp.cfg.shots == 32 && resp.cfg.downscale == Size(128, 128)
    ensures resp.mediaType.mainType == "multipart"
    ensures Param(resp.mediaType.params, "boundary") == Some(Boundary)
    ensures ValidBoundary(Param(resp.mediaType.params, "boundary").value)
  {
    assert Param(StreamMediaType.params, "boundary") == Some(Boundary);
    BoundaryIsValid();
    StreamingResponse(Config(32, Size(128, 128)), StreamMediaType)
  }

  /** Through the route, every image handed to the blur is 128 by 128, whatever the camera's size. */
  lemma StreamBlursAt128(frame: Image, lib: Library)
    ensures Shape(TransformInput(frame, Stream().cfg, lib)).0 == 128
    ensures Shape(TransformInput(frame, Stream().cfg, lib)).1 == 128
  {
  }

  /**
    Every part the route streams opens with `--`, the boundary that the route's
    media type declares (`Stream` ensures that parameter is `Boundary`), then CRLF.
   */
  lemma StreamPartsUseDeclaredBoundary(results: seq<Option<Image>>, lib: Library)
    ensures var parts := Generate(results, Stream().cfg, lib).parts;
      forall k :: 0 <= k < |parts| ==> |parts[k]| >= 9 && parts[k][..9] == BoundaryLine
  {
    var parts := Generate(results, Stream().cfg, lib).parts;
    GeneratedPartsAreFramed(results, Stream().cfg, lib);
    forall k | 0 <= k < |parts|
      ensures |parts[k]| >= 9 && parts[k][..9] == BoundaryLine
    {
      FramedPartStartsWithDelimiter(parts[k]);
    }
  }
}
