/**
  One iteration of `mjpeg_generator` after a successful read (app.py lines
  23-51): downscale the captured frame, convert it to RGB, run the quantum blur,
  convert back to BGR, upscale to the captured frame's own size, JPEG-encode,
  and wrap the bytes as one multipart part.

  The library calls are not modelled pixel by pixel. An image is its numpy
  shape plus opaque sample bytes; `cv2.resize` and `cv2.cvtColor` get their
  output dimensions from this model and their samples from a function of the
  `Library`; `process_image` and `cv2.imencode` are opaque functions that may
  fail.
 */
module FramePipeline {
  import opened Wrappers
  import opened Multipart

  /** OpenCV's `dsize` argument, which is ordered (width, height). */
  datatype Size = Size(width: nat, height: nat)

  /** A 3-channel, 8-bit image as numpy holds it: `rows` by `cols` pixels. */
  datatype Image = Image(rows: nat, cols: nat, samples: seq<byte>)

  /** numpy's `shape`: (rows, cols, channels), i.e. (height, width, 3). */
  function Shape(img: Image): (nat, nat, nat) {
    (img.rows, img.cols, 3)
  }

  datatype Interpolation = InterArea | InterLinear
  datatype ColorConversion = BgrToRgb | RgbToBgr

  /**
    The libraries `mjpeg_generator` calls, as opaque functions:
    - `resample`: the samples `cv2.resize` computes for a target size;
    - `recolor`: the samples `cv2.cvtColor` computes;
    - `processImage`: `process_image(image, shots, backend)`, None when it raises;
    - `imencode`: `cv2.imencode(ext, image, [IMWRITE_JPEG_QUALITY, quality])`,
      None when its success flag is false.
   */
  datatype Library = Library(
    resample: (Image, Size, Interpolation) -> seq<byte>,
    recolor: (Image, ColorConversion) -> seq<byte>,
    processImage: (Image, nat, string) -> Option<Image>,
    imencode: (string, Image, nat) -> Option<seq<byte>>)

  /** The generator's two arguments. */
  datatype Config = Config(shots: nat, downscale: Size)

  /** `mjpeg_generator(shots=64, downscale=(128,128))`. */
  const GeneratorDefaults: Config := Config(64, Size(128, 128))

  const Backend: string := "qasm_simulator"
  const JpegExtension: string := ".jpg"
  const JpegQuality: nat := 80

  /** `cv2.resize(img, dsize, interpolation=interp)`: an image of exactly `dsize`. */
  function Resize(img: Image, dsize: Size, interp: Interpolation, lib: Library): (out: Image)
    ensures Shape(out).0 == dsize.height && Shape(out).1 == dsize.width
  {
    Image(dsize.height, dsize.width, lib.resample(img, dsize, interp))
  }

  /** `cv2.cvtColor(img, code)`: the channels change, the shape does not. */
  function CvtColor(img: Image, code: ColorConversion, lib: Library): (out: Image)
    ensures Shape(out) == Shape(img)
  {
    Image(img.rows, img.cols, lib.recolor(img, code))
  }

  /** The image handed to `process_image`: the frame resized to `downscale`, in RGB. */
  function TransformInput(frame: Image, cfg: Config, lib: Library): (pil: Image)
    ensures Shape(pil).1 == cfg.downscale.width && Shape(pil).0 == cfg.downscale.height
  {
    var small := Resize(frame, cfg.downscale, InterArea, lib);
    CvtColor(small, BgrToRgb, lib)
  }

  /** The `dsize` of the upscale, `(frame.shape[1], frame.shape[0])`: the frame's width and height. */
  function UpscaleTarget(frame: Image): (dsize: Size)
    ensures dsize.width == frame.cols && dsize.height == frame.rows
  {
    Size(Shape(frame).1, Shape(frame).0)
  }

  /**
    The image handed to `cv2.imencode`: the blurred image back in BGR, resized
    to the captured frame's size. Its shape is the frame's, whatever shape the
    blur returned.
   */
  function OutFrame(frame: Image, blurred: Image, lib: Library): (out: Image)
    ensures Shape(out) == Shape(frame)
  {
    Resize(CvtColor(blurred, RgbToBgr, lib), UpscaleTarget(frame), InterLinear, lib)
  }

  /**
    What one successfully read frame contributes: a part to yield, nothing
    (`continue` after a failed encode), or an exception out of `process_image`,
    which nothing in the generator catches.
   */
  datatype FrameResult = Emit(part: seq<byte>) | Skip | Raise

  function ProcessFrame(frame: Image, cfg: Config, lib: Library): (r: FrameResult)
    ensures r.Raise? <==> lib.processImage(TransformInput(frame, cfg, lib), cfg.shots, Backend).None?
    ensures r.Emit? ==> Unframe(r.part).Some?
  {
    match lib.processImage(TransformInput(frame, cfg, lib), cfg.shots, Backend)
    case None => Raise
    case Some(blurred) =>
      match lib.imencode(JpegExtension, OutFrame(frame, blurred, lib), JpegQuality)
      case None => Skip
      case Some(jpg) => UnframeChunk(jpg); Emit(Chunk(jpg))
  }

  /**
    The body of the loop after a successful read (app.py lines 23-51), step by
    step: it computes what `ProcessFrame` specifies.
   */
  method ProcessCapturedFrame(frame: Image, cfg: Config, lib: Library) returns (result: FrameResult)
    ensures result == ProcessFrame(frame, cfg, lib)
    ensures var blur := lib.processImage(TransformInput(frame, cfg, lib), cfg.shots, Backend);
      && (result == Raise <==> blur.None?)
      && (result == Skip <==>
            blur.Some? && lib.imencode(JpegExtension, OutFrame(frame, blur.value, lib), JpegQuality).None?)
      && (result.Emit? ==>
            blur.Some? && Unframe(result.part) == lib.imencode(JpegExtension, OutFrame(frame, blur.value, lib), JpegQuality))
  {
    var small := Resize(frame, cfg.downscale, InterArea, lib);
    var pil := CvtColor(small, BgrToRgb, lib);
    var blurredPil := lib.processImage(pil, cfg.shots, Backend);
    if blurredPil.None? {
      return Raise;
    }
    var blurred := CvtColor(blurredPil.value, RgbToBgr, lib);
    var outFrame := Resize(blurred, Size(Shape(frame).1, Shape(frame).0), InterLinear, lib);
    var buf := lib.imencode(JpegExtension, outFrame, JpegQuality);
    if buf.None? {
      return Skip;
    }
    result := Emit(Chunk(buf.value));
    UnframeChunk(buf.value);
  }

  /**
    A yielded part carries the JPEG encoding, at quality 80, of an image with
    the captured frame's shape, whatever the downscale size and whatever shape
    the blur returned.
   */
  lemma EmittedPartHasCaptureShape(frame: Image, cfg: Config, lib: Library)
    requires ProcessFrame(frame, cfg, lib).Emit?
    ensures lib.processImage(TransformInput(frame, cfg, lib), cfg.shots, Backend).Some?
    ensures var out := OutFrame(frame, lib.processImage(TransformInput(frame, cfg, lib), cfg.shots, Backend).value, lib);
            Shape(out) == Shape(frame) &&
            lib.imencode(JpegExtension, out, JpegQuality) == Unframe(ProcessFrame(frame, cfg, lib).part)
  {
    var blurred := lib.processImage(TransformInput(frame, cfg, lib), cfg.shots, Backend).value;
    UnframeChunk(lib.imencode(JpegExtension, OutFrame(frame, blurred, lib), JpegQuality).value);
  }

  /** A failed encode yields nothing for the frame and does not end the stream. */
  lemma FailedEncodeSkips(frame: Image, cfg: Config, lib: Library)
    requires lib.processImage(TransformInput(frame, cfg, lib), cfg.shots, Backend).Some?
    requires lib.imencode(JpegExtension, OutFrame(frame, lib.processImage(TransformInput(frame, cfg, lib), cfg.shots, Backend).value, lib), JpegQuality).None?
    ensures ProcessFrame(frame, cfg, lib) == Skip
  {
  }

  /** A failed blur is the only way a read frame ends the stream. */
  lemma RaiseOnlyFromBlur(frame: Image, cfg: Config, lib: Library)
    ensures ProcessFrame(frame, cfg, lib) == Raise <==>
            lib.processImage(TransformInput(frame, cfg, lib), cfg.shots, Backend).None?
  {
  }

  /** Every result that is yielded is a well-formed part. */
  lemma EmittedPartIsFramed(frame: Image, cfg: Config, lib: Library)
    requires ProcessFrame(frame, cfg, lib).Emit?
    ensures Unframe(ProcessFrame(frame, cfg, lib).part).Some?
  {
    EmittedPartHasCaptureShape(frame, cfg, lib);
  }
}
