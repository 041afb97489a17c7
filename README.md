# quantumblur-streamer: the MJPEG generator, modelled in Dafny

The streamer captures webcam frames, blurs each one with a quantum-circuit
image filter, and serves the result as a `multipart/x-mixed-replace` HTTP
stream. All of its own logic is the generator `mjpeg_generator` in `app.py`
and the `/stream` route that starts it. This project models that logic:

- `multipart.dfy` (module `Multipart`): the bytes of one yielded part,
  `--frame CRLF Content-Type: image/jpeg CRLF CRLF <jpeg> CRLF`. It also has a
  reader that strips the header and trailer, the body-part layout of section
  5.1.1 of RFC 2046, and the structured media type of the route.
- `pipeline.dfy` (module `FramePipeline`): one iteration after a successful
  read. The frame is downscaled with `INTER_AREA`, converted to RGB, blurred by
  `process_image`, converted back to BGR, upscaled with `INTER_LINEAR` to
  `(frame.shape[1], frame.shape[0])`, encoded as JPEG at quality 80 and framed.
  The libraries are the opaque functions of a `Library` value. `cv2.resize` and
  `cv2.cvtColor` fix the output shape; only their samples are opaque.
  `process_image` and `cv2.imencode` return a result or fail.
- `generator.dfy` (module `Generator`): the `while True` loop, driven by a
  finite sequence of `cap.read()` results. `Drive` gives the loop's control
  over what each read comes to. `Generate` applies it to the reads.
  `MjpegGenerator` is the loop itself, over an array of read results, with
  `break` and `continue` where the source has them. It is proved equal to
  `Generate`.
- `stream_route.dfy` (module `StreamRoute`): the route's arguments (`shots=32`,
  `downscale=(128,128)`) and its media type
  `multipart/x-mixed-replace; boundary=frame`.
- `wrappers.dfy` (module `Wrappers`): the `Option` type.

A run ends in one of three ways. `ReadFailed` means `ret` was false and the
generator returned. `Raised` means `process_image` raised; nothing in the
generator catches that exception. `Suspended` means the read results ran out,
so the generator was not resumed again. A frame whose `cv2.imencode` fails is
skipped (`continue`).

`app.py` has no exception handler around `process_image` (lines 28-32), so a
failed blur ends the stream with `Raised`. Only a failed encode (lines 42-44)
skips the frame.

## Model

| member | source | states |
|---|---|---|
| `Multipart.Chunk` | app.py:48-51 | a yielded part is exactly 39 bytes longer than its JPEG payload |
| `Multipart.Unframe` | app.py:48-51 | the reader of a part accepts only byte strings 39 bytes longer than the payload it returns |
| `Multipart.UnframeChunk` | app.py:48-51 | stripping the 37-byte header and the 2-byte CRLF from a yielded part returns the JPEG bytes unchanged |
| `Multipart.ChunkUnframe` | app.py:48-51 | any byte string the reader accepts is the part of the payload it returns (the converse round trip) |
| `Multipart.ChunkInjective` | app.py:48-51 | different JPEG payloads give different parts |
| `Multipart.FramedPartStartsWithDelimiter` | app.py:49 | every well-formed part opens with the 9-byte dash-boundary line `--frame CRLF` |
| `Multipart.ChunkIsBodyPart` | app.py:48-51 | the literal bytes of a part are an RFC 2046 body part (dash-boundary line, the one header field `Content-Type: image/jpeg`, blank line, body) followed by the CRLF that opens the next delimiter |
| `Multipart.BoundaryIsValid` | app.py:57 | `frame` is a valid RFC 2046 boundary: 1 to 70 bchars, not ending in a space |
| `Multipart.Param` | app.py:57 | a media-type parameter lookup returns a value exactly when a parameter of that name exists, and the value is that of the first parameter of that name |
| `FramePipeline.Resize` | app.py:24 | `cv2.resize` returns an image of exactly the requested `dsize`, ordered (width, height); this is the library contract the model assumes |
| `FramePipeline.CvtColor` | app.py:26 | colour conversion keeps the image's shape |
| `FramePipeline.TransformInput` | app.py:24-32 | the image handed to `process_image` has the `downscale` width and height |
| `FramePipeline.UpscaleTarget` | app.py:38 | the upscale `dsize` `(frame.shape[1], frame.shape[0])` is the frame's (width, height) |
| `FramePipeline.OutFrame` | app.py:34-40 | the image handed to `cv2.imencode` has the captured frame's shape, whatever shape the blur returned |
| `FramePipeline.ProcessFrame` | app.py:23-51 | one iteration after a successful read raises exactly when `process_image` fails, and whatever it yields is a well-formed part; `RaiseOnlyFromBlur`, `FailedEncodeSkips` and `EmittedPartHasCaptureShape` state the rest of its behaviour |
| `FramePipeline.ProcessCapturedFrame` | app.py:23-51 | the step-by-step body of one iteration raises exactly when the blur fails, skips exactly when the blur succeeds and the quality-80 encode of the frame-sized image fails, and otherwise yields a part whose payload is that encoding |
| `FramePipeline.EmittedPartHasCaptureShape` | app.py:36-51 | a yielded part's payload is the quality-80 JPEG encoding of an image with the captured frame's shape, whatever the downscale size and whatever shape the blur returned |
| `FramePipeline.FailedEncodeSkips` | app.py:42-44 | when the blur succeeds and the encode fails, the frame is skipped |
| `FramePipeline.RaiseOnlyFromBlur` | app.py:28-32 | a read frame ends the stream if and only if `process_image` fails |
| `FramePipeline.EmittedPartIsFramed` | app.py:48-51 | whatever one frame yields is a well-formed part |
| `Generator.Drive` | app.py:18-51 | a run attempts at most as many reads as there are and yields at most one part per attempted read |
| `Generator.Generate` | app.py:18-51 | the generator on the reads attempts at most as many reads as there are, yields at most one part per attempted read, every read before the last attempted one returned a frame, and a run that is never stopped used every read; `GenerateStopsAtFirstFailedRead` and `GeneratedPartsAreFramed` state its stop law and its parts |
| `Generator.FirstFailedRead` | app.py:19-21 | the index it returns is the first failed read: every earlier read succeeded |
| `Generator.EmittedPartsAtMostOnePerRead` | app.py:18-51 | the reference list of yielded parts has at most one part per successful read |
| `Generator.EmittedPartsComeFromReads` | app.py:48-51 | every part in the reference list is the part of some read's frame |
| `Generator.DriveStopsAtFirstFailedRead` | app.py:18-21 | no read is attempted after the first failed one; the run ends `ReadFailed` exactly when it has attempted that read, and that read failed |
| `Generator.DriveEndsOnlyAsStated` | app.py:18-51 | every read before the last attempted one returned a frame whose blur succeeded; `Raised` means the last frame's blur failed; `Suspended` means every read was used without a stop |
| `Generator.DrivePartsInReadOrder` | app.py:18-51 | the yielded parts are exactly the parts of the attempted reads' frames, in read order, at most one per successful read |
| `Generator.EveryFrameEmitted` | app.py:18-51 | N reads whose frames all go through the pipeline give N parts, the i-th from the i-th frame |
| `Generator.FirstFailedReadOfOutcomes` | app.py:19-21 | the first failed outcome is at the index of the first failed read |
| `Generator.GenerateStopsAtFirstFailedRead` | app.py:18-21 | on the reads themselves: no read after the first failed one, and `ReadFailed` exactly when that read was reached |
| `Generator.GeneratedPartsAreFramed` | app.py:48-51 | every part the generator yields is a well-formed part |
| `Generator.FailedEncodeContinues` | app.py:42-44 | a frame whose encoding fails yields nothing, and the run goes on with the next read |
| `Generator.MjpegGenerator` | app.py:12-51 | the loop yields, reads and stops exactly as `Generate` says; it attempts no read after the first failed one; every part it yields is well-formed |
| `StreamRoute.StreamMediaTypeText` | app.py:57 | the structured media type renders as `multipart/x-mixed-replace; boundary=frame` |
| `StreamRoute.Stream` | app.py:53-58 | the route runs the generator with 32 shots at 128 by 128, and declares a `boundary` parameter equal to the token the parts use, a valid RFC 2046 boundary |
| `StreamRoute.StreamBlursAt128` | app.py:56 | through the route, every image handed to the blur is 128 by 128, whatever the camera's size |
| `StreamRoute.StreamPartsUseDeclaredBoundary` | app.py:49-57 | every part the route streams opens with `--`, the declared boundary, and CRLF |

## Left out

- Webcam capture: `cv2.VideoCapture(0)` and the global `cap` handle (app.py:10, 19). Only each read's frame-or-failure is modelled, as a sequence of results. The handle's mutation is the count of attempted reads.
- Pixel values of `cv2.resize` (`INTER_AREA`, `INTER_LINEAR`) and of the BGR/RGB conversions (app.py:24-26, 34-40). They are floating-point interpolation inside OpenCV. The model keeps only their shape contract and takes the samples from opaque functions.
- The numpy and PIL conversions `Image.fromarray` and `np.array` (app.py:26, 34). They are treated as the identity on the image.
- What `process_image` computes with the `qasm_simulator` backend (app.py:28-32). It is a stochastic external simulation, modelled as an opaque function that returns an image or fails. Because one `Library` is fixed for a run, the model's `process_image` is deterministic: two identical frames always get the same outcome, which the simulator does not promise. The control lemmas hold for any sequence of per-frame outcomes, so they do not rely on this.
- JPEG compression by `cv2.imencode` at quality 80 (app.py:42). It is a lossy library codec, modelled as opaque bytes or failure.
- Exceptions from `cv2.resize`, `cv2.cvtColor` or the conversions, for example on an empty frame. Only `process_image` may raise in the model.
- The generator's own default arguments (`shots=64`, app.py:12) are recorded as `GeneratorDefaults`. No caller in the repository uses them.
- HTTP serving by `StreamingResponse` (app.py:53-58) is network plumbing. Only the route's arguments and media type are modelled.
- The HTML page of the `/` route (app.py:60-83) is static UI.
- Splitting the whole response back into payloads. The source sends raw JPEG bytes without checking that they do not contain `CRLF--frame`. Section 5.1.1 of RFC 2046 forbids that inside a body, so only single-part round trips are proved.
- Fan-out to several consumers, per-consumer bounded queues with drop-oldest, a session state machine, and release of the device. These are not in `app.py`.
- The loop's `while True` never ends by itself. In the model the finite sequence of read results bounds it, and a run that uses every result is `Suspended`.
