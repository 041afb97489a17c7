/**
  The control of `mjpeg_generator` (app.py lines 18-51). The `while True` loop
  reads the capture device, stops at the first failed read (`break`), skips a
  frame whose JPEG encoding fails (`continue`), is ended by an exception out of
  `process_image`, and otherwise yields one part per frame.

  The device is replaced by a finite sequence of read results, in the order
  `cap.read()` would return them. When that sequence runs out the generator is
  simply not resumed any more: the run is `Suspended`, not finished.

  The control is stated once, over what each read comes to (`Outcome`): a
  failed read, or the pipeline's result for the frame read. `Generate` applies
  it to the reads themselves.
 */
module Generator {
  import opened Wrappers
  import opened Multipart
  import opened FramePipeline

  /**
    Why the run stopped: a read returned `ret == False` (the generator returns),
    `process_image` raised (the exception leaves the generator), or there were
    no more read results to drive it.
   */
  datatype Status = ReadFailed | Raised | Suspended

  /** What a run yields, how many reads it attempted, and why it stopped. */
  datatype Run = Run(parts: seq<seq<byte>>, attempts: nat, status: Status)

  /** `parts` yielded by the first `n` reads, followed by the run `r` of the remaining reads. */
  function Then(parts: seq<seq<byte>>, n: nat, r: Run): Run {
    Run(parts + r.parts, n + r.attempts, r.status)
  }

  /** What one `cap.read()` comes to: None when `ret` is false, else the pipeline's result for the frame. */
  function Outcome(read: Option<Image>, cfg: Config, lib: Library): Option<FrameResult> {
    match read
    case None => None
    case Some(frame) => Some(ProcessFrame(frame, cfg, lib))
  }

  function Outcomes(results: seq<Option<Image>>, cfg: Config, lib: Library): (outcomes: seq<Option<FrameResult>>)
    ensures |outcomes| == |results|
    ensures forall i :: 0 <= i < |results| ==> outcomes[i] == Outcome(results[i], cfg, lib)
  {
    seq(|results|, i requires 0 <= i < |results| => Outcome(results[i], cfg, lib))
  }

  /** The loop's control, one read at a time: break, raise, continue or yield. */
  function Drive(outcomes: seq<Option<FrameResult>>): (r: Run)
    ensures r.attempts <= |outcomes|
    ensures |r.parts| <= r.attempts
    decreases |outcomes|
  {
    if outcomes == [] then Run([], 0, Suspended)
    else
      match outcomes[0]
      case None => Run([], 1, ReadFailed)
      case Some(Raise) => Run([], 1, Raised)
      case Some(Skip) => Then([], 1, Drive(outcomes[1..]))
      case Some(Emit(part)) => Then([part], 1, Drive(outcomes[1..]))
  }

  /** The generator's behaviour on a sequence of read results. */
  function Generate(results: seq<Option<Image>>, cfg: Config, lib: Library): (r: Run)
    ensures r.attempts <= |results| && |r.parts| <= r.attempts
    ensures forall i :: 0 <= i < r.attempts - 1 ==> results[i].Some?
    ensures r.status == Suspended ==> r.attempts == |results|
  {
    var outcomes := Outcomes(results, cfg, lib);
    DriveEndsOnlyAsStated(outcomes);
    Drive(outcomes)
  }

  /** The index of the first failed read, or the number of reads if none failed. */
  function FirstFailedRead<T>(xs: seq<Option<T>>): (k: nat)
    ensures k <= |xs|
    ensures forall i :: 0 <= i < k ==> xs[i].Some?
    ensures k < |xs| ==> xs[k].None?
  {
    if xs == [] || xs[0].None? then 0 else 1 + FirstFailedRead(xs[1..])
  }

  /** The number of reads that returned a frame. */
  function SuccessfulReads<T>(xs: seq<Option<T>>): nat {
    if xs == [] then 0
    else (if xs[0].Some? then 1 else 0) + SuccessfulReads(xs[1..])
  }

  /**
    Reference definition: the parts of the frames whose pipeline yields one,
    in read order, with no stopping rule at all.
   */
  function EmittedParts(outcomes: seq<Option<FrameResult>>): seq<seq<byte>> {
    if outcomes == [] then []
    else
      var here := match outcomes[0] case Some(Emit(part)) => [part] case _ => [];
      here + EmittedParts(outcomes[1..])
  }

  /** At most one part per successful read. */
  lemma {:induction false} EmittedPartsAtMostOnePerRead(outcomes: seq<Option<FrameResult>>)
    ensures |EmittedParts(outcomes)| <= SuccessfulReads(outcomes)
  {
    if outcomes != [] {
      EmittedPartsAtMostOnePerRead(outcomes[1..]);
    }
  }

  /** Every emitted part is the part of some read's frame. */
  lemma {:induction false} EmittedPartsComeFromReads(outcomes: seq<Option<FrameResult>>)
    ensures forall k :: 0 <= k < |EmittedParts(outcomes)| ==>
      exists i :: 0 <= i < |outcomes| && outcomes[i] == Some(Emit(EmittedParts(outcomes)[k]))
  {
    if outcomes != [] {
      var rest := outcomes[1..];
      EmittedPartsComeFromReads(rest);
      var here := match outcomes[0] case Some(Emit(part)) => [part] case _ => [];
      assert EmittedParts(outcomes) == here + EmittedParts(rest);
      forall k | 0 <= k < |EmittedParts(outcomes)|
        ensures exists i :: 0 <= i < |outcomes| && outcomes[i] == Some(Emit(EmittedParts(outcomes)[k]))
      {
        if k < |here| {
          assert outcomes[0] == Some(Emit(EmittedParts(outcomes)[k]));
        } else {
          var part := EmittedParts(outcomes)[k];
          assert part == EmittedParts(rest)[k - |here|];
          var i :| 0 <= i < |rest| && rest[i] == Some(Emit(EmittedParts(rest)[k - |here|]));
          assert outcomes[i + 1] == Some(Emit(part));
        }
      }
    } else {
      assert EmittedParts(outcomes) == [];
    }
  }

  /**
    The run stops at the first failed read and attempts no read after it: it
    ends with `ReadFailed` exactly when it has attempted that read.
   */
  lemma {:induction false} DriveStopsAtFirstFailedRead(outcomes: seq<Option<FrameResult>>)
    ensures var r := Drive(outcomes);
      && r.attempts <= FirstFailedRead(outcomes) + 1
      && (r.status == ReadFailed <==> r.attempts == FirstFailedRead(outcomes) + 1)
      && (r.status == ReadFailed ==> outcomes[r.attempts - 1].None?)
  {
    if outcomes != [] && outcomes[0].Some? && !outcomes[0].value.Raise? {
      DriveStopsAtFirstFailedRead(outcomes[1..]);
    }
  }

  /**
    Every read before the last one attempted returned a frame whose blur
    succeeded; a run that raised did so on the frame of its last read; a run
    that was never stopped used every read.
   */
  lemma {:induction false} DriveEndsOnlyAsStated(outcomes: seq<Option<FrameResult>>)
    ensures var r := Drive(outcomes);
      && (forall i :: 0 <= i < r.attempts - 1 ==> outcomes[i].Some? && !outcomes[i].value.Raise?)
      && (r.status == Raised ==> 0 < r.attempts && outcomes[r.attempts - 1] == Some(Raise))
      && (r.status == Suspended ==>
            r.attempts == |outcomes| && forall i :: 0 <= i < |outcomes| ==> outcomes[i].Some? && !outcomes[i].value.Raise?)
  {
    if outcomes != [] && outcomes[0].Some? && !outcomes[0].value.Raise? {
      var rest := outcomes[1..];
      DriveEndsOnlyAsStated(rest);
      assert forall i :: 1 <= i < |outcomes| ==> outcomes[i] == rest[i - 1];
    }
  }

  /**
    The parts of a run are exactly the parts of the reads it attempted, in read
    order, at most one per successful read.
   */
  lemma {:induction false} DrivePartsInReadOrder(outcomes: seq<Option<FrameResult>>)
    ensures var r := Drive(outcomes);
      && r.parts == EmittedParts(outcomes[..r.attempts])
      && |r.parts| <= SuccessfulReads(outcomes[..r.attempts])
  {
    var r := Drive(outcomes);
    if outcomes != [] && outcomes[0].Some? && !outcomes[0].value.Raise? {
      var rest := outcomes[1..];
      DrivePartsInReadOrder(rest);
      assert outcomes[..r.attempts][1..] == rest[..Drive(rest).attempts];
    }
    EmittedPartsAtMostOnePerRead(outcomes[..r.attempts]);
  }

  /**
    N consecutive reads whose frames all go through the pipeline give N parts,
    the i-th part coming from the i-th frame.
   */
  lemma {:induction false} EveryFrameEmitted(outcomes: seq<Option<FrameResult>>)
    requires forall i :: 0 <= i < |outcomes| ==> outcomes[i].Some? && outcomes[i].value.Emit?
    ensures var r := Drive(outcomes);
      && r.status == Suspended
      && |r.parts| == |outcomes|
      && forall i :: 0 <= i < |outcomes| ==> r.parts[i] == outcomes[i].value.part
  {
    if outcomes != [] {
      var rest := outcomes[1..];
      assert forall i :: 1 <= i < |outcomes| ==> outcomes[i] == rest[i - 1];
      EveryFrameEmitted(rest);
    }
  }

  /** A failed read is seen as a failed outcome, so the first one is at the same index. */
  lemma FirstFailedReadOfOutcomes(results: seq<Option<Image>>, cfg: Config, lib: Library)
    ensures FirstFailedRead(Outcomes(results, cfg, lib)) == FirstFailedRead(results)
  {
  }

  /**
    On the reads themselves: the generator attempts no read after the first
    failed one, and ends with `ReadFailed` exactly when it reached that read.
   */
  lemma GenerateStopsAtFirstFailedRead(results: seq<Option<Image>>, cfg: Config, lib: Library)
    ensures var r := Generate(results, cfg, lib);
      && r.attempts <= FirstFailedRead(results) + 1
      && (r.status == ReadFailed <==> r.attempts == FirstFailedRead(results) + 1)
  {
    DriveStopsAtFirstFailedRead(Outcomes(results, cfg, lib));
    FirstFailedReadOfOutcomes(results, cfg, lib);
  }

  /** Every part the generator yields is a well-formed multipart part. */
  lemma GeneratedPartsAreFramed(results: seq<Option<Image>>, cfg: Config, lib: Library)
    ensures var parts := Generate(results, cfg, lib).parts;
      forall k :: 0 <= k < |parts| ==> Unframe(parts[k]).Some?
  {
    var outcomes := Outcomes(results, cfg, lib);
    var r := Drive(outcomes);
    var attempted := outcomes[..r.attempts];
    DrivePartsInReadOrder(outcomes);
    EmittedPartsComeFromReads(attempted);
    forall k | 0 <= k < |r.parts|
      ensures Unframe(r.parts[k]).Some?
    {
      var i :| 0 <= i < |attempted| && attempted[i] == Some(Emit(r.parts[k]));
      EmittedPartIsFramed(results[i].value, cfg, lib);
    }
  }

  /**
    A frame whose encoding fails yields nothing and the run goes on with the
    next read: the rest of the run is the run of the remaining reads.
   */
  lemma FailedEncodeContinues(frame: Image, rest: seq<Option<Image>>, cfg: Config, lib: Library)
    requires lib.processImage(TransformInput(frame, cfg, lib), cfg.shots, Backend).Some?
    requires lib.imencode(JpegExtension, OutFrame(frame, lib.processImage(TransformInput(frame, cfg, lib), cfg.shots, Backend).value, lib), JpegQuality).None?
    ensures Generate([Some(frame)] + rest, cfg, lib) == Then([], 1, Generate(rest, cfg, lib))
  {
    FailedEncodeSkips(frame, cfg, lib);
    var outcomes := Outcomes([Some(frame)] + rest, cfg, lib);
    assert outcomes[0] == Some(Skip);
    assert outcomes[1..] == Outcomes(rest, cfg, lib);
  }

  /** The turn of the loop whose read fails is the last one. */
  lemma FailedReadStep(parts: seq<seq<byte>>, n: nat, here: seq<Option<FrameResult>>)
    requires here != [] && here[0].None?
    ensures Then(parts, n, Drive(here)) == Run(parts, n + 1, ReadFailed)
  {
    assert parts + [] == parts;
  }

  /** The turn of the loop whose frame's blur raises is the last one. */
  lemma RaisedStep(parts: seq<seq<byte>>, n: nat, here: seq<Option<FrameResult>>)
    requires here != [] && here[0] == Some(Raise)
    ensures Then(parts, n, Drive(here)) == Run(parts, n + 1, Raised)
  {
    assert parts + [] == parts;
  }

  /** A turn of the loop whose frame is skipped adds a read and no part. */
  lemma SkippedStep(parts: seq<seq<byte>>, n: nat, here: seq<Option<FrameResult>>)
    requires here != [] && here[0] == Some(Skip)
    ensures Then(parts, n, Drive(here)) == Then(parts, n + 1, Drive(here[1..]))
  {
    var g := Drive(here[1..]);
    assert parts + ([] + g.parts) == parts + g.parts;
  }

  /** A turn of the loop whose frame is yielded adds a read and that part. */
  lemma EmittedStep(parts: seq<seq<byte>>, n: nat, here: seq<Option<FrameResult>>, part: seq<byte>)
    requires here != [] && here[0] == Some(Emit(part))
    ensures Then(parts, n, Drive(here)) == Then(parts + [part], n + 1, Drive(here[1..]))
  {
    var g := Drive(here[1..]);
    assert parts + ([part] + g.parts) == (parts + [part]) + g.parts;
  }

  /**
    `mjpeg_generator` as a loop over the read results: `ret, frame = cap.read()`
    is `results[attempted]`. Returns what it yielded, how many reads it made, and
    why it stopped.
   */
  method MjpegGenerator(results: array<Option<Image>>, cfg: Config, lib: Library)
    returns (parts: seq<seq<byte>>, attempted: nat, status: Status)
    ensures Run(parts, attempted, status) == Generate(results[..], cfg, lib)
    ensures attempted <= FirstFailedRead(results[..]) + 1
    ensures forall k :: 0 <= k < |parts| ==> Unframe(parts[k]).Some?
  {
    ghost var outcomes := Outcomes(results[..], cfg, lib);
    parts, attempted, status := [], 0, Suspended;
    while attempted < results.Length
      invariant attempted <= results.Length
      invariant Drive(outcomes) == Then(parts, attempted, Drive(outcomes[attempted..]))
    {
      ghost var here := outcomes[attempted..];
      assert here[1..] == outcomes[attempted + 1..];
      var read := results[attempted];
      attempted := attempted + 1;
      if read.None? {
        FailedReadStep(parts, attempted - 1, here);
        status := ReadFailed;
        break;
      }
      var result := ProcessCapturedFrame(read.value, cfg, lib);
      assert here[0] == Some(result);
      if result.Raise? {
        RaisedStep(parts, attempted - 1, here);
        status := Raised;
        break;
      }
      if result.Skip? {
        SkippedStep(parts, attempted - 1, here);
        continue;
      }
      EmittedStep(parts, attempted - 1, here, result.part);
      parts := parts + [result.part];
    }
    GenerateStopsAtFirstFailedRead(results[..], cfg, lib);
    GeneratedPartsAreFramed(results[..], cfg, lib);
  }
}
