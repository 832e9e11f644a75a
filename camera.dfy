/**
 * The camera screen: the permission check, the stream start that falls back
 * through three constraint sets, the shutter decision, the downscale of a
 * captured frame and the hand-off to recognition.
 */
module Camera {
  import opened Wrappers
  import opened Types
  import opened Nutrition

  // ---- Frame size ----

  const MaxDimension: int := 1024

  /** The longer side scaled to 1024 when it exceeds 1024, the other side in proportion, rounded. */
  function ResizeDims(width: int, height: int): (dims: (int, int))
    ensures dims.0 <= MaxDimension && dims.1 <= MaxDimension
    ensures (dims == (width, height)) <==> width <= MaxDimension && height <= MaxDimension
    ensures width > height && width > MaxDimension ==>
      dims.0 == MaxDimension
      && dims.1 as real - 0.5 <= height as real * MaxDimension as real / width as real < dims.1 as real + 0.5
    ensures height >= width && height > MaxDimension ==>
      dims.1 == MaxDimension
      && dims.0 as real - 0.5 <= width as real * MaxDimension as real / height as real < dims.0 as real + 0.5
  {
    if width > height then
      if width > MaxDimension then
        ScaledBelowMax(height, width);
        (MaxDimension, RoundHalfUp(height as real * (MaxDimension as real / width as real)))
      else (width, height)
    else
      if height > MaxDimension then
        ScaledBelowMax(width, height);
        (RoundHalfUp(width as real * (MaxDimension as real / height as real)), MaxDimension)
      else (width, height)
  }

  /** The shorter side, scaled, rounds to at most 1024. */
  lemma ScaledBelowMax(short: int, long: int)
    requires short <= long && long > MaxDimension
    ensures RoundHalfUp(short as real * (MaxDimension as real / long as real)) <= MaxDimension
    ensures short as real * (MaxDimension as real / long as real) == short as real * MaxDimension as real / long as real
  {
    var f := MaxDimension as real / long as real;
    assert 0.0 < f < 1.0;
    if short >= 0 {
      assert short as real * f <= long as real * f;
      assert long as real * f == MaxDimension as real;
    }
    RoundMonotone(short as real * f, MaxDimension as real);
    RoundOfInteger(MaxDimension);
  }

  /** Resizing keeps positive sides positive. */
  lemma ResizeKeepsPositive(width: int, height: int)
    requires width > 0 && height > 0
    ensures ResizeDims(width, height).0 >= 0 && ResizeDims(width, height).1 >= 0
  {
    var dims := ResizeDims(width, height);
    if width > height && width > MaxDimension {
      assert height as real * MaxDimension as real / width as real > 0.0;
    } else if height >= width && height > MaxDimension {
      assert width as real * MaxDimension as real / height as real > 0.0;
    }
  }

  // ---- Permission ----

  datatype PermissionState = Loading | Granted | Denied | Prompt

  /** An asynchronous platform call: it throws, or answers whether the camera is allowed. */
  datatype Probe = Threw | Answered(granted: bool)

  /**
   * `checkAndRequestPermission`: off the native platform the browser asks later,
   * so the state is granted; natively a granted check grants, otherwise the
   * request's answer decides; any exception denies.
   */
  function PermissionAfterCheck(native: bool, check: Probe, request: Probe): (p: PermissionState)
    ensures p == Granted || p == Denied
    ensures !native ==> p == Granted
    ensures native && check == Answered(true) ==> p == Granted
    ensures native && check == Answered(false) ==> (p == Granted <==> request == Answered(true))
    ensures native && check == Threw ==> p == Denied
  {
    if !native then Granted
    else match check
      case Threw => Denied
      case Answered(true) => Granted
      case Answered(false) =>
        match request
        case Answered(g) => if g then Granted else Denied
        case Threw => Denied
  }

  // ---- Stream ----

  datatype Constraints = HdEnvironment | Environment | AnyVideo

  /** The order in which the constraint sets are tried. */
  const ConstraintOrder: seq<Constraints> := [HdEnvironment, Environment, AnyVideo]

  // ---- Capture ----

  /** Where recognition leads: the result screen, or an alert with a message. */
  datatype Next = ToResult(food: ScannedFood) | Alert(message: string)

  const AnalysisFailedPrefix: string := "分析失败: "

  /** `processImage`'s outcome for what `identifyFood` produced. */
  function NextAfter(identified: Result<ScannedFood>): (n: Next)
    ensures n.ToResult? <==> identified.Ok?
    ensures identified.Ok? ==> n.food == identified.value
    ensures identified.Err? ==> n.message == AnalysisFailedPrefix + identified.message
  {
    match identified
    case Ok(food) => ToResult(food)
    case Err(message) => Alert(AnalysisFailedPrefix + message)
  }

  /** What the shutter does: nothing, open the file picker, or submit a frame of the given size. */
  datatype CaptureAction = Ignored | OpenFilePicker | Submitted(width: int, height: int, next: Next)

  class CameraScreen {
    var permission: PermissionState
    var isStreaming: bool
    var isProcessing: bool
    /** Whether a media stream is held (the source's `streamRef`). */
    var hasStream: bool

    constructor()
      ensures permission == Loading && !isStreaming && !isProcessing && !hasStream
    {
      permission := Loading;
      isStreaming := false;
      isProcessing := false;
      hasStream := false;
    }

    method CheckAndRequestPermission(native: bool, check: Probe, request: Probe)
      modifies this
      ensures permission == PermissionAfterCheck(native, check, request)
      ensures isStreaming == old(isStreaming) && isProcessing == old(isProcessing) && hasStream == old(hasStream)
    {
      permission := PermissionAfterCheck(native, check, request);
    }

    /** `manualRequestPermission`: the answer decides; an exception leaves the state as it was. */
    method ManualRequestPermission(request: Probe)
      modifies this
      ensures request == Threw ==> permission == old(permission)
      ensures request.Answered? ==> (permission == if request.granted then Granted else Denied)
      ensures isStreaming == old(isStreaming) && isProcessing == old(isProcessing) && hasStream == old(hasStream)
    {
      match request {
        case Answered(g) =>
          permission := if g then Granted else Denied;
        case Threw =>
      }
    }

    /** `stopCameraStream`: release the stream. */
    method StopStream()
      modifies this
      ensures !hasStream && !isStreaming
      ensures permission == old(permission) && isProcessing == old(isProcessing)
    {
      hasStream := false;
      isStreaming := false;
    }

    /**
     * `startCameraStream`: after a clean stop, try the constraint sets in order
     * and keep the first stream obtained while the video element exists;
     * streaming begins once the video plays. `getUserMedia` says which sets
     * the device accepts.
     */
    method StartStream(getUserMedia: Constraints -> bool, videoPresent: bool, playOk: bool)
      returns (chosen: Option<nat>)
      modifies this
      ensures chosen.Some? ==> (chosen.value < |ConstraintOrder| && videoPresent
        && getUserMedia(ConstraintOrder[chosen.value])
        && forall j :: 0 <= j < chosen.value ==> !getUserMedia(ConstraintOrder[j]))
      ensures chosen.None? <==> !videoPresent || forall j :: 0 <= j < |ConstraintOrder| ==> !getUserMedia(ConstraintOrder[j])
      ensures hasStream == chosen.Some? && isStreaming == (chosen.Some? && playOk)
      ensures permission == old(permission) && isProcessing == old(isProcessing)
    {
      StopStream();
      chosen := None;
      var i := 0;
      while i < |ConstraintOrder|
        invariant 0 <= i <= |ConstraintOrder|
        invariant !hasStream && !isStreaming
        invariant permission == old(permission) && isProcessing == old(isProcessing)
        invariant videoPresent ==> forall j :: 0 <= j < i ==> !getUserMedia(ConstraintOrder[j])
      {
        if getUserMedia(ConstraintOrder[i]) && videoPresent {
          hasStream := true;
          isStreaming := playOk;
          chosen := Some(i);
          return;
        }
        i := i + 1;
      }
    }

    /**
     * `processImage`: processing while recognition runs, and reset afterwards
     * whatever the outcome.
     */
    method ProcessImage(identified: Result<ScannedFood>) returns (next: Next)
      requires !isProcessing
      modifies this
      ensures next == NextAfter(identified)
      ensures !isProcessing
      ensures permission == old(permission) && isStreaming == old(isStreaming) && hasStream == old(hasStream)
    {
      isProcessing := true;
      next := NextAfter(identified);
      isProcessing := false;
    }

    /**
     * `handleCapture`: ignored while processing; without a live stream or
     * with an empty frame it opens the file picker; otherwise the frame is
     * downscaled and submitted for recognition.
     */
    method HandleCapture(videoWidth: int, videoHeight: int, identified: Result<ScannedFood>)
      returns (action: CaptureAction)
      modifies this
      ensures old(isProcessing) ==> action == Ignored && isProcessing
      ensures !old(isProcessing) && (!isStreaming || videoWidth == 0 || videoHeight == 0) ==> action == OpenFilePicker
      ensures !old(isProcessing) && isStreaming && videoWidth != 0 && videoHeight != 0 ==>
        action == Submitted(ResizeDims(videoWidth, videoHeight).0, ResizeDims(videoWidth, videoHeight).1,
                            NextAfter(identified))
      ensures !old(isProcessing) ==> !isProcessing
      ensures permission == old(permission) && isStreaming == old(isStreaming) && hasStream == old(hasStream)
    {
      if isProcessing {
        return Ignored;
      }
      if isStreaming {
        if videoWidth == 0 || videoHeight == 0 {
          return OpenFilePicker;
        }
        var dims := ResizeDims(videoWidth, videoHeight);
        var next := ProcessImage(identified);
        action := Submitted(dims.0, dims.1, next);
      } else {
        action := OpenFilePicker;
      }
    }
  }
}
