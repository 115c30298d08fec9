/** The camera monitor (components/CameraView.tsx): frame-difference motion
    detection over RGBA bytes, and the stream, interval and stored-frame state.
    Camera access and canvas drawing are not modelled: a sampled frame is given
    as its byte array, and whether the camera could be acquired is a parameter. */
module Camera {
  import opened Common

  newtype byte = x: int | 0 <= x < 256

  /** The motion canvas is 80 by 45 pixels, four bytes (R, G, B, A) each. */
  const CanvasWidth: nat := 80
  const CanvasHeight: nat := 45
  const FrameBytes: nat := CanvasWidth * CanvasHeight * 4
  const PixelCount: nat := FrameBytes / 4

  /** The mean per-channel difference above which motion is reported. */
  const MotionThreshold: nat := 5
  /** `HTMLMediaElement.HAVE_METADATA` */
  const HaveMetadata: int := 1

  function Abs(x: int): nat
  {
    if x < 0 then -x else x
  }

  /** The R, G and B differences of the pixel that starts at byte i; alpha is ignored. */
  function PixelDiff(cur: seq<byte>, prev: seq<byte>, i: nat): (r: nat)
    requires i + 2 < |cur| && i + 2 < |prev|
    ensures r <= 3 * 255
  {
    Abs(cur[i] as int - prev[i] as int) + Abs(cur[i + 1] as int - prev[i + 1] as int) + Abs(cur[i + 2] as int - prev[i + 2] as int)
  }

  /** The summed difference of the first `pixels` pixels. */
  function Diff(cur: seq<byte>, prev: seq<byte>, pixels: nat): (r: nat)
    requires 4 * pixels <= |cur| && |cur| == |prev|
    // each of the three channels of a pixel differs by at most 255
    ensures r <= 3 * 255 * pixels
  {
    if pixels == 0 then 0
    else
      var rest, last := Diff(cur, prev, pixels - 1), PixelDiff(cur, prev, 4 * (pixels - 1));
      assert rest + last <= 3 * 255 * (pixels - 1) + 3 * 255;
      rest + last
  }

  /** The integer form of `diff / (pixels * 3) > 5`: for a positive number of
      pixels it is the source's comparison of the mean channel difference
      with the threshold. */
  function MotionDetected(diff: int, pixels: nat): (motion: bool)
    ensures pixels > 0 ==> (motion <==> (diff as real) / ((pixels * 3) as real) > MotionThreshold as real)
  {
    if pixels > 0 then
      var d, n := diff as real, (pixels * 3) as real;
      DivAbove(d, n, 5.0);
      assert 5.0 * n == (15 * pixels) as real;
      assert MotionThreshold as real == 5.0 && 3 * MotionThreshold * pixels == 15 * pixels;
      diff > 3 * MotionThreshold * pixels
    else
      diff > 3 * MotionThreshold * pixels
  }

  /** The integer test agrees with the mean-difference test of the source
      for every pair of frames; an empty frame has a NaN mean there, which no
      comparison passes, and reports nothing here either. */
  lemma MotionTestIsMeanTest(cur: seq<byte>, prev: seq<byte>)
    requires |cur| % 4 == 0 && |prev| == |cur|
    ensures var pixels := |cur| / 4;
      var diff := Diff(cur, prev, pixels);
      MotionDetected(diff, pixels) <==> pixels > 0 && (diff as real) / ((pixels * 3) as real) > MotionThreshold as real
  {
    var pixels := |cur| / 4;
    if pixels == 0 {
      assert Diff(cur, prev, pixels) == 0;
    }
  }

  /** A frame compared with itself differs nowhere. */
  lemma {:induction false} IdenticalFramesDiffZero(frame: seq<byte>, pixels: nat)
    requires 4 * pixels <= |frame|
    ensures Diff(frame, frame, pixels) == 0
    decreases pixels
  {
    if pixels > 0 {
      IdenticalFramesDiffZero(frame, pixels - 1);
    }
  }

  /** Two identical frames never report motion. */
  lemma IdenticalFramesNoMotion(frame: seq<byte>)
    requires |frame| == FrameBytes
    ensures !MotionDetected(Diff(frame, frame, PixelCount), PixelCount)
  {
    IdenticalFramesDiffZero(frame, PixelCount);
  }

  /** The difference loop: every fourth byte starts a pixel. */
  method FrameDiff(cur: array<byte>, prev: array<byte>) returns (diff: nat)
    requires cur.Length % 4 == 0 && prev.Length == cur.Length
    ensures diff == Diff(cur[..], prev[..], cur.Length / 4)
  {
    diff := 0;
    var i := 0;
    while i < cur.Length
      invariant 0 <= i <= cur.Length && i % 4 == 0
      invariant diff == Diff(cur[..], prev[..], i / 4)
    {
      diff := diff + Abs(cur[i] as int - prev[i] as int)
                   + Abs(cur[i + 1] as int - prev[i + 1] as int)
                   + Abs(cur[i + 2] as int - prev[i + 2] as int);
      i := i + 4;
    }
  }

  /** Whether a sample may be taken: the video is mounted, has metadata and a width. */
  function VideoReady(videoPresent: bool, readyState: int, videoWidth: int): (ready: bool)
    ensures ready <==> !(!videoPresent || readyState < HaveMetadata || videoWidth == 0)
  {
    videoPresent && readyState >= HaveMetadata && videoWidth != 0
  }

  class CameraView {
    /** the parent's camera flag, which the component may switch off */
    var isCameraOn: bool
    var streamActive: bool
    var intervalActive: bool
    var lastFrameData: array?<byte>

    ghost predicate Valid()
      reads this
    {
      lastFrameData != null ==> lastFrameData.Length == FrameBytes
    }

    constructor (isCameraOn: bool)
      ensures Valid() && this.isCameraOn == isCameraOn
      ensures !streamActive && !intervalActive && lastFrameData == null
    {
      this.isCameraOn := isCameraOn;
      streamActive := false;
      intervalActive := false;
      lastFrameData := null;
    }

    /** One run of the sampling interval; `motion` tells whether the activity
        callback was invoked. */
    method Sample(videoPresent: bool, readyState: int, videoWidth: int, frame: array<byte>) returns (motion: bool)
      requires Valid() && frame.Length == FrameBytes
      modifies this
      ensures Valid()
      // a video that is not ready is skipped
      ensures !VideoReady(videoPresent, readyState, videoWidth) ==> !motion && lastFrameData == old(lastFrameData)
      // a ready sample becomes the stored frame
      ensures VideoReady(videoPresent, readyState, videoWidth) ==> lastFrameData == frame
      // motion needs a stored frame and a large enough difference
      ensures motion <==> VideoReady(videoPresent, readyState, videoWidth) && old(lastFrameData) != null &&
                          MotionDetected(Diff(frame[..], old(lastFrameData)[..], PixelCount), PixelCount)
      ensures isCameraOn == old(isCameraOn) && streamActive == old(streamActive) && intervalActive == old(intervalActive)
    {
      motion := false;
      if !VideoReady(videoPresent, readyState, videoWidth) {
        return;
      }
      if lastFrameData != null {
        var diff := FrameDiff(frame, lastFrameData);
        if MotionDetected(diff, frame.Length / 4) {
          motion := true;
        }
      }
      lastFrameData := frame;
    }

    /** startCamera once the permission request has settled: a granted
        stream is attached when the video element exists; a refusal switches
        the camera flag off. */
    method StartCamera(acquired: bool, videoPresent: bool)
      requires Valid()
      modifies this
      ensures Valid()
      ensures !acquired ==> !isCameraOn && streamActive == old(streamActive)
      ensures acquired ==> isCameraOn == old(isCameraOn) && streamActive == (old(streamActive) || videoPresent)
      ensures intervalActive == old(intervalActive) && lastFrameData == old(lastFrameData)
    {
      if acquired {
        if videoPresent {
          streamActive := true;
        }
      } else {
        isCameraOn := false;
      }
    }

    /** stopCamera: the interval, the stored frame and the stream are released. */
    method StopCamera()
      requires Valid()
      modifies this
      ensures Valid()
      ensures !intervalActive && lastFrameData == null && !streamActive
      ensures isCameraOn == old(isCameraOn)
    {
      intervalActive := false;
      lastFrameData := null;
      streamActive := false;
    }

    /** The effect that (re)starts the sampling interval: with the camera on
        and both elements mounted it runs, unless no drawing context is
        available (then nothing changes); otherwise it is cleared. */
    method UpdateDetection(elementsPresent: bool, hasContext: bool)
      requires Valid()
      modifies this
      ensures Valid()
      ensures isCameraOn && elementsPresent && hasContext ==> intervalActive
      ensures isCameraOn && elementsPresent && !hasContext ==> intervalActive == old(intervalActive)
      ensures !(isCameraOn && elementsPresent) ==> !intervalActive
      ensures isCameraOn == old(isCameraOn) && streamActive == old(streamActive) && lastFrameData == old(lastFrameData)
    {
      if isCameraOn && elementsPresent {
        if !hasContext {
          return;
        }
        intervalActive := true;
      } else {
        intervalActive := false;
      }
    }
  }
}
