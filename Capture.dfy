/** The result shape of `capture_image_with_face`. The camera process, the image
    read and the face classifier are not modelled: what they did is an input. */
module Capture {

  /** The directory the captures are written to. */
  const CaptureDir: string := "captures"

  /** What the outside world did during one capture: whether the camera command
      exited successfully, whether the saved image could be read back, and how
      many faces the classifier found in it. */
  datatype Camera = Camera(captured: bool, readable: bool, faces: nat)

  /** The pair `(filename, has_face)` the capture returns. */
  datatype CaptureResult = CaptureResult(photo: string, hasFace: bool)

  /** The file a capture tagged `tag` at time `ts` is written to. */
  function CaptureFilename(tag: string, ts: string): (f: string)
    ensures |f| == |CaptureDir| + |tag| + |ts| + 6
  {
    CaptureDir + "/" + tag + "_" + ts + ".jpg"
  }

  /** The tag part of a capture filename whose timestamp has `tsLength` characters. */
  function TagOf(f: string, tsLength: nat): string
    requires |f| >= |CaptureDir| + tsLength + 6
  {
    f[|CaptureDir| + 1 .. |f| - tsLength - 5]
  }

  /** The timestamp part of a capture filename whose timestamp has `tsLength` characters. */
  function TimestampOf(f: string, tsLength: nat): string
    requires |f| >= |CaptureDir| + tsLength + 6
  {
    f[|f| - tsLength - 4 .. |f| - 4]
  }

  /** One capture: the filename is the same whatever happens, and a face is
      reported only when the camera ran, the image was read back, and the
      classifier found at least one face. */
  function CaptureImageWithFace(tag: string, ts: string, camera: Camera): (r: CaptureResult)
    ensures r.photo == CaptureFilename(tag, ts)
    ensures r.hasFace <==> camera.captured && camera.readable && camera.faces > 0
  {
    var filename := CaptureFilename(tag, ts);
    if !camera.captured then CaptureResult(filename, false)
    else if !camera.readable then CaptureResult(filename, false)
    else CaptureResult(filename, camera.faces > 0)
  }

  /** The filename keeps the directory, tag, timestamp and extension apart: both
      the tag and the timestamp can be read back from it. */
  lemma {:induction false} FilenameRoundTrip(tag: string, ts: string)
    ensures CaptureFilename(tag, ts)[..|CaptureDir| + 1] == CaptureDir + "/"
    ensures CaptureFilename(tag, ts)[|CaptureDir| + 1 + |tag|] == '_'
    ensures CaptureFilename(tag, ts)[|CaptureDir| + |tag| + |ts| + 2 ..] == ".jpg"
    ensures TagOf(CaptureFilename(tag, ts), |ts|) == tag
    ensures TimestampOf(CaptureFilename(tag, ts), |ts|) == ts
  {
    var f := CaptureFilename(tag, ts);
    var n := |CaptureDir|;
    assert f == (CaptureDir + "/") + tag + ("_" + ts + ".jpg");
    assert f[n + 1 .. n + 1 + |tag|] == tag;
    assert f[n + 2 + |tag| .. n + 2 + |tag| + |ts|] == ts;
  }

  /** Two captures with timestamps of the same width (as the fixed timestamp
      format gives) share a filename only if they share the tag and the time. */
  lemma {:induction false} FilenameDeterminesTagAndTime(tag1: string, ts1: string, tag2: string, ts2: string)
    requires |ts1| == |ts2|
    requires CaptureFilename(tag1, ts1) == CaptureFilename(tag2, ts2)
    ensures tag1 == tag2 && ts1 == ts2
  {
    FilenameRoundTrip(tag1, ts1);
    FilenameRoundTrip(tag2, ts2);
  }
}
