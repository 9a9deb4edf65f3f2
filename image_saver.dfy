/**
 The image saver: a cancellable loop that copies the screen capture frame into
 a private buffer, flips it vertically, saves it as a timestamped JPG and counts
 it, optionally saves a mirrored copy as well, and stops once the count
 reaches the image limit.

 The loop runs as a cooperatively suspended task. The model keeps the task's
 position in `savingTask` and has one method per stretch of code the task runs
 between two suspensions: `StartSavingTexture` (the start guard and the first
 loop-top check), `ResumeAfterFrameWait` (the wait for an active capture and
 the first half interval end, one frame is saved) and `ResumeAfterMirrorWait`
 (the second half interval ends, the mirrored copy is saved). The files the
 saver writes are recorded in the ghost sequence `saved`.
 */
module ImageSaving {
  import opened Texture
  import opened TextureHelper
  import Wrappers

  // ---------------------------------------------------------------- flip modes

  datatype FlipMode = None | Vertical | Horizontal | Both

  /** Whether the mode mirrors the columns (left to right). */
  predicate FlipsX(mode: FlipMode) {
    mode == Horizontal || mode == Both
  }

  /** Whether the mode mirrors the rows (upside down). */
  predicate FlipsY(mode: FlipMode) {
    mode == Vertical || mode == Both
  }

  // ------------------------------------------------------------ the file names

  /** The local time fields the file name is built from. */
  datatype Timestamp = Timestamp(day: nat, hour: nat, minute: nat, second: nat, millisecond: nat)

  /** The ranges a clock reading has: day of month 1 to 31, 24 hours, 60
      minutes, 60 seconds, 1000 milliseconds. */
  predicate ValidTimestamp(t: Timestamp) {
    1 <= t.day <= 31 && t.hour < 24 && t.minute < 60 && t.second < 60 && t.millisecond < 1000
  }

  function Pow10(k: nat): (p: nat)
    ensures p > 0
  {
    if k == 0 then 1 else 10 * Pow10(k - 1)
  }

  predicate IsDigit(c: char) {
    '0' <= c <= '9'
  }

  predicate AllDigits(s: string) {
    forall i :: 0 <= i < |s| ==> IsDigit(s[i])
  }

  function DigitChar(d: nat): (c: char)
    requires d < 10
    ensures IsDigit(c)
  {
    (48 + d) as char
  }

  function DigitValue(c: char): (d: nat)
    requires IsDigit(c)
    ensures d < 10 && DigitChar(d) == c
  {
    c as int - 48
  }

  /** `n` written with exactly `k` decimal digits, zero-padded on the left
      (the `dd`, `HH`, `mm`, `ss` and `fff` fields of a date format). */
  function Digits(n: nat, k: nat): (s: string)
    requires n < Pow10(k)
    ensures |s| == k && AllDigits(s)
  {
    if k == 0 then "" else Digits(n / 10, k - 1) + [DigitChar(n % 10)]
  }

  /** The number a string of decimal digits denotes. */
  function DecimalValue(s: string): (n: nat)
    requires AllDigits(s)
    ensures n < Pow10(|s|)
  {
    if s == [] then 0 else DecimalValue(s[..|s| - 1]) * 10 + DigitValue(s[|s| - 1])
  }

  /** Reading the padded digits back gives the number. */
  lemma {:induction false} DigitsRoundTrip(n: nat, k: nat)
    requires n < Pow10(k)
    ensures DecimalValue(Digits(n, k)) == n
  {
    if k > 0 {
      var s := Digits(n, k);
      assert s[..k - 1] == Digits(n / 10, k - 1);
      DigitsRoundTrip(n / 10, k - 1);
      assert DigitValue(s[k - 1]) == n % 10;
    }
  }

  /** The timestamp in the format `dd-HH-mm-ss-fff`. */
  function TimestampText(t: Timestamp): (s: string)
    requires ValidTimestamp(t)
    ensures |s| == 15
  {
    Digits(t.day, 2) + "-" + Digits(t.hour, 2) + "-" + Digits(t.minute, 2) + "-" +
    Digits(t.second, 2) + "-" + Digits(t.millisecond, 3)
  }

  /** Reads a `dd-HH-mm-ss-fff` text back into a timestamp. */
  function ParseTimestamp(s: string): (r: Wrappers.Option<Timestamp>)
    ensures r.Some? ==> ValidTimestamp(r.value)
  {
    if |s| == 15 && s[2] == '-' && s[5] == '-' && s[8] == '-' && s[11] == '-' &&
       AllDigits(s[0..2]) && AllDigits(s[3..5]) && AllDigits(s[6..8]) &&
       AllDigits(s[9..11]) && AllDigits(s[12..15])
    then
      var t := Timestamp(DecimalValue(s[0..2]), DecimalValue(s[3..5]), DecimalValue(s[6..8]),
                         DecimalValue(s[9..11]), DecimalValue(s[12..15]));
      if ValidTimestamp(t) then Wrappers.Some(t) else Wrappers.None
    else
      Wrappers.None
  }

  lemma TimestampRoundTrip(t: Timestamp)
    requires ValidTimestamp(t)
    ensures ParseTimestamp(TimestampText(t)) == Wrappers.Some(t)
  {
    var s := TimestampText(t);
    assert s[0..2] == Digits(t.day, 2);
    assert s[3..5] == Digits(t.hour, 2);
    assert s[6..8] == Digits(t.minute, 2);
    assert s[9..11] == Digits(t.second, 2);
    assert s[12..15] == Digits(t.millisecond, 3);
    DigitsRoundTrip(t.day, 2);
    DigitsRoundTrip(t.hour, 2);
    DigitsRoundTrip(t.minute, 2);
    DigitsRoundTrip(t.second, 2);
    DigitsRoundTrip(t.millisecond, 3);
  }

  const ImageSuffix: string := "_image.jpg"

  /** `Path.Combine` with `/` as the directory separator. */
  function Combine(path1: string, path2: string): (p: string)
    ensures |p| >= |path2| && p[|p| - |path2|..] == path2
    ensures path2 != [] && path2[0] != '/' ==> path1 <= p
  {
    if path2 == [] then path1
    else if path1 == [] || path2[0] == '/' then path2
    else if path1[|path1| - 1] == '/' then path1 + path2
    else path1 + "/" + path2
  }

  /** The path an image taken at `t` is written to. */
  function FileName(savePath: string, t: Timestamp): (name: string)
    requires ValidTimestamp(t)
    ensures |name| >= 25 && name[|name| - 10..] == ImageSuffix
    ensures name[|name| - 25..|name| - 10] == TimestampText(t)
    ensures savePath != [] && savePath[|savePath| - 1] == '/' ==>
              name == savePath + TimestampText(t) + ImageSuffix
  {
    var file := TimestampText(t) + ImageSuffix;
    assert file[0] == Digits(t.day, 2)[0];
    Combine(savePath, file)
  }

  /** Images taken at different times go to different files. */
  lemma FileNameInjective(savePath: string, t1: Timestamp, t2: Timestamp)
    requires ValidTimestamp(t1) && ValidTimestamp(t2)
    requires FileName(savePath, t1) == FileName(savePath, t2)
    ensures t1 == t2
  {
    var name := FileName(savePath, t1);
    assert TimestampText(t1) == name[|name| - 25..|name| - 10] == TimestampText(t2);
    TimestampTextInjective(t1, t2);
  }

  /** Readings that differ in one of the five fields have different texts. */
  lemma TimestampTextInjective(t1: Timestamp, t2: Timestamp)
    requires ValidTimestamp(t1) && ValidTimestamp(t2)
    requires TimestampText(t1) == TimestampText(t2)
    ensures t1 == t2
  {
    TimestampRoundTrip(t1);
    TimestampRoundTrip(t2);
  }

  // ------------------------------------------------------------ the saver

  /** One file written by the saver: its path and the pixels it encodes. */
  datatype SavedImage = SavedImage(path: string, pixels: seq<Color32>)

  /** Where the saving task is. `Idle`: no task, or the task has finished.
      `AwaitingFrame`: suspended at the top of a loop iteration, waiting for
      the capture to be active and then for half an interval.
      `AwaitingMirror`: suspended inside `Save`, half an interval before the
      mirrored copy. */
  datatype SavingTask = Idle | AwaitingFrame | AwaitingMirror

  /** The side of the square buffer texture, and of the screen texture. */
  const BufferSize: nat := 1024

  /** An upper bound on the count: the limit when every loop iteration saves
      one image, one more than the limit when it saves two. */
  function CountBound(imageLimit: int, mirrorCopy: bool): (b: nat)
    ensures b >= imageLimit
    ensures mirrorCopy ==> b <= if imageLimit < 0 then 0 else imageLimit + 1
    ensures !mirrorCopy ==> b <= if imageLimit < 0 then 0 else imageLimit
  {
    var b := if mirrorCopy then imageLimit + 1 else imageLimit;
    if b < 0 then 0 else b
  }

  class ImageSaver {
    const mirrorCopy: bool
    /** The configured limit; the code stops at `count >= imageLimit` for
        every value, 0 included. */
    const imageLimit: int
    const savePath: string
    /** The private buffer the screen frame is copied into and flipped. */
    const bufferTexture: Texture<Color32>

    var count: int
    /** Whether cancellation has been requested of the one cancellation source. */
    var cancelled: bool
    var savingTask: SavingTask
    /** The files written so far, in order. */
    ghost var saved: seq<SavedImage>
    /** The screen frame most recently copied into the buffer. */
    ghost var frame: seq<Color32>

    /** Everything but the position of the task: one count per file
        written, at most the bound. */
    ghost predicate Consistent()
      reads this
    {
      bufferTexture.Valid() && bufferTexture.width == BufferSize && bufferTexture.height == BufferSize &&
      count == |saved| && count <= CountBound(imageLimit, mirrorCopy)
    }

    ghost predicate Valid()
      reads this, bufferTexture.texels
    {
      Consistent() &&
      (savingTask == AwaitingFrame ==> count < imageLimit) &&
      (savingTask == AwaitingMirror ==>
         mirrorCopy && 0 < count <= imageLimit && |frame| == BufferSize * BufferSize &&
         bufferTexture.texels[..] == Flipped(frame, BufferSize, BufferSize, false, true) &&
         saved[count - 1].pixels == bufferTexture.texels[..])
    }

    /** `Awake`: a 1024 x 1024 buffer texture and the save directory under
        the persistent data path; nothing saved, nothing cancelled. */
    constructor (mirrorCopy: bool, imageLimit: int, persistentDataPath: string)
      ensures Valid() && fresh(bufferTexture) && fresh(bufferTexture.texels)
      ensures this.mirrorCopy == mirrorCopy && this.imageLimit == imageLimit
      ensures savePath == persistentDataPath + "/ScreenCapture/"
      ensures count == 0 && !cancelled && savingTask == Idle && saved == []
    {
      this.mirrorCopy := mirrorCopy;
      this.imageLimit := imageLimit;
      savePath := persistentDataPath + "/ScreenCapture/";
      bufferTexture := new Texture(BufferSize, BufferSize, Transparent);
      count := 0;
      cancelled := false;
      savingTask := Idle;
      saved := [];
      frame := [];
    }

    /** `StartSavingTextureAsync`: a no-op while a task is in progress;
        otherwise a new task runs up to its first check. */
    method StartSavingTexture()
      requires Valid()
      modifies this
      ensures Valid()
      ensures old(savingTask) != Idle ==> unchanged(this)
      ensures old(savingTask) == Idle ==>
                count == old(count) && saved == old(saved) && frame == old(frame) &&
                cancelled == (old(cancelled) || count >= imageLimit) &&
                savingTask == (if cancelled then Idle else AwaitingFrame)
    {
      if savingTask != Idle {
        return;
      }
      LoopTop();
    }

    /** `StopSavingTextureAsync`: requests cancellation. A suspended task
        notices it when it resumes. */
    method StopSavingTexture()
      requires Valid()
      modifies this`cancelled
      ensures Valid() && cancelled
    {
      cancelled := true;
    }

    /** The top of the loop: cancel once the count has reached the limit,
        then end the task if cancellation was requested, for whatever
        reason, or else suspend it until the next frame. */
    method LoopTop()
      requires Consistent()
      modifies this`cancelled, this`savingTask
      ensures Valid()
      ensures cancelled == (old(cancelled) || count >= imageLimit)
      ensures savingTask == (if cancelled then Idle else AwaitingFrame)
    {
      if count >= imageLimit {
        cancelled := true;
      }
      if cancelled {
        savingTask := Idle;
      } else {
        savingTask := AwaitingFrame;
      }
    }

    /** The task resumes after waiting for an active capture and half an
        interval. A cancelled wait ends the task; otherwise the frame is
        saved, and without a mirrored copy the loop goes round again. */
    method ResumeAfterFrameWait(screen: Texture<Color32>, stamp: Timestamp)
      requires Valid() && savingTask == AwaitingFrame
      requires screen.Valid() && screen.width == BufferSize && screen.height == BufferSize
      requires screen.texels != bufferTexture.texels
      requires ValidTimestamp(stamp)
      modifies this, bufferTexture.texels
      ensures Valid()
      ensures old(cancelled) ==>
                savingTask == Idle && cancelled && count == old(count) && saved == old(saved) &&
                frame == old(frame) && bufferTexture.texels[..] == old(bufferTexture.texels[..])
      ensures !old(cancelled) ==>
                frame == screen.texels[..] &&
                bufferTexture.texels[..] == Flipped(frame, BufferSize, BufferSize, false, true) &&
                count == old(count) + 1 &&
                saved == old(saved) + [SavedImage(FileName(savePath, stamp),
                                                  Flipped(frame, BufferSize, BufferSize, false, true))]
      ensures !old(cancelled) && mirrorCopy ==> !cancelled && savingTask == AwaitingMirror
      ensures !old(cancelled) && !mirrorCopy ==>
                cancelled == (count >= imageLimit) && savingTask == (if cancelled then Idle else AwaitingFrame)
    {
      if cancelled {
        savingTask := Idle;
        return;
      }
      Save(screen, stamp);
      if !mirrorCopy {
        LoopTop();
      }
    }

    /** `Save` up to its first suspension: copy the screen frame into the
        buffer, flip it vertically, save it and count it; with a mirrored copy
        the task then waits for half an interval. */
    method Save(screen: Texture<Color32>, stamp: Timestamp)
      requires Valid() && savingTask == AwaitingFrame && !cancelled
      requires screen.Valid() && screen.width == BufferSize && screen.height == BufferSize
      requires screen.texels != bufferTexture.texels
      requires ValidTimestamp(stamp)
      modifies this`count, this`saved, this`frame, this`savingTask, bufferTexture.texels
      ensures Consistent() && count == old(count) + 1 && frame == screen.texels[..]
      ensures bufferTexture.texels[..] == Flipped(frame, BufferSize, BufferSize, false, true)
      ensures saved == old(saved) + [SavedImage(FileName(savePath, stamp), bufferTexture.texels[..])]
      ensures savingTask == (if mirrorCopy then AwaitingMirror else old(savingTask))
      ensures mirrorCopy ==> Valid()
    {
      assert count + 1 <= CountBound(imageLimit, mirrorCopy);
      CopyTexture(screen, bufferTexture);
      frame := screen.texels[..];
      CaptureAndSaveTexture(bufferTexture, Vertical, stamp);
      ghost var flipped := bufferTexture.texels[..];
      assert flipped == Flipped(frame, BufferSize, BufferSize, false, true);
      assert saved[|saved| - 1].pixels == flipped;
      count := count + 1;
      if mirrorCopy {
        savingTask := AwaitingMirror;
      }
    }

    /** The task resumes half an interval after the first image of `Save`.
        A cancelled wait ends the task; otherwise the buffer, already flipped
        vertically, is flipped left to right, saved and counted, and the loop
        goes round again. */
    method ResumeAfterMirrorWait(stamp: Timestamp)
      requires Valid() && savingTask == AwaitingMirror
      requires ValidTimestamp(stamp)
      modifies this, bufferTexture.texels
      ensures Valid()
      ensures old(cancelled) ==>
                savingTask == Idle && cancelled && count == old(count) && saved == old(saved) &&
                frame == old(frame) && bufferTexture.texels[..] == old(bufferTexture.texels[..])
      ensures !old(cancelled) ==>
                frame == old(frame) &&
                bufferTexture.texels[..] == Flipped(frame, BufferSize, BufferSize, true, true) &&
                count == old(count) + 1 &&
                saved == old(saved) + [SavedImage(FileName(savePath, stamp),
                                                  Flipped(frame, BufferSize, BufferSize, true, true))] &&
                cancelled == (count >= imageLimit) &&
                savingTask == (if cancelled then Idle else AwaitingFrame)
    {
      if cancelled {
        savingTask := Idle;
        return;
      }
      ghost var vertical := bufferTexture.texels[..];
      CaptureAndSaveTexture(bufferTexture, Horizontal, stamp);
      BothIsVerticalAndHorizontal(frame, BufferSize, BufferSize);
      assert bufferTexture.texels[..] == Flipped(vertical, BufferSize, BufferSize, true, false);
      count := count + 1;
      LoopTop();
    }

    /** `CaptureAndSaveTextureAsync`: applies the flip the mode names, none
        for `None`, and saves the texture. */
    method CaptureAndSaveTexture(texture: Texture<Color32>, flipMode: FlipMode, stamp: Timestamp)
      requires texture.Valid() && ValidTimestamp(stamp)
      modifies texture.texels, this`saved
      ensures texture.texels[..] == Flipped(old(texture.texels[..]), texture.width, texture.height,
                                            FlipsX(flipMode), FlipsY(flipMode))
      ensures flipMode == None ==> texture.texels[..] == old(texture.texels[..])
      ensures saved == old(saved) + [SavedImage(FileName(savePath, stamp), texture.texels[..])]
    {
      match flipMode {
        case None =>
          FlipNeither(texture.texels[..], texture.width, texture.height);
        case Vertical =>
          FlipImageVerticallyCPU(texture);
        case Horizontal =>
          FlipImageHorizontallyCPU(texture);
        case Both =>
          FlipImageVerticallyAndHorizontallyCPU(texture);
      }
      SaveTextureToFile(texture, stamp);
    }

    /** `SaveTextureToFileAsync`: writes the texture, JPG-encoded, to a file
        named after the time of the call. */
    method SaveTextureToFile(texture: Texture<Color32>, stamp: Timestamp)
      requires ValidTimestamp(stamp)
      modifies this`saved
      ensures saved == old(saved) + [SavedImage(FileName(savePath, stamp), texture.texels[..])]
    {
      saved := saved + [SavedImage(FileName(savePath, stamp), texture.texels[..])];
    }
  }

  /** The count an uninterrupted saver stops at: nothing for a limit of 0 or
      less; the limit itself with one image per iteration; with a mirrored
      copy two images per iteration, so an odd limit is passed by one. */
  function FinalCount(imageLimit: int, mirrorCopy: bool): (n: nat)
    ensures n >= imageLimit && n <= CountBound(imageLimit, mirrorCopy)
    ensures mirrorCopy ==> n % 2 == 0
  {
    if imageLimit <= 0 then 0
    else if mirrorCopy then imageLimit + imageLimit % 2
    else imageLimit
  }

  /** A saver started while the capture is active and never stopped: every
      wait ends normally, the i-th image is named after `clock(i)`, and the
      loop runs until the limit check cancels it. */
  method RunUninterrupted(mirrorCopy: bool, imageLimit: int, screen: Texture<Color32>,
                          clock: nat -> Timestamp) returns (count: int)
    requires screen.Valid() && screen.width == BufferSize && screen.height == BufferSize
    requires forall i :: ValidTimestamp(clock(i))
    ensures count == FinalCount(imageLimit, mirrorCopy)
  {
    var saver := new ImageSaver(mirrorCopy, imageLimit, "");
    saver.StartSavingTexture();
    ghost var pairs: nat := 0;
    while saver.savingTask != Idle
      invariant saver.Valid() && fresh(saver.bufferTexture.texels)
      invariant saver.mirrorCopy == mirrorCopy && saver.imageLimit == imageLimit
      invariant saver.savingTask != Idle ==> !saver.cancelled
      invariant saver.savingTask == Idle ==> saver.count >= imageLimit
      invariant mirrorCopy ==> saver.count == 2 * pairs + (if saver.savingTask == AwaitingMirror then 1 else 0)
      invariant imageLimit <= 0 ==> saver.count == 0
      decreases imageLimit - saver.count, saver.savingTask == AwaitingFrame
    {
      if saver.savingTask == AwaitingFrame {
        saver.ResumeAfterFrameWait(screen, clock(saver.count));
      } else {
        saver.ResumeAfterMirrorWait(clock(saver.count));
        pairs := pairs + 1;
      }
    }
    count := saver.count;
  }

  /** An image limit of 3 with mirrored copies ends at 4 images. */
  method RunThreeWithMirror(screen: Texture<Color32>, clock: nat -> Timestamp) returns (count: int)
    requires screen.Valid() && screen.width == BufferSize && screen.height == BufferSize
    requires forall i :: ValidTimestamp(clock(i))
    ensures count == 4
  {
    count := RunUninterrupted(true, 3, screen, clock);
  }

  /** `Graphics.CopyTexture` between two textures of one size. */
  method CopyTexture(source: Texture<Color32>, destination: Texture<Color32>)
    requires source.Valid() && destination.Valid()
    requires source.width == destination.width && source.height == destination.height
    requires source.texels != destination.texels
    modifies destination.texels
    ensures destination.texels[..] == source.texels[..]
  {
    forall i | 0 <= i < destination.texels.Length {
      destination.texels[i] := source.texels[i];
    }
  }
}
