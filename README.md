# Screen-capture image saver: CPU texture flips and the save loop

This project models two pieces of a Unity screen-capture app and proves
properties of them in Dafny.

- **The CPU texture flips** (`TextureHelper`). A FlipImage method takes a
  texture's raw row-major pixel buffer (`width x height` pixels of RGBA32) and
  snapshots it into a rented array. A nested `newY`/`newX` loop then
  rewrites every pixel in place from the snapshot pixel it mirrors, with a
  running `address`. There are three such methods: vertical, horizontal,
  and both.
- **The image saver** (`ImageSaver`). This is an async loop around the flips:
  - On each iteration it checks the image count against `imageLimit`. It
    cancels its one cancellation source once the limit is reached, and it
    stops whenever cancellation has been requested.
  - Otherwise it waits for an active capture and half an interval. It then
    copies the screen texture into a private 1024 x 1024 buffer, flips the
    buffer vertically, saves it as `dd-HH-mm-ss-fff_image.jpg` and counts it.
  - With `mirrorCopy` set, it waits another half interval, flips the same
    buffer left to right, and saves and counts a second image.
  - Starting while a saving task is in progress does nothing.

Files:

- `texture.dfy` (module `Texture`): `Color32` and a `Texture<T>` class. The
  class stands in for the engine texture: constant `width` and `height`, and
  a `texels` array with `texels.Length == width * height`.
- `texture_helper.dfy` (module `TextureHelper`): the three flip methods. Each
  one is proved against the specification function `Flipped(s, width, height,
  flipX, flipY)`:
  - vertical is `(false, true)`;
  - horizontal is `(true, false)`;
  - both is `(true, true)`.
  `IsFlipOf` characterises `Flipped` pixel by pixel: destination
  `(x, y)` holds source `(flipX ? width-1-x : x, flipY ? height-1-y : y)`.
  The address of pixel `(x, y)` is `Address(width, height, x, y) = y * width + x`.
- `image_saver.dfy` (module `ImageSaving`): `FlipMode`, the file-name
  builder and a parser that reads the timestamp back, and the `ImageSaver`
  class.
  - The async task is a state machine. The field `savingTask` says where the
    task is suspended: `Idle`, `AwaitingFrame` or `AwaitingMirror`.
  - There is one method per stretch of code the task runs between two
    suspensions.
  - The files written are recorded in the ghost sequence `saved`. Each
    record holds a path and the pixels encoded.
  - `Valid()` keeps `count == |saved|`. It also keeps `count` at or below
    `CountBound(imageLimit, mirrorCopy)`: the limit without mirrored copies,
    one more with them.
- `wrappers.dfy` (module `Wrappers`): `Option`.

The external collaborators become inputs:
- The screen texture is a `Texture<Color32>` argument.
- The clock reading is a `Timestamp` argument.
- The end of a wait is a call to the matching `Resume…` method.
- A stop request is a call to `StopSavingTexture`.

Two behaviours of the code differ from what its comments suggest. The model reproduces both as written:

- `imageLimit` is commented "0 = unlimited" (`ImageSaver.cs:19`). The check
  at `ImageSaver.cs:83` is a plain `count >= imageLimit`, so a limit of 0
  (or less) cancels at the first loop top, and nothing is ever saved:
  `ImageSaver.LoopTop`, `FinalCount`.
- The limit is checked only at the top of the loop. An iteration with a
  mirrored copy adds 2, so the count can pass the limit by one. With
  `imageLimit = 3` and `mirrorCopy`, an uninterrupted run ends with 4 images,
  not 3: `RunThreeWithMirror`. The file is opened with `FileMode.Create`,
  which overwrites an existing file. It is not an exclusive create.

## Model

| member | source | states |
|---|---|---|
| `Texture.Texture.constructor` | Assets/ScreenCaptureTexture/ImageSaver.cs:45 | a new texture has one pixel per coordinate (`texels.Length == width * height`), every pixel set to the same blank value |
| `TextureHelper.Address` | Assets/ScreenCaptureTexture/TextureHelper.cs:23 | for `x < width`, `y < height` the index `y * width + x` is below `width * height`, and its column `% width` and row `/ width` are `x` and `y` again |
| `TextureHelper.IndexCoordinates` | Assets/ScreenCaptureTexture/TextureHelper.cs:15-25 | every index below `width * height` is the address of the pixel in its column and row, so the row-by-row walk with a running address reaches every index |
| `TextureHelper.OldCoordinate` | Assets/ScreenCaptureTexture/TextureHelper.cs:83-84 | the source coordinate `extent - c - 1` (mirrored) or `c` (kept) stays inside the extent |
| `TextureHelper.Flipped` | Assets/ScreenCaptureTexture/TextureHelper.cs:16-24 | the flipped buffer has the same length, and each destination pixel `(x, y)` holds the source pixel at the mirrored column when `flipX` holds and the mirrored row when `flipY` holds |
| `TextureHelper.FlipUnique` | Assets/ScreenCaptureTexture/TextureHelper.cs:15-25 | two buffers that both satisfy the pixel-by-pixel description of a flip of `s` are equal |
| `TextureHelper.FlipNeither` | Assets/ScreenCaptureTexture/ImageSaver.cs:119 | flipping in neither direction (`FlipMode.None`) leaves the buffer unchanged |
| `TextureHelper.FlipCompose` | Assets/ScreenCaptureTexture/TextureHelper.cs:83-84 | two flips in a row equal one flip that mirrors each direction flipped an odd number of times |
| `TextureHelper.FlipInvolution` | Assets/ScreenCaptureTexture/TextureHelper.cs:20-23 | applying any of the flips twice restores the original buffer exactly |
| `TextureHelper.BothIsVerticalAndHorizontal` | Assets/ScreenCaptureTexture/TextureHelper.cs:83-87 | the combined flip equals horizontal-after-vertical and vertical-after-horizontal |
| `TextureHelper.TwoByTwoVertical` | Assets/ScreenCaptureTexture/TextureHelper.cs:20-23 | the 2 x 2 buffer `[A, B, C, D]` flipped vertically is `[C, D, A, B]` |
| `TextureHelper.TwoByTwoHorizontal` | Assets/ScreenCaptureTexture/TextureHelper.cs:50-54 | the 2 x 2 buffer `[A, B, C, D]` flipped horizontally is `[B, A, D, C]` |
| `TextureHelper.TwoByTwoBoth` | Assets/ScreenCaptureTexture/TextureHelper.cs:83-87 | the 2 x 2 buffer `[A, B, C, D]` flipped both ways is `[D, C, B, A]` |
| `TextureHelper.FillPixel` | Assets/ScreenCaptureTexture/TextureHelper.cs:23 | the write at `address == newY * width + newX` stores the snapshot pixel the flip names, lies above every earlier write and so overwrites none of them |
| `TextureHelper.FillRow` | Assets/ScreenCaptureTexture/TextureHelper.cs:16-18 | a completed row of `width` pixels is the start of the next row |
| `TextureHelper.FilledAll` | Assets/ScreenCaptureTexture/TextureHelper.cs:15-25 | once all `height` rows are written, the buffer is exactly the flipped snapshot |
| `TextureHelper.RentCopy` | Assets/ScreenCaptureTexture/TextureHelper.cs:12-13 | the snapshot is a fresh array, distinct from the texture, holding the buffer's contents |
| `TextureHelper.FlipImageVerticallyCPU` | Assets/ScreenCaptureTexture/TextureHelper.cs:6-28 | every read and write is in bounds, and afterwards `new[y*w + x] == old[(h-1-y)*w + x]` for all pixels, computed from the snapshot taken before any write |
| `TextureHelper.FlipImageHorizontallyCPU` | Assets/ScreenCaptureTexture/TextureHelper.cs:30-60 | every read and write is in bounds, and afterwards `new[y*w + x] == old[y*w + (w-1-x)]` for all pixels |
| `TextureHelper.FlipImageVerticallyAndHorizontallyCPU` | Assets/ScreenCaptureTexture/TextureHelper.cs:63-93 | every read and write is in bounds, and afterwards `new[y*w + x] == old[(h-1-y)*w + (w-1-x)]` for all pixels |
| `ImageSaving.Digits` | Assets/ScreenCaptureTexture/ImageSaver.cs:143 | a number below `10^k` written zero-padded is exactly `k` decimal digits |
| `ImageSaving.DigitsRoundTrip` | Assets/ScreenCaptureTexture/ImageSaver.cs:143 | reading the zero-padded digits back gives the number |
| `ImageSaving.TimestampText` | Assets/ScreenCaptureTexture/ImageSaver.cs:143 | the `dd-HH-mm-ss-fff` text of a clock reading is 15 characters long |
| `ImageSaving.ParseTimestamp` | Assets/ScreenCaptureTexture/ImageSaver.cs:143 | reading a text in the `dd-HH-mm-ss-fff` layout back yields, when it succeeds, a valid clock reading |
| `ImageSaving.TimestampRoundTrip` | Assets/ScreenCaptureTexture/ImageSaver.cs:143 | parsing the text of a clock reading gives that reading back |
| `ImageSaving.TimestampTextInjective` | Assets/ScreenCaptureTexture/ImageSaver.cs:143 | two valid readings with the same `dd-HH-mm-ss-fff` text agree in the day of the month, hour, minute, second and millisecond |
| `ImageSaving.Combine` | Assets/ScreenCaptureTexture/ImageSaver.cs:144 | `Path.Combine` ends with the file part, and keeps the directory as a prefix when the file part is not rooted |
| `ImageSaving.FileName` | Assets/ScreenCaptureTexture/ImageSaver.cs:143-144 | the name ends in the 15-character timestamp and then `_image.jpg`, and for a save path ending in `/` it is save path + timestamp + `_image.jpg` |
| `ImageSaving.FileNameInjective` | Assets/ScreenCaptureTexture/ImageSaver.cs:143-144 | images whose readings differ in the day of the month, hour, minute, second or millisecond get different file names |
| `ImageSaving.CountBound` | Assets/ScreenCaptureTexture/ImageSaver.cs:83-113 | an upper bound on `count` that every saver method keeps: at least the limit, and at most the limit (no mirror) or the limit plus one (mirror) |
| `ImageSaving.FinalCount` | Assets/ScreenCaptureTexture/ImageSaver.cs:81-114 | an uninterrupted run stops at a count of at least the limit, within `CountBound`, and even when every iteration saves a mirrored copy |
| `ImageSaving.RunUninterrupted` | Assets/ScreenCaptureTexture/ImageSaver.cs:79-97 | a saver started and never stopped ends with count 0 for a limit of 0 or less, the limit itself without mirror, and the limit rounded up to even with mirror |
| `ImageSaving.RunThreeWithMirror` | Assets/ScreenCaptureTexture/ImageSaver.cs:83 | with `imageLimit = 3` and `mirrorCopy`, the run ends with 4 images, one past the limit |
| `ImageSaving.CopyTexture` | Assets/ScreenCaptureTexture/ImageSaver.cs:101 | the buffer texture holds exactly the screen texture's pixels afterwards |
| `ImageSaving.ImageSaver.constructor` | Assets/ScreenCaptureTexture/ImageSaver.cs:38-47 | a fresh 1024 x 1024 buffer, the save path `persistentDataPath + "/ScreenCapture/"`, count 0, nothing cancelled, no task, nothing saved |
| `ImageSaving.ImageSaver.StartSavingTexture` | Assets/ScreenCaptureTexture/ImageSaver.cs:60-72 | while a task is in progress nothing changes (count, buffer, saved records, cancellation); otherwise a new task runs the loop-top check |
| `ImageSaving.ImageSaver.StopSavingTexture` | Assets/ScreenCaptureTexture/ImageSaver.cs:74-77 | cancellation is requested and nothing else changes |
| `ImageSaving.ImageSaver.LoopTop` | Assets/ScreenCaptureTexture/ImageSaver.cs:83-84 | cancellation becomes `old cancelled or count >= imageLimit` (sticky, and for a limit of 0 right away); a cancelled task ends, and otherwise it suspends until the next frame |
| `ImageSaving.ImageSaver.ResumeAfterFrameWait` | Assets/ScreenCaptureTexture/ImageSaver.cs:85-95 | a cancelled wait ends the task with nothing saved and the buffer and frame untouched; otherwise the buffer holds the copied frame flipped vertically, exactly that image is saved under the timestamped name, and count rises by 1; without mirror the loop top runs again |
| `ImageSaving.ImageSaver.Save` | Assets/ScreenCaptureTexture/ImageSaver.cs:99-108 | the screen frame is copied into the buffer, flipped vertically, saved and counted (+1); with mirror the task suspends before the second image |
| `ImageSaving.ImageSaver.ResumeAfterMirrorWait` | Assets/ScreenCaptureTexture/ImageSaver.cs:110-114 | a cancelled wait ends the task with nothing saved and the buffer and frame untouched; otherwise the buffer, and the second image saved from it, is the copied frame flipped both ways, count rises by 1 more, and the loop top runs again |
| `ImageSaving.ImageSaver.CaptureAndSaveTexture` | Assets/ScreenCaptureTexture/ImageSaver.cs:117-137 | exactly the flip the `FlipMode` names is applied (`None` leaves the buffer unchanged) and then exactly one image of the result is saved |
| `ImageSaving.ImageSaver.SaveTextureToFile` | Assets/ScreenCaptureTexture/ImageSaver.cs:140-153 | one record is appended: the timestamped file name and the texture's pixels at the time of the call |

## Left out

- The timed waits `WaitForSecondsAsync(frequency * 0.5f)` use float time, so
  `frequency` is not modelled. The end of each wait is a call to
  `ResumeAfterFrameWait` or `ResumeAfterMirrorWait`.
- `AwaitableHelper.WaitForConditionAsync` polls each frame for an active
  capture. It is folded into the first wait, which ends either with the
  frame saved or, when cancelled, with the task ended. `ScreenCaptureIsActive`
  is not modelled.
- The `while (isActiveAndEnabled)` condition and the MonoBehaviour
  lifecycle are not modelled:
  - `Awake`'s listener registration and directory creation, and its start
    when the capture is already active;
  - `OnDestroy`, whose `cts.Cancel()` is the same step as `StopSavingTexture`,
    and its `Dispose`.
  - The loop runs as if the component stays enabled.
- `EncodeToJPG` and the `FileStream` write are foreign I/O. A saved record
  holds the raw pixels the encoder receives. The completion and failure of
  the write are not modelled, nor is the first write still being in flight
  while the loop goes on (no mirror) or being awaited (mirror).
- `DateTime.Now` is replaced by a `Timestamp` argument that holds only the
  five fields the `dd-HH-mm-ss-fff` format reads. The file name leaves out
  the month and the year, so two images taken on the same day of the month
  and time of day in different months get the same name, and
  `FileMode.Create` overwrites the older file. `FileNameInjective` is about
  the five fields only.
- `saved` records the writes in the order they are made, not the files left
  in the directory: a later write to the same name replaces the earlier file
  there, while both stay in `saved`.
- Windows path separators in `Path.Combine` are not modelled.
- `ArrayPool.Rent` may return a longer array, of which only the first
  `texels.Length` entries are copied and read. The model takes an
  exact-length fresh copy and does not model `Return`.
- `Graphics.CopyTexture` is a GPU copy between textures of one size. It is
  modelled as an element copy that requires equal sizes: both textures are
  1024 x 1024 here.
- The 32-bit width of `count`, `width * height` and `address` is not
  modelled. No wrap-around can happen for a 1024 x 1024 buffer or any count
  below `int.MaxValue`.
- `RunUninterrupted` and `RunThreeWithMirror` assume the capture stays active
  and no stop arrives. They name the i-th image after `clock(i)`.
- `ScreenCaptureTextureManager.cs` (the Android bridge and GPU blits), the
  YOLO inference and visualiser, `VideoSourceAccess.cs`,
  `DisableEnableMesh.cs` and `CaptureRecorder.cs` are engine, OS or UI glue.
  They are not part of this model.
