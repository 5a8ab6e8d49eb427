/**
 The body of the capture loop written the way the sensor thread runs it:
 stage 1 snapshot, the row-by-row render with its periodic readout check,
 the flush, and the sleep decision. It is proved to agree with `Engine.Step`
 and to render every pixel from the scene through the colour filter it sits
 under.
 */
module CaptureLoop {
  import opened SensorTypes
  import opened Timing
  import opened Pixels
  import opened Controls
  import opened Readout
  import opened Engine

  /** What the renderer asks the scene for: one pixel under one filter. */
  datatype SceneQuery = SceneQuery(captureTime: Nanos, exposure: u64, x: nat, y: nat, filter: nat)

  /**
   The scene collaborator: electrons collected by a pixel for a frame captured
   at `captureTime` with the given exposure. Its light transport is not part
   of this model.
   */
  type Scene = SceneQuery -> u32

  /** Electrons the sensor keeps for pixel (x, y) of a frame. */
  function PixelElectrons(scene: Scene, captureTime: Nanos, exposure: u64, x: nat, y: nat): u32
  {
    ClampElectrons(scene(SceneQuery(captureTime, exposure, x, y, BayerIndex(x, y))))
  }

  /** Row `y` of a frame: each pixel's clamped electrons, in column order. */
  function ExpectedRow(scene: Scene, captureTime: Nanos, exposure: u64, y: nat): seq<u32>
  {
    seq(kWidth, x requires 0 <= x => PixelElectrons(scene, captureTime, exposure, x, y))
  }

  /** The first `n` rows of a frame, in row order. */
  function RowsBelow(scene: Scene, captureTime: Nanos, exposure: u64, n: nat): seq<seq<u32>>
  {
    if n == 0 then [] else RowsBelow(scene, captureTime, exposure, n - 1) + [ExpectedRow(scene, captureTime, exposure, n - 1)]
  }

  /** The frame rendered for a capture at `captureTime` with the given exposure. */
  function ExpectedFrame(scene: Scene, captureTime: Nanos, exposure: u64): seq<seq<u32>>
  {
    RowsBelow(scene, captureTime, exposure, kHeight)
  }

  /**
   Row `y` of the first `n` rows is row `y` of the image, and every pixel in
   it holds the scene's electrons under that pixel's filter, clamped to full
   well.
   */
  lemma {:induction false} RowsBelowPixels(scene: Scene, captureTime: Nanos, exposure: u64, n: nat)
    ensures |RowsBelow(scene, captureTime, exposure, n)| == n
    ensures forall y :: 0 <= y < n ==> |RowsBelow(scene, captureTime, exposure, n)[y]| == kWidth
    ensures forall y, x :: 0 <= y < n && 0 <= x < kWidth ==>
              RowsBelow(scene, captureTime, exposure, n)[y][x]
              == ClampElectrons(scene(SceneQuery(captureTime, exposure, x, y, BayerIndex(x, y))))
    decreases n
  {
    if n > 0 {
      RowsBelowPixels(scene, captureTime, exposure, n - 1);
    }
  }

  /** The inner loop over the columns of row `y`. */
  method RenderRow(scene: Scene, captureTime: Nanos, exposure: u64, y: nat) returns (row: seq<u32>)
    ensures |row| == kWidth
    ensures forall x :: 0 <= x < kWidth ==>
              && row[x] <= kSaturationElectrons
              && row[x] == ClampElectrons(scene(SceneQuery(captureTime, exposure, x, y, BayerIndex(x, y))))
    ensures row == ExpectedRow(scene, captureTime, exposure, y)
  {
    row := [];
    var x := 0;
    while x < kWidth
      invariant 0 <= x <= kWidth
      invariant |row| == x
      invariant forall i :: 0 <= i < x ==> row[i] == PixelElectrons(scene, captureTime, exposure, i, y)
    {
      row := row + [PixelElectrons(scene, captureTime, exposure, x, y)];
      x := x + 1;
    }
  }

  /**
   The readout side of the render loop: the capture still unpublished, the
   mailbox, where the publication happened and how many there were.
   */
  datatype ReadoutProgress = ReadoutProgress(
    carried: Option<Capture>, mailbox: Mailbox, point: PublishPoint, publishes: nat)

  /** The clock check after row `y`: publish the carried capture once the deadline has passed. */
  function CheckAfterRow(p: ReadoutProgress, y: nat, clockAtRow: nat -> Nanos, readoutEnd: Nanos): ReadoutProgress
  {
    if p.carried.Some? && RowChecked(y) && clockAtRow(y) >= readoutEnd then
      ReadoutProgress(None, Publish(p.mailbox, p.carried.value.buffer, p.carried.value.time), AtRow(y), p.publishes + 1)
    else p
  }

  /**
   What the readout side looks like after the checks of rows `0 .. y-1`,
   starting from `carried` and `mailbox`: nothing happens without a carried
   capture; otherwise it is published exactly when the first row meeting the
   deadline lies below `y`.
   */
  ghost predicate ProgressAfter(p: ReadoutProgress, y: nat, carried: Option<Capture>, mailbox: Mailbox,
                                clockAtRow: nat -> Nanos, readoutEnd: Nanos)
    requires y <= kHeight
  {
    var first := FirstReadoutRow(0, clockAtRow, readoutEnd);
    if carried.None? || first.None? || first.value >= y then
      p == ReadoutProgress(carried, mailbox, NothingCarried, 0)
    else
      p == ReadoutProgress(None, Publish(mailbox, carried.value.buffer, carried.value.time), AtRow(first.value), 1)
  }

  /** One clock check moves the readout side from row `y` to row `y + 1`. */
  lemma CheckAfterRowAdvances(p: ReadoutProgress, y: nat, carried: Option<Capture>, mailbox: Mailbox,
                              clockAtRow: nat -> Nanos, readoutEnd: Nanos)
    requires y < kHeight
    requires ProgressAfter(p, y, carried, mailbox, clockAtRow, readoutEnd)
    ensures ProgressAfter(CheckAfterRow(p, y, clockAtRow, readoutEnd), y + 1, carried, mailbox, clockAtRow, readoutEnd)
  {
    var first := FirstReadoutRow(0, clockAtRow, readoutEnd);
    if carried.Some? && (first.None? || first.value >= y) {
      FirstReadoutRowScan(y, clockAtRow, readoutEnd);
    }
  }

  /**
   Stage 2 for a frame that has a destination buffer: render row by row and,
   after every 64th row, compare the clock with the readout deadline of the
   capture still in flight (`carried`); once it has passed, publish that
   capture. The result's `carried` is what is still unpublished after the
   last row.
   */
  method RenderFrame(scene: Scene, captureTime: Nanos, exposure: u64,
                     carried: Option<Capture>, clockAtRow: nat -> Nanos, readoutEnd: Nanos, mailbox: Mailbox)
    returns (frame: seq<seq<u32>>, progress: ReadoutProgress)
    ensures frame == ExpectedFrame(scene, captureTime, exposure)
    ensures carried.None? ==> progress == ReadoutProgress(None, mailbox, NothingCarried, 0)
    ensures carried.Some? && FirstReadoutRow(0, clockAtRow, readoutEnd).Some? ==>
              progress == ReadoutProgress(None, Publish(mailbox, carried.value.buffer, carried.value.time),
                                          AtRow(FirstReadoutRow(0, clockAtRow, readoutEnd).value), 1)
    ensures carried.Some? && FirstReadoutRow(0, clockAtRow, readoutEnd).None? ==>
              progress == ReadoutProgress(carried, mailbox, NothingCarried, 0)
  {
    frame := [];
    progress := ReadoutProgress(carried, mailbox, NothingCarried, 0);
    var y := 0;
    while y < kHeight
      invariant 0 <= y <= kHeight
      invariant frame == RowsBelow(scene, captureTime, exposure, y)
      invariant ProgressAfter(progress, y, carried, mailbox, clockAtRow, readoutEnd)
    {
      var row := RenderRow(scene, captureTime, exposure, y);
      frame := frame + [row];
      CheckAfterRowAdvances(progress, y, carried, mailbox, clockAtRow, readoutEnd);
      progress := CheckAfterRow(progress, y, clockAtRow, readoutEnd);
      y := y + 1;
    }
  }

  /**
   One pass of the sensor thread. `leftover` is the thread's local captured
   buffer after the pass and `publishes` counts the hand-offs to the mailbox:
   a capture carried in is published exactly once and never carried out.
   When a destination buffer was pending, `frame` is the rendered image.
   */
  method CaptureCycle(s: Sensor, start: Nanos, clockAtRow: nat -> Nanos, workDone: Nanos, scene: Scene)
    returns (s': Sensor, point: PublishPoint, sleep: Option<Timespec>, frame: seq<seq<u32>>,
             leftover: Option<Capture>, publishes: nat)
    ensures leftover == None
    ensures publishes == |InFlight(s)|
    ensures s' == Step(s, start, clockAtRow, workDone).state
    ensures point == Step(s, start, clockAtRow, workDone).point
    ensures sleep == Step(s, start, clockAtRow, workDone).sleep
    ensures s.controls.nextBuffer.None? ==> frame == []
    ensures s.controls.nextBuffer.Some? ==>
              frame == ExpectedFrame(scene, CaptureTimestamp(start, s.startupTime), s.controls.exposureTime)
  {
    // Stage 1: controls.
    var snap := Snapshot(s.controls);
    var request := snap.request;

    // Stage 3: pick up the capture awaiting readout.
    var captured: Option<Capture> := None;
    var frameEnd := start + request.frameDuration as int;
    var readoutEnd := ReadoutDeadline(start);
    if s.nextCapturedBuffer.Some? {
      captured := Some(Capture(s.nextCapturedBuffer.value, s.nextCaptureTime));
    }
    var simulatedTime := start - s.startupTime + kRowReadoutTime + kMinVerticalBlank;

    // Stage 2: capture into the new buffer, publishing the old one when due.
    var nextCaptureTime := simulatedTime;
    var nextCapturedBuffer := request.buffer;
    var mailbox := s.mailbox;
    point := NothingCarried;
    publishes := 0;
    frame := [];
    if nextCapturedBuffer.Some? {
      var progress;
      frame, progress :=
        RenderFrame(scene, nextCaptureTime, request.exposure, captured, clockAtRow, readoutEnd, mailbox);
      captured, mailbox, point, publishes := progress.carried, progress.mailbox, progress.point, progress.publishes;
    }

    // No capture done, or rendering finished before the readout was due.
    if captured.Some? {
      mailbox := Publish(mailbox, captured.value.buffer, captured.value.time);
      publishes := publishes + 1;
      point := AtFlush;
      captured := None;
    }

    // Vertical blanking: sleep out the rest of the frame.
    sleep := SleepFor(frameEnd, workDone);
    s' := Sensor(snap.controls, s.startupTime, nextCapturedBuffer, nextCaptureTime, mailbox, true);
    leftover := captured;
  }
}
