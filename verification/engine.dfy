/**
 The capture engine as a state machine: the sensor's state between cycles,
 start-up, and one pass of the capture loop as a pure step. Wall-clock reads
 are inputs: the cycle's start, the clock as seen after each row, and the time
 the work was done.
 */
module Engine {
  import opened SensorTypes
  import opened Timing
  import opened Pixels
  import opened Controls
  import opened Readout

  /**
   Everything the capture loop keeps between cycles: the controls, the clock
   origin, the capture still awaiting readout and its time, the readout
   mailbox, and the VSync flag.
   */
  datatype Sensor = Sensor(
    controls: Controls,
    startupTime: Nanos,
    nextCapturedBuffer: Option<BufferId>,
    nextCaptureTime: Nanos,
    mailbox: Mailbox,
    gotVSync: bool)

  /** The capture awaiting readout, as a zero- or one-element list. */
  function InFlight(s: Sensor): seq<Capture>
  {
    if s.nextCapturedBuffer.Some? then [Capture(s.nextCapturedBuffer.value, s.nextCaptureTime)] else []
  }

  /**
   A freshly constructed sensor. The clock origin and the in-flight capture
   are set by `ReadyToRun`; the model starts them at 0 and `None`.
   */
  function New(): (s: Sensor)
    ensures s.controls == Initial() && !s.gotVSync
    ensures s.mailbox.capturedBuffer == None && InFlight(s) == []
  {
    Sensor(Initial(), 0, None, 0, kEmpty, false)
  }

  /** Thread preparation: restart the clock origin and forget any capture. */
  function ReadyToRun(s: Sensor, now: Nanos): (r: Sensor)
    ensures r.startupTime == now && InFlight(r) == [] && r.nextCaptureTime == 0
    ensures r.controls == s.controls && r.mailbox == s.mailbox && r.gotVSync == s.gotVSync
  {
    s.(startupTime := now, nextCaptureTime := 0, nextCapturedBuffer := None)
  }

  /**
   `startUp` without the thread launch: empty the mailbox, then prepare the
   loop with `now` as the clock origin.
   */
  function StartUp(s: Sensor, now: Nanos): (r: Sensor)
    ensures r.startupTime == now && InFlight(r) == [] && r.mailbox.capturedBuffer == None
    ensures r.controls == s.controls
  {
    ReadyToRun(s.(mailbox := s.mailbox.(capturedBuffer := None)), now)
  }

  /**
   The end-of-cycle state of a cycle started at wall-clock `start`: the
   snapshot cleared the pending buffer, the capture carried in was published
   to the mailbox, and the buffer just rendered (or null) is now in flight,
   stamped with this cycle's capture time.
   */
  function Advance(s: Sensor, start: Nanos): (r: Sensor)
    ensures r.controls.nextBuffer == None
    ensures r.controls.(nextBuffer := s.controls.nextBuffer) == s.controls
    ensures r.startupTime == s.startupTime && r.gotVSync
    ensures r.nextCapturedBuffer == s.controls.nextBuffer
    ensures r.nextCaptureTime == CaptureTimestamp(start, s.startupTime)
    ensures s.nextCapturedBuffer.Some? ==>
              r.mailbox == Mailbox(s.nextCapturedBuffer, s.nextCaptureTime)
    ensures s.nextCapturedBuffer.None? ==> r.mailbox == s.mailbox
  {
    var snap := Snapshot(s.controls);
    var mailbox := if s.nextCapturedBuffer.Some?
                   then Publish(s.mailbox, s.nextCapturedBuffer.value, s.nextCaptureTime)
                   else s.mailbox;
    Sensor(snap.controls, s.startupTime, snap.request.buffer,
           CaptureTimestamp(start, s.startupTime), mailbox, true)
  }

  /** What `waitForVSync` reports, and the state it leaves behind. */
  datatype VSyncResult = VSyncResult(signalled: bool, state: Sensor)

  /**
   `waitForVSync`: clear the flag, then wait. `cycleStart` is the start of a
   capture cycle that raises VSync during the wait, or `None` when the wait
   times out or fails. The result is the flag as it stands when the wait
   ends, so it reports only a cycle begun after the call.
   */
  function WaitForVSync(s: Sensor, cycleStart: Option<Nanos>): (r: VSyncResult)
    ensures r.signalled <==> cycleStart.Some?
    ensures r.signalled == r.state.gotVSync
    ensures cycleStart.None? ==> r.state == s.(gotVSync := false)
    ensures cycleStart.Some? ==> r.state == Advance(s, cycleStart.value)
  {
    var cleared := s.(gotVSync := false);
    match cycleStart
    case None => VSyncResult(cleared.gotVSync, cleared)
    case Some(start) =>
      var after := Advance(cleared, start);
      VSyncResult(after.gotVSync, after)
  }

  /** A VSync raised before the call is not reported: only a new cycle counts. */
  lemma VSyncNotSticky(s: Sensor, start: Nanos)
    ensures !WaitForVSync(Advance(s, start), None).signalled
    ensures WaitForVSync(Advance(s, start), None).state == Advance(s, start).(gotVSync := false)
  {
  }

  /**
   The first row at or after `from` after which the loop would see the
   readout deadline passed: a row whose clock is checked (every 64th) and
   reads at least `deadline`.
   */
  function FirstReadoutRow(from: nat, clockAtRow: nat -> Nanos, deadline: Nanos): (r: Option<nat>)
    requires from <= kHeight
    ensures r.Some? ==> from <= r.value < kHeight && RowChecked(r.value) && clockAtRow(r.value) >= deadline
    ensures r.Some? ==> forall y :: from <= y < r.value && RowChecked(y) ==> clockAtRow(y) < deadline
    ensures r.None? ==> forall y :: from <= y < kHeight && RowChecked(y) ==> clockAtRow(y) < deadline
    decreases kHeight - from
  {
    if from == kHeight then None
    else if RowChecked(from) && clockAtRow(from) >= deadline then Some(from)
    else FirstReadoutRow(from + 1, clockAtRow, deadline)
  }

  /**
   Scanning the rows in order: if no earlier row met the deadline, row `y`
   is the first one exactly when it is checked and its clock reads past the
   deadline.
   */
  lemma FirstReadoutRowScan(y: nat, clockAtRow: nat -> Nanos, deadline: Nanos)
    requires y < kHeight
    requires forall z :: 0 <= z < y && RowChecked(z) ==> clockAtRow(z) < deadline
    ensures var f := FirstReadoutRow(0, clockAtRow, deadline);
            if RowChecked(y) && clockAtRow(y) >= deadline then f == Some(y) else f.None? || f.value > y
  {
    var f := FirstReadoutRow(0, clockAtRow, deadline);
    if RowChecked(y) && clockAtRow(y) >= deadline {
      if f.None? {
        assert false;
      } else if f.value > y {
        assert false;
      }
    }
  }

  /** Where in a cycle the capture carried in was published. */
  datatype PublishPoint =
    | NothingCarried   // no capture was awaiting readout
    | AtRow(row: nat)   // at the clock check after this row
    | AtFlush           // after rendering, or in place of it

  /** One cycle's outcome: the new state, the publish point and the sleep. */
  datatype CycleResult = CycleResult(state: Sensor, point: PublishPoint, sleep: Option<Timespec>)

  /**
   One pass of the capture loop. The carried capture is published at the first
   checked row past the readout deadline when a new frame is being rendered,
   and otherwise at the flush that follows; the loop then sleeps out the rest
   of the frame.
   */
  function Step(s: Sensor, start: Nanos, clockAtRow: nat -> Nanos, workDone: Nanos): (r: CycleResult)
    ensures r.state == Advance(s, start)
    ensures r.point == NothingCarried <==> s.nextCapturedBuffer.None?
    ensures r.point.AtRow? ==>
              && s.controls.nextBuffer.Some?
              && r.point.row < kHeight && RowChecked(r.point.row)
              && clockAtRow(r.point.row) >= ReadoutDeadline(start)
              && forall y :: 0 <= y < r.point.row && RowChecked(y) ==> clockAtRow(y) < ReadoutDeadline(start)
    ensures r.point == AtFlush ==>
              || s.controls.nextBuffer.None?
              || forall y :: 0 <= y < kHeight && RowChecked(y) ==> clockAtRow(y) < ReadoutDeadline(start)
    ensures r.sleep == SleepFor(start + s.controls.frameDuration as int, workDone)
  {
    var point :=
      if s.nextCapturedBuffer.None? then NothingCarried
      else if s.controls.nextBuffer.None? then AtFlush
      else match FirstReadoutRow(0, clockAtRow, ReadoutDeadline(start))
        case Some(y) => AtRow(y)
        case None => AtFlush;
    CycleResult(Advance(s, start), point, SleepFor(start + s.controls.frameDuration as int, workDone))
  }

  /**
   Pipelining: the buffer pending at the start of one cycle is published, with
   that cycle's capture time, during the next cycle, whatever the controller
   hands over in between.
   */
  lemma OneCycleLag(s: Sensor, start1: Nanos, buffer: Option<BufferId>, stride: u32, start2: Nanos)
    requires s.controls.nextBuffer.Some?
    ensures var s1 := Advance(s, start1);
            var s2 := Advance(s1.(controls := SetDestinationBuffer(s1.controls, buffer, stride)), start2);
            && s2.mailbox == Mailbox(s.controls.nextBuffer, CaptureTimestamp(start1, s.startupTime))
            && s2.nextCapturedBuffer == buffer
  {
  }

  /**
   A cycle without a destination buffer still publishes the capture carried
   in, but leaves nothing in flight, so the following cycle publishes nothing.
   */
  lemma IdleCycle(s: Sensor, start1: Nanos, start2: Nanos, clockAtRow: nat -> Nanos, workDone: Nanos)
    requires s.controls.nextBuffer.None?
    ensures InFlight(Advance(s, start1)) == []
    ensures var s1 := Advance(s, start1);
            && Step(s1, start2, clockAtRow, workDone).point == NothingCarried
            && Advance(s1, start2).mailbox == s1.mailbox
  {
  }

  /**
   Round trip from start-up: a buffer handed over before the first cycle is
   delivered by the first `waitForNewFrame` after the second cycle, with the
   first cycle's capture time; nothing is published by the first cycle.
   */
  lemma StartUpRoundTrip(s: Sensor, now: Nanos, buffer: BufferId, stride: u32, start1: Nanos, start2: Nanos)
    ensures var s0 := StartUp(s, now);
            var s1 := Advance(s0.(controls := SetDestinationBuffer(s0.controls, Some(buffer), stride)), start1);
            var s2 := Advance(s1, start2);
            && WaitForNewFrame(s1.mailbox).frameTime == None
            && s2.mailbox.capturedBuffer == Some(buffer)
            && WaitForNewFrame(s2.mailbox).frameTime == Some(start1 - now + kRowReadoutTime + kMinVerticalBlank)
  {
  }
}
