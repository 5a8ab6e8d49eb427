/**
 Integer timing arithmetic of one capture cycle: the sensor's timing
 constants, the capture timestamp, the readout deadline, and the decision to
 sleep until the end of the frame together with its seconds/nanoseconds split.
 */
module Timing {
  import opened SensorTypes

  /** Active array size: 640 columns by 480 rows. */
  const kWidth: nat := 640
  const kHeight: nat := 480

  /** Shortest frame duration (about 1/30 s) and the minimum vertical blank. */
  const kFrameDurationMin: Nanos := 33331760
  const kMinVerticalBlank: Nanos := 10000

  /**
   The time to read one row: the shortest frame duration spread evenly over
   the rows, with integer (truncating) division, which gives 69441 ns.
   */
  const kRowReadoutTime: Nanos := kFrameDurationMin / kHeight

  /** Slack below which the loop does not bother to sleep: 2 ms. */
  const kTimeAccuracy: Nanos := 2000000

  const kNanosPerSecond: Nanos := 1000000000

  /**
   The wall-clock time by which the previous capture counts as read out: one
   full frame of row readouts after the start of the cycle. Truncation in
   `kRowReadoutTime` makes the readout end 80 ns before the shortest frame
   would, so the readout always fits inside any legal frame.
   */
  function ReadoutDeadline(start: Nanos): (d: Nanos)
    ensures start < d
    ensures d == start + kFrameDurationMin - 80
  {
    start + kRowReadoutTime * kHeight
  }

  /**
   The simulated capture time of the frame rendered in a cycle that started at
   wall-clock `start`: time since startup, plus one row readout and the
   vertical blank.
   */
  function CaptureTimestamp(start: Nanos, startup: Nanos): (t: Nanos)
    ensures t - (start - startup) == 79441
  {
    (start - startup) + kRowReadoutTime + kMinVerticalBlank
  }

  /** Capture timestamps keep the cadence of the cycle starts exactly. */
  lemma CaptureTimestampOrder(start1: Nanos, start2: Nanos, startup: Nanos)
    ensures CaptureTimestamp(start2, startup) - CaptureTimestamp(start1, startup) == start2 - start1
    ensures start1 < start2 <==> CaptureTimestamp(start1, startup) < CaptureTimestamp(start2, startup)
  {
  }

  /** The `tv_sec`/`tv_nsec` pair handed to `nanosleep`. */
  datatype Timespec = Timespec(sec: int, nsec: int)

  /** C's integer division, which truncates toward zero. */
  function CDiv(a: int, b: int): (q: int)
    requires b > 0
    ensures a >= 0 ==> 0 <= q * b <= a < q * b + b
    ensures a <= 0 ==> a <= q * b < a + b && q * b <= 0
  {
    if a >= 0 then a / b else -((-a) / b)
  }

  /** C's remainder: it takes the sign of the dividend. */
  function CMod(a: int, b: int): (r: int)
    requires b > 0
    ensures CDiv(a, b) * b + r == a
    ensures a >= 0 ==> 0 <= r < b
    ensures a <= 0 ==> -b < r <= 0
  {
    a - CDiv(a, b) * b
  }

  /**
   The sleep at the end of a cycle. The loop sleeps only when the work
   finished more than `kTimeAccuracy` before the end of the frame, and then
   for exactly the remaining time, split into whole seconds and a nanosecond
   part below one second.
   */
  function SleepFor(frameEnd: Nanos, workDone: Nanos): (r: Option<Timespec>)
    ensures r.Some? <==> workDone < frameEnd - kTimeAccuracy
    ensures r.Some? ==> r.value.sec >= 0 && 0 <= r.value.nsec < kNanosPerSecond
    ensures r.Some? ==> r.value.sec * kNanosPerSecond + r.value.nsec == frameEnd - workDone
  {
    if workDone < frameEnd - kTimeAccuracy then
      Some(Timespec(CDiv(frameEnd - workDone, kNanosPerSecond), CMod(frameEnd - workDone, kNanosPerSecond)))
    else
      None
  }

  /**
   The wall-clock time at which the next cycle begins, when `nanosleep` (with
   its retry on interruption) sleeps exactly the requested time. A cycle never
   ends more than `kTimeAccuracy` before its frame end, never before its work
   is done, and never overshoots the frame end by sleeping.
   */
  function CycleEnd(frameEnd: Nanos, workDone: Nanos): (e: Nanos)
    ensures e >= workDone
    ensures e >= frameEnd - kTimeAccuracy
    ensures e > workDone ==> e == frameEnd
  {
    match SleepFor(frameEnd, workDone)
    case Some(t) => workDone + t.sec * kNanosPerSecond + t.nsec
    case None => workDone
  }
}
