/**
 The externally settable control state of the sensor and the snapshot the
 capture loop takes of it at the start of every cycle.
 */
module Controls {
  import opened SensorTypes
  import Timing

  /** Exposure, frame duration, gain and the pending destination buffer. */
  datatype Controls = Controls(
    exposureTime: u64,
    frameDuration: u64,
    gain: u32,
    nextBuffer: Option<BufferId>,
    nextStride: u32)

  /** Gain used until the first `SetSensitivity`: ISO 100. */
  const kDefaultSensitivity: u32 := 100

  /**
   Controls of a freshly constructed sensor: the shortest frame, exposed for
   all of it except the vertical blank, at default gain, with no buffer. The
   stride is not initialised by the constructor; the model starts it at 0.
   */
  function Initial(): (c: Controls)
    ensures c.frameDuration as int == Timing.kFrameDurationMin
    ensures c.exposureTime as int + Timing.kMinVerticalBlank == c.frameDuration as int
    ensures c.gain == kDefaultSensitivity && c.nextBuffer == None
  {
    Controls((Timing.kFrameDurationMin - Timing.kMinVerticalBlank) as u64,
             Timing.kFrameDurationMin as u64, kDefaultSensitivity, None, 0)
  }

  /* Each setter writes its own field and leaves every other field alone. */

  function SetExposureTime(c: Controls, ns: u64): (r: Controls)
    ensures r.exposureTime == ns
    ensures r.(exposureTime := c.exposureTime) == c
  {
    c.(exposureTime := ns)
  }

  function SetFrameDuration(c: Controls, ns: u64): (r: Controls)
    ensures r.frameDuration == ns
    ensures r.(frameDuration := c.frameDuration) == c
  {
    c.(frameDuration := ns)
  }

  function SetSensitivity(c: Controls, gain: u32): (r: Controls)
    ensures r.gain == gain
    ensures r.(gain := c.gain) == c
  {
    c.(gain := gain)
  }

  /** Hands a buffer (or null) to the engine, replacing any pending one. */
  function SetDestinationBuffer(c: Controls, buffer: Option<BufferId>, stride: u32): (r: Controls)
    ensures r.nextBuffer == buffer && r.nextStride == stride
    ensures r.(nextBuffer := c.nextBuffer, nextStride := c.nextStride) == c
  {
    c.(nextBuffer := buffer, nextStride := stride)
  }

  /** The per-cycle copy of the controls. */
  datatype CaptureRequest = CaptureRequest(
    exposure: u64,
    frameDuration: u64,
    gain: u32,
    buffer: Option<BufferId>,
    stride: u32)

  datatype SnapshotResult = SnapshotResult(request: CaptureRequest, controls: Controls)

  /**
   Stage 1 of a cycle: copy every control into the request and clear the
   pending buffer, so that a buffer is not reused by a later cycle.
   */
  function Snapshot(c: Controls): (r: SnapshotResult)
    ensures r.request == CaptureRequest(c.exposureTime, c.frameDuration, c.gain, c.nextBuffer, c.nextStride)
    ensures r.controls.nextBuffer == None
    ensures r.controls.(nextBuffer := c.nextBuffer) == c
  {
    SnapshotResult(
      CaptureRequest(c.exposureTime, c.frameDuration, c.gain, c.nextBuffer, c.nextStride),
      c.(nextBuffer := None))
  }

  /** A second snapshot without an intervening `SetDestinationBuffer` sees no buffer. */
  lemma SnapshotConsumesBuffer(c: Controls)
    ensures Snapshot(Snapshot(c).controls).request.buffer == None
    ensures Snapshot(Snapshot(c).controls).controls == Snapshot(c).controls
  {
  }

  /** Whatever was pending before, the next snapshot takes the buffer just set. */
  lemma SetThenSnapshot(c: Controls, buffer: Option<BufferId>, stride: u32)
    ensures Snapshot(SetDestinationBuffer(c, buffer, stride)).request.buffer == buffer
    ensures Snapshot(SetDestinationBuffer(c, buffer, stride)).request.stride == stride
  {
  }

  /** Setting the same value twice is the same as setting it once. */
  lemma SettersIdempotent(c: Controls, ns: u64, gain: u32, buffer: Option<BufferId>, stride: u32)
    ensures SetExposureTime(SetExposureTime(c, ns), ns) == SetExposureTime(c, ns)
    ensures SetFrameDuration(SetFrameDuration(c, ns), ns) == SetFrameDuration(c, ns)
    ensures SetSensitivity(SetSensitivity(c, gain), gain) == SetSensitivity(c, gain)
    ensures SetDestinationBuffer(SetDestinationBuffer(c, buffer, stride), buffer, stride)
         == SetDestinationBuffer(c, buffer, stride)
  {
  }
}
