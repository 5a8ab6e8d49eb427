/**
 Shared vocabulary of the fake rolling-shutter sensor model: the integer
 widths of the control parameters, nanosecond timestamps, and buffer
 identities standing in for the raw destination-buffer pointers.
 */
module SensorTypes {

  /** `uint32_t` of the setters' parameters (gain, stride, pixel coordinates). */
  newtype u32 = x: int | 0 <= x < 0x1_0000_0000

  /** `uint64_t` of the exposure and frame-duration setters. */
  newtype u64 = x: int | 0 <= x < 0x1_0000_0000_0000_0000

  /** `nsecs_t`: a signed nanosecond count, modelled without wrap-around. */
  type Nanos = int

  /**
   A destination buffer is known only by its identity: the engine never looks
   inside it except to write pixels. A null pointer is `None`.
   */
  type BufferId = nat

  datatype Option<+T> = None | Some(value: T)

  /** A buffer together with the simulated time at which it was captured. */
  datatype Capture = Capture(buffer: BufferId, time: Nanos)
}
