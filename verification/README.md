# Fake rolling-shutter sensor: capture-cycle model

This project models the capture loop of the emulator's fake camera sensor
(`Sensor.cpp` in the fake-pipeline2 camera emulator). The sensor runs a free
loop of capture cycles. Each cycle:

1. snapshots the controls (exposure, frame duration, gain, destination
   buffer) and clears the pending buffer;
2. picks up the capture taken in the previous cycle, which now awaits
   readout;
3. renders a new frame into the snapshotted buffer, if there is one, row by
   row. After every 64th row it compares the clock with the readout deadline
   and publishes the previous capture to a one-slot mailbox once the deadline
   has passed;
4. publishes the previous capture at the end if that has not happened yet;
5. sleeps until the end of the frame.

A consumer takes results out of the mailbox with `waitForNewFrame`.

The model is functional. `Engine.Sensor` is an immutable record of the
loop's state between cycles, and `Engine.Step` is one cycle. Every
`systemTime()` read is an input: the cycle start, the clock as read after
each row, and the time the work finished. Buffers are identities
(`Option<BufferId>`, where `None` is a null pointer). The scene collaborator
is a function parameter. `CaptureLoop.CaptureCycle` writes the same cycle
imperatively, as the thread runs it, with the row loop and the local
captured-buffer variable. It is proved equal to `Step` and to render every
pixel from the scene through its Bayer filter. `Pipeline` strings events
together: setter calls, cycles and frame waits. It proves the guarantees
that span cycles: every capture is published once, in order and one cycle
late; a buffer handed over once is captured at most once; capture,
publication and delivery timestamps strictly increase when cycle starts do,
so the mailbox can drop a frame but never delivers one twice or out of
order.

Files: `types.dfy` (widths, buffer identities), `bits.dfy` (bitwise AND on
naturals), `timing.dfy`, `pixels.dfy`, `controls.dfy`, `readout.dfy`,
`engine.dfy`, `capture.dfy`, `pipeline.dfy`.

The end-of-cycle flush (Sensor.cpp:324-331) runs whenever the carried
capture is still unpublished after rendering. That happens when no buffer
was rendered, and also when no checked row reached the readout deadline
(`AtFlush` in `Engine.Step`). The deadline is computed every cycle
(Sensor.cpp:247-248) and is only looked at while a capture is carried.

## Model

| member | source | states |
|---|---|---|
| Timing.ReadoutDeadline | tools/emulator/system/camera/fake-pipeline2/Sensor.cpp:247-248 | The readout of the previous capture is due 480 rows of `kRowReadoutTime` after the cycle start. Because the row time is rounded down by integer division, the deadline falls exactly 80 ns before the end of the shortest frame, so a full readout always fits inside any legal frame. |
| Timing.CaptureTimestamp | tools/emulator/system/camera/fake-pipeline2/Sensor.cpp:244-262 | A capture is stamped 79441 ns (one row readout plus the vertical blank) after the cycle's start relative to the startup time. |
| Timing.CaptureTimestampOrder | tools/emulator/system/camera/fake-pipeline2/Sensor.cpp:244-262 | Capture timestamps differ exactly by the difference of the cycle starts, so they are strictly increasing exactly when the starts are. |
| Timing.CDiv | tools/emulator/system/camera/fake-pipeline2/Sensor.cpp:338 | C division truncates toward zero: the quotient times the divisor lies between zero and the dividend, within one divisor of it. |
| Timing.CMod | tools/emulator/system/camera/fake-pipeline2/Sensor.cpp:339 | C's remainder completes the division identity, has the sign of the dividend and is smaller than the divisor in magnitude. |
| Timing.SleepFor | tools/emulator/system/camera/fake-pipeline2/Sensor.cpp:334-339 | The loop sleeps if and only if the work finished more than 2 ms before the frame end. When it sleeps, `tv_sec * 1e9 + tv_nsec` equals the remaining time, with `tv_sec >= 0` and `0 <= tv_nsec < 1e9`. |
| Timing.CycleEnd | tools/emulator/system/camera/fake-pipeline2/Sensor.cpp:334-346 | If the sleep is exact, the next cycle starts no earlier than the work's end and no earlier than 2 ms before the frame end. A cycle that sleeps ends exactly at the frame end. |
| Bits.MaskLowBits | tools/emulator/system/camera/fake-pipeline2/Sensor.cpp:311 | For unsigned values, `y & (2^k - 1)` equals `y % 2^k`. |
| Pixels.RowChecked | tools/emulator/system/camera/fake-pipeline2/Sensor.cpp:310-311 | The test `(y & 63) == 0` holds exactly on rows that are multiples of 64. |
| Pixels.BayerIndex | tools/emulator/system/camera/fake-pipeline2/Sensor.cpp:277-284 | The index `bayerSelect[(y & 1) * 2 + (x & 1)]` is below 4 and equals `2 * (y mod 2) + x mod 2`. |
| Pixels.RggbLayout | tools/emulator/system/camera/fake-pipeline2/Sensor.cpp:277-284 | Under the RGGB arrangement the filter is red exactly at (even column, even row). It is blue exactly at (odd, odd). It is green on a red row at (odd, even) and green on a blue row at (even, odd). |
| Pixels.BayerPeriodic | tools/emulator/system/camera/fake-pipeline2/Sensor.cpp:277-284 | The colour filter repeats with period 2 in x and in y. |
| Pixels.ClampElectrons | tools/emulator/system/camera/fake-pipeline2/Sensor.cpp:286-288 | The clamped electron count is `min(count, 2000)`: never above full well, and unchanged below it. |
| Controls.Initial | tools/emulator/system/camera/fake-pipeline2/Sensor.cpp:93-104 | A new sensor uses the shortest frame (33331760 ns). Its exposure is that frame less the vertical blank, its gain is 100, and no buffer is pending. |
| Controls.SetExposureTime | tools/emulator/system/camera/fake-pipeline2/Sensor.cpp:141-145 | Writes the exposure time and no other control. |
| Controls.SetFrameDuration | tools/emulator/system/camera/fake-pipeline2/Sensor.cpp:147-151 | Writes the frame duration and no other control. |
| Controls.SetSensitivity | tools/emulator/system/camera/fake-pipeline2/Sensor.cpp:153-157 | Writes the gain and no other control. |
| Controls.SetDestinationBuffer | tools/emulator/system/camera/fake-pipeline2/Sensor.cpp:159-163 | Writes the pending buffer and its stride. Any buffer already pending is replaced, and nothing else changes. |
| Controls.Snapshot | tools/emulator/system/camera/fake-pipeline2/Sensor.cpp:221-235 | The request copies every control. Afterwards the pending buffer is null and every other control is unchanged. |
| Controls.SnapshotConsumesBuffer | tools/emulator/system/camera/fake-pipeline2/Sensor.cpp:226-229 | A second snapshot with no new buffer set in between gets no buffer and changes nothing. A buffer is not reused. |
| Controls.SetThenSnapshot | tools/emulator/system/camera/fake-pipeline2/Sensor.cpp:221-229 | The next snapshot after `setDestinationBuffer` takes that buffer and stride, whatever was pending before. |
| Controls.SettersIdempotent | tools/emulator/system/camera/fake-pipeline2/Sensor.cpp:141-163 | Calling any setter twice with the same value leaves the same controls as calling it once. |
| Readout.Publish | tools/emulator/system/camera/fake-pipeline2/Sensor.cpp:314-316 | After a publish the slot holds the given buffer and capture time, whatever it held before. |
| Readout.WaitForNewFrame | tools/emulator/system/camera/fake-pipeline2/Sensor.cpp:178-195 | The wait returns a frame if and only if the slot holds a buffer. The frame's time is the stored capture time, and the slot is then emptied; the stored time is kept. When the wait times out, the slot is unchanged. |
| Readout.PublishThenConsume | tools/emulator/system/camera/fake-pipeline2/Sensor.cpp:178-195 | A publication is taken by the first wait, with its time. A second wait finds nothing. |
| Readout.PublishOverwrites | tools/emulator/system/camera/fake-pipeline2/Sensor.cpp:314-316 | Publishing twice before a wait is the same as publishing only the second result. The wait returns the second time. |
| Engine.New | tools/emulator/system/camera/fake-pipeline2/Sensor.cpp:93-104 | A constructed sensor has the initial controls, no VSync seen, an empty mailbox and nothing in flight. |
| Engine.ReadyToRun | tools/emulator/system/camera/fake-pipeline2/Sensor.cpp:197-203 | Thread preparation restarts the clock origin at `now`, clears the in-flight capture and zeroes its time. Nothing else changes. |
| Engine.StartUp | tools/emulator/system/camera/fake-pipeline2/Sensor.cpp:110-126 | Start-up empties the mailbox, sets the clock origin and leaves nothing in flight. The controls are untouched. |
| Engine.WaitForVSync | tools/emulator/system/camera/fake-pipeline2/Sensor.cpp:165-176 | The wait clears the VSync flag first and reports true if and only if a capture cycle began during the wait; that cycle's effects are those of `Advance`. On a timeout or error it reports false and only the flag changes. |
| Engine.VSyncNotSticky | tools/emulator/system/camera/fake-pipeline2/Sensor.cpp:165-176 | A VSync raised by a cycle that ran before the call is not reported: with no new cycle the wait returns false and leaves the flag cleared. |
| Engine.Advance | tools/emulator/system/camera/fake-pipeline2/Sensor.cpp:205-331 | After a cycle: the pending buffer is cleared, with the other controls kept, and VSync is raised. The buffer pending at the start is now in flight with this cycle's capture timestamp. The capture carried in, if any, is in the mailbox with its own time; with no carried capture the mailbox is unchanged. |
| Engine.FirstReadoutRow | tools/emulator/system/camera/fake-pipeline2/Sensor.cpp:306-319 | Returns the first row whose clock check sees the readout deadline passed: a multiple-of-64 row whose clock reads at least the deadline, with no earlier checked row doing so. It returns none if and only if no checked row reaches the deadline. |
| Engine.FirstReadoutRowScan | tools/emulator/system/camera/fake-pipeline2/Sensor.cpp:308-319 | Suppose rows are scanned in order and no earlier row published. Then row `y` is the publishing row exactly when it is checked and past the deadline. |
| Engine.Step | tools/emulator/system/camera/fake-pipeline2/Sensor.cpp:205-351 | A cycle publishes if and only if it carried a capture. It publishes at a row only while rendering a new buffer, and that row is checked and is the first past the deadline. It flushes only if it rendered nothing or no checked row saw the deadline. Its sleep is the one `SleepFor` gives for `start + frameDuration`. |
| Engine.OneCycleLag | tools/emulator/system/camera/fake-pipeline2/Sensor.cpp:250-263 | The buffer pending at cycle k is in the mailbox after cycle k+1, with cycle k's capture timestamp, whatever buffer is handed over in between. |
| Engine.IdleCycle | tools/emulator/system/camera/fake-pipeline2/Sensor.cpp:250-331 | A cycle with no destination buffer leaves nothing in flight. The next cycle therefore publishes nothing and leaves the mailbox alone. |
| Engine.StartUpRoundTrip | tools/emulator/system/camera/fake-pipeline2/Sensor.cpp:178-263 | Take a buffer handed over right after start-up. After the first cycle a wait times out. After the second cycle the mailbox holds that buffer, and a wait returns `start1 - startup + kRowReadoutTime + kMinVerticalBlank`. |
| CaptureLoop.RowsBelowPixels | tools/emulator/system/camera/fake-pipeline2/Sensor.cpp:277-305 | The rendered frame has one row per image row and one entry per column. Pixel (x, y) holds the scene's electrons for (x, y) under the filter `BayerIndex(x, y)`, clamped to full well. |
| CaptureLoop.RenderRow | tools/emulator/system/camera/fake-pipeline2/Sensor.cpp:282-305 | The column loop renders each pixel from the scene under its own Bayer filter, clamped to at most 2000 electrons, in column order. |
| CaptureLoop.CheckAfterRowAdvances | tools/emulator/system/camera/fake-pipeline2/Sensor.cpp:306-319 | The check after row `y` preserves a readout invariant. The carried capture is published, once, exactly when the first row past the deadline lies below the rows done so far. Otherwise nothing happens. |
| CaptureLoop.RenderFrame | tools/emulator/system/camera/fake-pipeline2/Sensor.cpp:265-322 | The row loop renders the whole frame. A carried capture is published exactly once, at `FirstReadoutRow`, if some checked row reaches the deadline. Otherwise it stays carried and the mailbox is untouched. |
| CaptureLoop.CaptureCycle | tools/emulator/system/camera/fake-pipeline2/Sensor.cpp:205-351 | The thread's cycle ends with its local captured buffer null. It has published exactly as many times as there were captures in flight (0 or 1). Its state, publish point and sleep are those of `Engine.Step`. When a buffer was pending it rendered exactly the expected frame. |
| Pipeline.RunKeepsStartup | tools/emulator/system/camera/fake-pipeline2/Sensor.cpp:197-203 | No setter, cycle or wait moves the clock origin; only thread preparation does. |
| Pipeline.PublishedFollowsCaptured | tools/emulator/system/camera/fake-pipeline2/Sensor.cpp:250-331 | Over any run, the publications followed by what is still in flight equal the capture in flight at the start followed by the captures taken. This holds for buffers and timestamps alike. Nothing is lost, nothing duplicated, the order is kept, and the lag is one cycle. |
| Pipeline.EventAtMostOnce | tools/emulator/system/camera/fake-pipeline2/Sensor.cpp:221-229 | One event can only capture the pending buffer (clearing it), replace it, or leave it. |
| Pipeline.CapturedAtMostOnce | tools/emulator/system/camera/fake-pipeline2/Sensor.cpp:159-229 | Over any run, as multisets: the captured buffers plus the one still pending are contained in the buffer pending at the start plus the buffers handed over. A buffer handed over once is captured at most once. |
| Pipeline.CapturedAfter | tools/emulator/system/camera/fake-pipeline2/Sensor.cpp:244-262 | If every cycle of a run starts after `t`, every capture of the run is stamped later than a capture at `t`. |
| Pipeline.CapturedTimesIncrease | tools/emulator/system/camera/fake-pipeline2/Sensor.cpp:244-262 | If cycle starts strictly increase, capture timestamps strictly increase. |
| Pipeline.PublishedTimesIncrease | tools/emulator/system/camera/fake-pipeline2/Sensor.cpp:244-331 | Suppose cycle starts strictly increase and the initial in-flight capture predates them. Then the timestamps the mailbox receives strictly increase. |
| Pipeline.DeliveredAtMostPublished | tools/emulator/system/camera/fake-pipeline2/Sensor.cpp:178-195 | Frames delivered plus a still-full slot never exceed publications plus an initially full slot. Frames may be dropped by overwriting, and a run delivers no more frames than it published. |
| Pipeline.CycleKeepsOrder | tools/emulator/system/camera/fake-pipeline2/Sensor.cpp:244-331 | A cycle moves the in-flight capture, the newest time the sensor held, into the mailbox and stamps its own capture later than that, so the times awaiting delivery stay in order. |
| Pipeline.OtherKeepsOrder | tools/emulator/system/camera/fake-pipeline2/Sensor.cpp:178-195 | A setter or a wait leaves the times awaiting delivery in order. A wait on a full slot delivers a time above the floor `lo`, and that time becomes the new floor, below the in-flight capture and every future stamp. |
| Pipeline.DeliveredAbove | tools/emulator/system/camera/fake-pipeline2/Sensor.cpp:178-331 | If the held times and the future stamps all lie above `lo` in order, every time the consumer receives lies above `lo` and the received times strictly increase. |
| Pipeline.DeliveredTimesIncrease | tools/emulator/system/camera/fake-pipeline2/Sensor.cpp:110-331 | From start-up, when cycle starts strictly increase, the times `waitForNewFrame` returns strictly increase. No frame is delivered twice and none out of order. |

## Left out

- Floating-point pixel maths (lines 272-275 and 291-302): total gain, noise variance, the float-to-`uint16_t` raw count, and black level plus noise. The model's frame holds each pixel's clamped electron count, which is the integer input to that stage.
- `sqrtf_approx` (lines 78-89), an IEEE bit trick, and the `std::rand` noise sample: floating point and randomness.
- The scene (`setExposureDuration`, `calculateScene`, `getPixelElectrons`): its code is not part of this model. It is the function parameter `Scene`, queried with the capture time, the exposure in nanoseconds (the float seconds conversion is left out), the pixel and the filter index.
- Pointer arithmetic on the destination buffer (`y * stride`, `*px++`, lines 281 and 304). A frame is a sequence of rows, and the stride is carried but not used for addressing.
- The per-row advance of `simulatedTime` (line 306): nothing reads it after the capture time is stored.
- Threads, mutexes and condition variables: the `run` call in `startUp`, `shutDown`, the blocking inside `waitForVSync` and `waitForNewFrame`, the signals at lines 234, 317 and 329, and the `nanosleep` retry loop. The model keeps their sequential state effects: VSync raised at stage 1 and cleared by `waitForVSync`, and the mailbox written and read. The `reltime` timeout of `waitForVSync` and its error return are folded into one input saying whether a cycle began during the wait.
- Readout.WaitForNewFrame: does not model a result published while the caller is blocked. That interleaving is a `Step` followed by this function. An empty slot is modelled as the timeout or error return (false, slot unchanged).
- Pipeline.DeliveredAtMostPublished: counts deliveries rather than matching each delivered timestamp to its publication; the order and uniqueness of delivered times are stated separately by Pipeline.DeliveredTimesIncrease.
- `nsecs_t` arithmetic is unbounded: wrap-around of the 64-bit time values and of `startRealTime + frameDuration` (signed plus unsigned) is not modelled, since real clock values are far from the limits.
- Fields the constructor leaves uninitialised (stride, clock origin, in-flight capture, mailbox time) start at 0 or null in the model.
- `kExposureTimeRange`, `kMaxRawValue`, `kBlackLevel`, the voltage constants and `kAvailableSensitivities`: they only feed the floating-point stage or are unused here.
- `EmulatedFakeCamera2.h`: device glue declarations. Its in-flight queue has no implementation among the modelled files.
- Logging (`ALOGV`/`ALOGE`).
