/**
 The one-slot readout mailbox between the capture loop and the frame
 consumer: the loop publishes a finished buffer and its capture time, the
 consumer takes the timestamp and empties the slot.
 */
module Readout {
  import opened SensorTypes

  /**
   The slot: the last published buffer, or `None` once consumed, and its
   capture time. Consuming clears only the buffer; the time stays behind.
   */
  datatype Mailbox = Mailbox(capturedBuffer: Option<BufferId>, captureTime: Nanos)

  /** A slot that has never held anything. */
  const kEmpty: Mailbox := Mailbox(None, 0)

  /**
   The readout-complete hand-off. It never waits for the slot to drain: an
   unconsumed result is overwritten.
   */
  function Publish(m: Mailbox, buffer: BufferId, time: Nanos): (r: Mailbox)
    ensures r.capturedBuffer == Some(buffer) && r.captureTime == time
  {
    Mailbox(Some(buffer), time)
  }

  /** What `waitForNewFrame` reports, and the slot it leaves behind. */
  datatype WaitResult = WaitResult(frameTime: Option<Nanos>, mailbox: Mailbox)

  /**
   `waitForNewFrame` when no publication arrives during the wait: a full slot
   yields its capture time and is emptied; an empty slot times out and stays
   as it was.
   */
  function WaitForNewFrame(m: Mailbox): (r: WaitResult)
    ensures r.frameTime.Some? <==> m.capturedBuffer.Some?
    ensures r.frameTime.Some? ==> r.frameTime.value == m.captureTime
    ensures r.frameTime.Some? ==> r.mailbox == m.(capturedBuffer := None)
    ensures r.frameTime.None? ==> r.mailbox == m
  {
    if m.capturedBuffer.Some? then
      WaitResult(Some(m.captureTime), m.(capturedBuffer := None))
    else
      WaitResult(None, m)
  }

  /** A publication is consumed by exactly one wait: the next one times out. */
  lemma PublishThenConsume(m: Mailbox, buffer: BufferId, time: Nanos)
    ensures WaitForNewFrame(Publish(m, buffer, time)).frameTime == Some(time)
    ensures WaitForNewFrame(WaitForNewFrame(Publish(m, buffer, time)).mailbox).frameTime == None
  {
  }

  /** Publishing again before consumption drops the earlier result. */
  lemma PublishOverwrites(m: Mailbox, b1: BufferId, t1: Nanos, b2: BufferId, t2: Nanos)
    ensures Publish(Publish(m, b1, t1), b2, t2) == Publish(m, b2, t2)
    ensures WaitForNewFrame(Publish(Publish(m, b1, t1), b2, t2)).frameTime == Some(t2)
  {
  }
}
