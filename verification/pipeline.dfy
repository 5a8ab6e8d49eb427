/**
 Runs of the sensor: an interleaving of controller calls, capture cycles and
 frame waits, one at a time. The lemmas here are the guarantees the sensor
 gives its callers across many cycles: every captured buffer is published
 once, in order and one cycle late; a buffer handed over once is captured at
 most once; timestamps grow with the cycle starts; and the mailbox never
 delivers a frame twice.
 */
module Pipeline {
  import opened SensorTypes
  import opened Timing
  import opened Controls
  import opened Readout
  import opened Engine

  /** One thing that happens to the sensor. */
  datatype Event =
    | SetExposure(ns: u64)
    | SetFrameLength(ns: u64)
    | SetGain(gain: u32)
    | SetBuffer(buffer: Option<BufferId>, stride: u32)
    | Cycle(start: Nanos)   // one capture cycle starting at this wall-clock time
    | WaitFrame             // a `waitForNewFrame` during which nothing is published
    | WaitVSync             // a `waitForVSync` during which no cycle starts

  function Apply(s: Sensor, e: Event): Sensor
  {
    match e
    case SetExposure(ns) => s.(controls := SetExposureTime(s.controls, ns))
    case SetFrameLength(ns) => s.(controls := SetFrameDuration(s.controls, ns))
    case SetGain(g) => s.(controls := SetSensitivity(s.controls, g))
    case SetBuffer(b, stride) => s.(controls := SetDestinationBuffer(s.controls, b, stride))
    case Cycle(start) => Advance(s, start)
    case WaitFrame => s.(mailbox := WaitForNewFrame(s.mailbox).mailbox)
    case WaitVSync => WaitForVSync(s, None).state
  }

  /** The capture an event starts: a cycle with a pending buffer. */
  function CaptureOf(s: Sensor, e: Event): seq<Capture>
  {
    if e.Cycle? && s.controls.nextBuffer.Some? then
      [Capture(s.controls.nextBuffer.value, CaptureTimestamp(e.start, s.startupTime))]
    else []
  }

  /** The publication an event makes: a cycle that carries a capture in. */
  function PublicationOf(s: Sensor, e: Event): seq<Capture>
  {
    if e.Cycle? then InFlight(s) else []
  }

  /** The frame time an event delivers: a wait on a full mailbox. */
  function DeliveryOf(s: Sensor, e: Event): seq<Nanos>
  {
    if e.WaitFrame? && s.mailbox.capturedBuffer.Some? then [s.mailbox.captureTime] else []
  }

  /** The buffer an event hands to the engine. */
  function SupplyOf(e: Event): seq<BufferId>
  {
    if e.SetBuffer? && e.buffer.Some? then [e.buffer.value] else []
  }

  function Run(s: Sensor, events: seq<Event>): Sensor
    decreases |events|
  {
    if |events| == 0 then s else Run(Apply(s, events[0]), events[1..])
  }

  function Captured(s: Sensor, events: seq<Event>): seq<Capture>
    decreases |events|
  {
    if |events| == 0 then [] else CaptureOf(s, events[0]) + Captured(Apply(s, events[0]), events[1..])
  }

  function Published(s: Sensor, events: seq<Event>): seq<Capture>
    decreases |events|
  {
    if |events| == 0 then [] else PublicationOf(s, events[0]) + Published(Apply(s, events[0]), events[1..])
  }

  function Delivered(s: Sensor, events: seq<Event>): seq<Nanos>
    decreases |events|
  {
    if |events| == 0 then [] else DeliveryOf(s, events[0]) + Delivered(Apply(s, events[0]), events[1..])
  }

  function Supplied(events: seq<Event>): seq<BufferId>
    decreases |events|
  {
    if |events| == 0 then [] else SupplyOf(events[0]) + Supplied(events[1..])
  }

  /** The wall-clock starts of the cycles of a run, in order. */
  function Starts(events: seq<Event>): seq<Nanos>
    decreases |events|
  {
    if |events| == 0 then [] else (if events[0].Cycle? then [events[0].start] else []) + Starts(events[1..])
  }

  function Pending(s: Sensor): seq<BufferId>
  {
    if s.controls.nextBuffer.Some? then [s.controls.nextBuffer.value] else []
  }

  function Buffers(cs: seq<Capture>): seq<BufferId>
  {
    seq(|cs|, i requires 0 <= i < |cs| => cs[i].buffer)
  }

  predicate Increasing(ts: seq<Nanos>)
  {
    forall i, j :: 0 <= i < j < |ts| ==> ts[i] < ts[j]
  }

  /** The timestamps of a list of captures, in order. */
  function Times(cs: seq<Capture>): (ts: seq<Nanos>)
    ensures |ts| == |cs| && forall i :: 0 <= i < |cs| ==> ts[i] == cs[i].time
  {
    seq(|cs|, i requires 0 <= i < |cs| => cs[i].time)
  }

  predicate TimesIncrease(cs: seq<Capture>)
  {
    Increasing(Times(cs))
  }

  /** The clock origin only changes at start-up, never during a run. */
  lemma {:induction false} RunKeepsStartup(s: Sensor, events: seq<Event>)
    ensures Run(s, events).startupTime == s.startupTime
    decreases |events|
  {
    if |events| > 0 {
      RunKeepsStartup(Apply(s, events[0]), events[1..]);
    }
  }

  /**
   Nothing lost, nothing duplicated, order kept: what a run publishes,
   followed by what it leaves in flight, is exactly what was in flight before
   it followed by what it captured, buffer and timestamp alike. So every
   capture is published one cycle after it was taken.
   */
  lemma {:induction false} PublishedFollowsCaptured(s: Sensor, events: seq<Event>)
    ensures Published(s, events) + InFlight(Run(s, events)) == InFlight(s) + Captured(s, events)
    decreases |events|
  {
    if |events| > 0 {
      var e := events[0];
      var s1 := Apply(s, e);
      PublishedFollowsCaptured(s1, events[1..]);
      assert PublicationOf(s, e) + InFlight(s1) == InFlight(s) + CaptureOf(s, e);
      calc {
        Published(s, events) + InFlight(Run(s, events));
        PublicationOf(s, e) + (Published(s1, events[1..]) + InFlight(Run(s1, events[1..])));
        PublicationOf(s, e) + (InFlight(s1) + Captured(s1, events[1..]));
        (PublicationOf(s, e) + InFlight(s1)) + Captured(s1, events[1..]);
        (InFlight(s) + CaptureOf(s, e)) + Captured(s1, events[1..]);
      }
    }
  }

  lemma BuffersAppend(a: seq<Capture>, b: seq<Capture>)
    ensures Buffers(a + b) == Buffers(a) + Buffers(b)
  {
  }

  /** One event either moves the pending buffer into a capture, replaces it, or leaves it. */
  lemma EventAtMostOnce(s: Sensor, e: Event)
    ensures multiset(Buffers(CaptureOf(s, e))) + multiset(Pending(Apply(s, e)))
            <= multiset(Pending(s)) + multiset(SupplyOf(e))
  {
    if e.Cycle? && s.controls.nextBuffer.Some? {
      assert Buffers(CaptureOf(s, e)) == Pending(s);
    }
  }

  /**
   A buffer handed over once is captured at most once: over any run, the
   captured buffers together with the one still pending are contained, as a
   multiset, in the one pending at the start together with those handed over.
   */
  lemma {:induction false} CapturedAtMostOnce(s: Sensor, events: seq<Event>)
    ensures multiset(Buffers(Captured(s, events))) + multiset(Pending(Run(s, events)))
            <= multiset(Pending(s)) + multiset(Supplied(events))
    decreases |events|
  {
    if |events| > 0 {
      var e := events[0];
      var s1 := Apply(s, e);
      CapturedAtMostOnce(s1, events[1..]);
      EventAtMostOnce(s, e);
      BuffersAppend(CaptureOf(s, e), Captured(s1, events[1..]));
      assert Run(s, events) == Run(s1, events[1..]);
      assert multiset(Buffers(Captured(s, events)))
          == multiset(Buffers(CaptureOf(s, e))) + multiset(Buffers(Captured(s1, events[1..])));
      assert multiset(Supplied(events)) == multiset(SupplyOf(e)) + multiset(Supplied(events[1..]));
      MultisetChain(multiset(Buffers(CaptureOf(s, e))), multiset(Buffers(Captured(s1, events[1..]))),
                    multiset(Pending(Run(s, events))), multiset(Pending(s1)), multiset(Pending(s)),
                    multiset(SupplyOf(e)), multiset(Supplied(events[1..])));
    }
  }

  /** Chaining two multiset inclusions through the middle term `mid`. */
  lemma MultisetChain<T>(head: multiset<T>, tail: multiset<T>, last: multiset<T>, mid: multiset<T>,
                         first: multiset<T>, given: multiset<T>, later: multiset<T>)
    requires tail + last <= mid + later
    requires head + mid <= first + given
    ensures head + tail + last <= first + (given + later)
  {
    forall x
      ensures (head + tail + last)[x] <= (first + (given + later))[x]
    {
      assert (tail + last)[x] <= (mid + later)[x];
      assert (head + mid)[x] <= (first + given)[x];
    }
  }

  /**
   Every capture of a run whose cycles all start after `t` is stamped later
   than a capture taken at `t` would be.
   */
  lemma {:induction false} CapturedAfter(s: Sensor, events: seq<Event>, t: Nanos)
    requires forall i :: 0 <= i < |Starts(events)| ==> t < Starts(events)[i]
    ensures forall i :: 0 <= i < |Captured(s, events)| ==>
              CaptureTimestamp(t, s.startupTime) < Captured(s, events)[i].time
    decreases |events|
  {
    if |events| > 0 {
      var e := events[0];
      var s1 := Apply(s, e);
      var rest := Starts(events[1..]);
      var k := if e.Cycle? then 1 else 0;
      assert Starts(events) == (if e.Cycle? then [e.start] else []) + rest;
      forall i | 0 <= i < |rest|
        ensures t < rest[i]
      {
        assert rest[i] == Starts(events)[i + k];
      }
      CapturedAfter(s1, events[1..], t);
      var head := CaptureOf(s, e);
      var tail := Captured(s1, events[1..]);
      if head != [] {
        assert Starts(events)[0] == e.start;
      }
      forall i | 0 <= i < |Captured(s, events)|
        ensures CaptureTimestamp(t, s.startupTime) < Captured(s, events)[i].time
      {
        if i < |head| {
          assert Captured(s, events)[i] == head[i];
        } else {
          assert Captured(s, events)[i] == tail[i - |head|];
        }
      }
    }
  }

  /** Joining two increasing lists, the first entirely earlier, keeps them increasing. */
  lemma ConcatTimesIncrease(a: seq<Capture>, b: seq<Capture>)
    requires TimesIncrease(a) && TimesIncrease(b)
    requires forall i, j :: 0 <= i < |a| && 0 <= j < |b| ==> a[i].time < b[j].time
    ensures TimesIncrease(a + b)
  {
    var ab := a + b;
    forall i, j | 0 <= i < j < |ab|
      ensures ab[i].time < ab[j].time
    {
      if j < |a| {
        assert ab[i] == a[i] && ab[j] == a[j];
      } else if i < |a| {
        assert ab[i] == a[i] && ab[j] == b[j - |a|];
      } else {
        assert ab[i] == b[i - |a|] && ab[j] == b[j - |a|];
      }
    }
  }

  /** When the cycles of a run start in increasing order, so do its capture timestamps. */
  lemma {:induction false} CapturedTimesIncrease(s: Sensor, events: seq<Event>)
    requires Increasing(Starts(events))
    ensures TimesIncrease(Captured(s, events))
    decreases |events|
  {
    if |events| > 0 {
      var e := events[0];
      var s1 := Apply(s, e);
      StartsTail(events);
      CapturedTimesIncrease(s1, events[1..]);
      if e.Cycle? {
        CapturedAfter(s1, events[1..], e.start);
      }
      ConcatTimesIncrease(CaptureOf(s, e), Captured(s1, events[1..]));
    }
  }

  /**
   The consumer sees capture times in increasing order: when the cycles start
   in increasing order and the capture in flight at the start of the run (if
   any) predates them, the run publishes with strictly increasing timestamps.
   */
  lemma PublishedTimesIncrease(s: Sensor, events: seq<Event>)
    requires Increasing(Starts(events))
    requires s.nextCapturedBuffer.Some? ==>
               forall i :: 0 <= i < |Starts(events)| ==>
                 s.nextCaptureTime < CaptureTimestamp(Starts(events)[i], s.startupTime)
    ensures TimesIncrease(Published(s, events))
  {
    PublishedFollowsCaptured(s, events);
    CapturedTimesIncrease(s, events);
    if s.nextCapturedBuffer.Some? {
      var t := s.nextCaptureTime - CaptureTimestamp(0, s.startupTime);
      assert forall i :: 0 <= i < |Starts(events)| ==> t < Starts(events)[i];
      CapturedAfter(s, events, t);
    }
    ConcatTimesIncrease(InFlight(s), Captured(s, events));
    var published := Published(s, events);
    var all := published + InFlight(Run(s, events));
    forall i, j | 0 <= i < j < |published|
      ensures published[i].time < published[j].time
    {
      assert published[i] == all[i] && published[j] == all[j];
    }
  }

  /**
   Frames are dropped, never duplicated: a run delivers at most as many
   frames as it publishes, plus one if the mailbox was full at its start.
   */
  lemma {:induction false} DeliveredAtMostPublished(s: Sensor, events: seq<Event>)
    ensures |Delivered(s, events)| + (if Run(s, events).mailbox.capturedBuffer.Some? then 1 else 0)
            <= |Published(s, events)| + (if s.mailbox.capturedBuffer.Some? then 1 else 0)
    decreases |events|
  {
    if |events| > 0 {
      DeliveredAtMostPublished(Apply(s, events[0]), events[1..]);
    }
  }

  /**
   The newest time the sensor holds: the capture in flight, else the full
   mailbox's capture, else `lo`.
   */
  function Latest(s: Sensor, lo: Nanos): Nanos
  {
    if s.nextCapturedBuffer.Some? then s.nextCaptureTime
    else if s.mailbox.capturedBuffer.Some? then s.mailbox.captureTime
    else lo
  }

  /**
   The times the sensor still holds for delivery lie above `lo`, oldest
   first: the full mailbox's time, then the in-flight capture's.
   */
  predicate StoredAbove(s: Sensor, lo: Nanos)
  {
    && (s.mailbox.capturedBuffer.Some? ==> lo < s.mailbox.captureTime)
    && (s.nextCapturedBuffer.Some? ==>
          (if s.mailbox.capturedBuffer.Some? then s.mailbox.captureTime else lo) < s.nextCaptureTime)
  }

  /** Cycles starting at `starts` stamp their captures later than `t`. */
  predicate StampsAfter(t: Nanos, startup: Nanos, starts: seq<Nanos>)
  {
    forall i :: 0 <= i < |starts| ==> t < CaptureTimestamp(starts[i], startup)
  }

  /**
   The times still to be delivered, oldest first, all lie above `lo`: the
   held ones, then the stamps of the cycles still to come.
   */
  predicate OrderedAbove(s: Sensor, lo: Nanos, events: seq<Event>)
  {
    StoredAbove(s, lo) && StampsAfter(Latest(s, lo), s.startupTime, Starts(events))
  }

  /** The cycle starts after the first event still increase, and follow a first cycle's start. */
  lemma StartsTail(events: seq<Event>)
    requires |events| > 0 && Increasing(Starts(events))
    ensures Increasing(Starts(events[1..]))
    ensures events[0].Cycle? ==>
              && Starts(events)[0] == events[0].start
              && forall i :: 0 <= i < |Starts(events[1..])| ==> events[0].start < Starts(events[1..])[i]
  {
    var rest := Starts(events[1..]);
    var head := if events[0].Cycle? then [events[0].start] else [];
    assert Starts(events) == head + rest;
    forall i, j | 0 <= i < j < |rest|
      ensures rest[i] < rest[j]
    {
      assert rest[i] == Starts(events)[i + |head|];
      assert rest[j] == Starts(events)[j + |head|];
    }
    if events[0].Cycle? {
      forall i | 0 <= i < |rest|
        ensures events[0].start < rest[i]
      {
        assert rest[i] == Starts(events)[i + 1];
        assert Starts(events)[0] == events[0].start;
      }
    }
  }

  /** A cycle publishes the oldest held time and stamps a newer one. */
  lemma CycleKeepsOrder(s: Sensor, lo: Nanos, start: Nanos, rest: seq<Nanos>)
    requires StoredAbove(s, lo)
    requires Latest(s, lo) < CaptureTimestamp(start, s.startupTime)
    requires forall i :: 0 <= i < |rest| ==> start < rest[i]
    ensures StoredAbove(Advance(s, start), lo)
    ensures StampsAfter(Latest(Advance(s, start), lo), s.startupTime, rest)
  {
    var s1 := Advance(s, start);
    assert Latest(s1, lo) <= CaptureTimestamp(start, s.startupTime);
    forall i | 0 <= i < |rest|
      ensures Latest(s1, lo) < CaptureTimestamp(rest[i], s.startupTime)
    {
      CaptureTimestampOrder(start, rest[i], s.startupTime);
    }
  }

  /**
   A setter or a wait holds on to the same newest time; a wait on a full
   mailbox delivers a time above `lo`, which becomes the new floor.
   */
  lemma OtherKeepsOrder(s: Sensor, lo: Nanos, e: Event)
    requires !e.Cycle? && StoredAbove(s, lo)
    ensures var d := DeliveryOf(s, e);
            var lo1 := if d == [] then lo else d[0];
            && StoredAbove(Apply(s, e), lo1)
            && Latest(Apply(s, e), lo1) == Latest(s, lo)
            && Apply(s, e).startupTime == s.startupTime
            && forall k :: 0 <= k < |d| ==> lo < d[k]
  {
  }

  /** One event keeps the times still to be delivered in order, above what it delivers. */
  lemma OrderedAboveStep(s: Sensor, lo: Nanos, events: seq<Event>)
    requires |events| > 0 && Increasing(Starts(events))
    requires OrderedAbove(s, lo, events)
    ensures var d := DeliveryOf(s, events[0]);
            OrderedAbove(Apply(s, events[0]), if d == [] then lo else d[0], events[1..])
    ensures forall k :: 0 <= k < |DeliveryOf(s, events[0])| ==> lo < DeliveryOf(s, events[0])[k]
  {
    var e := events[0];
    StartsTail(events);
    if e.Cycle? {
      assert DeliveryOf(s, e) == [];
      CycleKeepsOrder(s, lo, e.start, Starts(events[1..]));
    } else {
      assert Starts(events) == Starts(events[1..]);
      OtherKeepsOrder(s, lo, e);
    }
  }

  /**
   Every frame the consumer takes from a run whose state is ordered above
   `lo` is stamped later than `lo`, and the stamps strictly increase.
   */
  lemma {:induction false} DeliveredAbove(s: Sensor, lo: Nanos, events: seq<Event>)
    requires Increasing(Starts(events))
    requires OrderedAbove(s, lo, events)
    ensures Increasing(Delivered(s, events))
    ensures forall k :: 0 <= k < |Delivered(s, events)| ==> lo < Delivered(s, events)[k]
    decreases |events|
  {
    if |events| > 0 {
      var e := events[0];
      var head := DeliveryOf(s, e);
      var lo1 := if head == [] then lo else head[0];
      OrderedAboveStep(s, lo, events);
      StartsTail(events);
      DeliveredAbove(Apply(s, e), lo1, events[1..]);
      var tail := Delivered(Apply(s, e), events[1..]);
      var all := Delivered(s, events);
      assert all == head + tail;
      forall k | 0 <= k < |all|
        ensures lo < all[k]
      {
        if k < |head| { assert all[k] == head[k]; } else { assert all[k] == tail[k - |head|]; }
      }
      forall i, j | 0 <= i < j < |all|
        ensures all[i] < all[j]
      {
        if j < |head| {
          assert false;
        } else if i < |head| {
          assert all[i] == head[0] && all[j] == tail[j - |head|];
        } else {
          assert all[i] == tail[i - |head|] && all[j] == tail[j - |head|];
        }
      }
    }
  }

  /**
   From start-up on, the capture times `waitForNewFrame` returns strictly
   increase when the cycles start in increasing order: no frame is delivered
   twice and none out of order.
   */
  lemma DeliveredTimesIncrease(s: Sensor, now: Nanos, events: seq<Event>)
    requires Increasing(Starts(events))
    ensures Increasing(Delivered(StartUp(s, now), events))
  {
    var s0 := StartUp(s, now);
    var starts := Starts(events);
    var lo := if |starts| == 0 then 0 else CaptureTimestamp(starts[0], now) - 1;
    forall i | 0 <= i < |starts|
      ensures Latest(s0, lo) < CaptureTimestamp(starts[i], s0.startupTime)
    {
      if i > 0 {
        CaptureTimestampOrder(starts[0], starts[i], now);
      }
    }
    DeliveredAbove(s0, lo, events);
  }
}
