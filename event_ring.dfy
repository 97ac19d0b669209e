/** The interaction-event ring of the water manager, as values: a fixed number of
    slots, each (x, z, radius, age) with a start time, a write cursor and a dirty
    flag. The manager's class keeps the same state in arrays and fields, and its
    methods are proved against the functions here. */
module EventRing {
  import opened Common

  /** MAX_INTERACTION_EVENTS. */
  const Capacity: nat := 2

  /** A slot whose radius is negative is inactive; its age is parked at a sentinel. */
  const InactiveRadius: real := -1.0
  const InactiveAge: real := 999.0

  /** One Vector4 of event data: world x, world z, radius, age in seconds. */
  datatype EventSlot = EventSlot(x: real, z: real, radius: real, age: real)

  /** The slot value written at initialisation. */
  const InitialSlot: EventSlot := EventSlot(0.0, 0.0, InactiveRadius, InactiveAge)

  predicate IsLive(s: EventSlot)
  {
    s.radius >= 0.0
  }

  /** A request to start an event: a point on the surface, a radius and the clock. */
  datatype TriggerRequest = TriggerRequest(position: Vec3, radius: real, time: real)

  /** The slot a request writes: the surface x and z, the radius, age zero. */
  function SlotFor(q: TriggerRequest): EventSlot
  {
    EventSlot(q.position.x, q.position.z, q.radius, 0.0)
  }

  datatype RingState = RingState(slots: seq<EventSlot>, starts: seq<real>, next: nat, dirty: bool)

  ghost predicate WellFormed(r: RingState)
  {
    |r.slots| == Capacity && |r.starts| == Capacity && r.next < Capacity
  }

  // ---------------------------------------------------------------------------
  // Initialisation

  /** Every slot inactive, every start time one second beyond the lifetime in the
      past, dirty set; the cursor is left where it was. */
  function Initialized(r: RingState, now: real, maxTime: real): (r': RingState)
    ensures WellFormed(r) ==> WellFormed(r')
    ensures r'.next == r.next && r'.dirty && !AnyLive(r'.slots)
  {
    RingState(seq(Capacity, _ => InitialSlot), seq(Capacity, _ => now - (maxTime + 1.0)), r.next, true)
  }

  // ---------------------------------------------------------------------------
  // Triggering

  function Triggered(r: RingState, q: TriggerRequest): (r': RingState)
    requires WellFormed(r)
    ensures WellFormed(r')
  {
    RingState(r.slots[r.next := SlotFor(q)], r.starts[r.next := q.time], (r.next + 1) % Capacity, true)
  }

  /** The requests applied in order, oldest first. */
  function TriggerAll(r: RingState, qs: seq<TriggerRequest>): (r': RingState)
    requires WellFormed(r)
    ensures WellFormed(r')
    decreases |qs|
  {
    if qs == [] then r else Triggered(TriggerAll(r, qs[..|qs| - 1]), qs[|qs| - 1])
  }

  /** Applying one more request after a list is one more trigger. */
  lemma TriggerAllSnoc(r: RingState, qs: seq<TriggerRequest>, q: TriggerRequest)
    requires WellFormed(r)
    ensures TriggerAll(r, qs + [q]) == Triggered(TriggerAll(r, qs), q)
  {
    assert (qs + [q])[..|qs|] == qs;
  }

  /** A trigger writes exactly the cursor slot, with the request's position, radius,
      age 0 and start time; every other slot and start time is kept; the cursor moves
      on by one modulo the capacity; the flag becomes dirty. */
  lemma TriggerWritesOnlyCursorSlot(r: RingState, q: TriggerRequest)
    requires WellFormed(r)
    ensures var r' := Triggered(r, q);
      && r'.slots[r.next] == EventSlot(q.position.x, q.position.z, q.radius, 0.0)
      && r'.starts[r.next] == q.time
      && (forall i :: 0 <= i < Capacity && i != r.next ==> r'.slots[i] == r.slots[i] && r'.starts[i] == r.starts[i])
      && r'.next == (if r.next + 1 == Capacity then 0 else r.next + 1)
      && r'.dirty
  {
  }

  lemma ModStep(a: nat, n: nat)
    ensures ((a + n) % Capacity + 1) % Capacity == (a + n + 1) % Capacity
  {
  }

  lemma ModWrap(a: nat)
    requires a < Capacity
    ensures (a + Capacity) % Capacity == a
  {
  }

  /** After n triggers the cursor has advanced by n modulo the capacity. */
  lemma {:induction false} TriggerAllCursor(r: RingState, qs: seq<TriggerRequest>)
    requires WellFormed(r)
    ensures TriggerAll(r, qs).next == (r.next + |qs|) % Capacity
    decreases |qs|
  {
    if qs != [] {
      TriggerAllCursor(r, qs[..|qs| - 1]);
      ModStep(r.next, |qs| - 1);
    }
  }

  /** The ring keeps the latest `Capacity` requests: the j-th request of a run sits in
      slot (cursor + j) mod capacity unless a later request has come round to it. */
  lemma {:induction false} TriggerAllRetainsLatest(r: RingState, qs: seq<TriggerRequest>, j: nat)
    requires WellFormed(r)
    requires j < |qs| && |qs| - Capacity <= j
    ensures var r' := TriggerAll(r, qs);
      r'.slots[(r.next + j) % Capacity] == SlotFor(qs[j]) && r'.starts[(r.next + j) % Capacity] == qs[j].time
    decreases |qs|
  {
    var prefix := qs[..|qs| - 1];
    TriggerAllCursor(r, prefix);
    if j < |qs| - 1 {
      TriggerAllRetainsLatest(r, prefix, j);
      assert (r.next + j) % Capacity != (r.next + |qs| - 1) % Capacity;
    }
  }

  /** capacity + 1 triggers in a row evict the first: its slot now holds the last. */
  lemma OverflowEvictsOldest(r: RingState, qs: seq<TriggerRequest>)
    requires WellFormed(r)
    requires |qs| == Capacity + 1
    ensures TriggerAll(r, qs).slots[r.next] == SlotFor(qs[Capacity])
    ensures TriggerAll(r, qs).starts[r.next] == qs[Capacity].time
  {
    ModWrap(r.next);
    TriggerAllRetainsLatest(r, qs, Capacity);
  }

  // ---------------------------------------------------------------------------
  // Per-frame ageing

  /** A live slot takes its age from its start time and retires to the sentinel once
      that age reaches the lifetime; an inactive slot is left alone. */
  function AgeSlot(s: EventSlot, start: real, now: real, maxTime: real): (a: EventSlot)
    ensures a.x == s.x && a.z == s.z
    ensures !IsLive(s) ==> a == s
    ensures IsLive(a) <==> IsLive(s) && now - start < maxTime
    ensures IsLive(a) ==> a.radius == s.radius && a.age == now - start
    ensures IsLive(s) && !IsLive(a) ==> a.radius == InactiveRadius && a.age == InactiveAge
  {
    if !IsLive(s) then s
    else
      var aged := s.(age := now - start);
      if aged.age >= maxTime then aged.(radius := InactiveRadius, age := InactiveAge) else aged
  }

  /** Every slot aged; ageing never revives a slot, so nothing is live afterwards
      unless something was live before. */
  function AgeAll(slots: seq<EventSlot>, starts: seq<real>, now: real, maxTime: real): (r: seq<EventSlot>)
    requires |slots| == |starts|
    ensures |r| == |slots|
    ensures AnyLive(r) ==> AnyLive(slots)
  {
    seq(|slots|, i requires 0 <= i < |slots| => AgeSlot(slots[i], starts[i], now, maxTime))
  }

  predicate AnyLive(slots: seq<EventSlot>)
  {
    exists i :: 0 <= i < |slots| && IsLive(slots[i])
  }

  predicate StillActive(s: EventSlot, start: real, now: real, maxTime: real)
  {
    IsLive(s) && now - start < maxTime
  }

  predicate AnyStillActive(slots: seq<EventSlot>, starts: seq<real>, now: real, maxTime: real)
    requires |slots| == |starts|
  {
    exists i :: 0 <= i < |slots| && StillActive(slots[i], starts[i], now, maxTime)
  }

  /** One frame of Update: age every slot; the flag is set while any slot was live, and
      a set flag is then replaced by "some slot is still active". */
  function Advanced(r: RingState, now: real, maxTime: real): (r': RingState)
    requires WellFormed(r)
    ensures WellFormed(r')
    ensures r'.starts == r.starts && r'.next == r.next
    ensures AnyLive(r'.slots) ==> AnyLive(r.slots)
  {
    var flagged := r.dirty || AnyLive(r.slots);
    RingState(AgeAll(r.slots, r.starts, now, maxTime), r.starts, r.next,
              if flagged then AnyStillActive(r.slots, r.starts, now, maxTime) else r.dirty)
  }

  /** Whatever the flag was before, after a frame it is set exactly when some slot is
      still live, which is exactly when some slot was live and younger than the lifetime. */
  lemma AdvancedDirtyIffLive(r: RingState, now: real, maxTime: real)
    requires WellFormed(r)
    ensures Advanced(r, now, maxTime).dirty == AnyStillActive(r.slots, r.starts, now, maxTime)
    ensures Advanced(r, now, maxTime).dirty <==> AnyLive(Advanced(r, now, maxTime).slots)
  {
    var r' := Advanced(r, now, maxTime);
    if AnyStillActive(r.slots, r.starts, now, maxTime) {
      var i :| 0 <= i < |r.slots| && StillActive(r.slots[i], r.starts[i], now, maxTime);
      assert IsLive(r'.slots[i]);
    }
    if AnyLive(r'.slots) {
      var i :| 0 <= i < |r'.slots| && IsLive(r'.slots[i]);
      assert StillActive(r.slots[i], r.starts[i], now, maxTime);
    }
  }

  /** A frame touches nothing but the slots' radius and age and the flag. */
  lemma AdvancedKeepsRest(r: RingState, now: real, maxTime: real)
    requires WellFormed(r)
    ensures var r' := Advanced(r, now, maxTime);
      && r'.starts == r.starts && r'.next == r.next
      && forall i :: 0 <= i < Capacity ==> r'.slots[i].x == r.slots[i].x && r'.slots[i].z == r.slots[i].z
  {
  }

  /** While an event stays live its age grows strictly from frame to frame, and once it
      has retired a later frame does not revive it. */
  lemma AgeStrictlyIncreases(s: EventSlot, start: real, t1: real, t2: real, maxTime: real)
    requires t1 < t2
    ensures var a1 := AgeSlot(s, start, t1, maxTime);
      var a2 := AgeSlot(a1, start, t2, maxTime);
      (IsLive(a2) ==> IsLive(a1) && a1.age < a2.age) && (!IsLive(a1) ==> a2 == a1)
  {
  }

  /** Expiry happens exactly when the age reaches the lifetime, never before. */
  lemma ExpiresExactlyAtLifetime(s: EventSlot, start: real, now: real, maxTime: real)
    requires IsLive(s)
    ensures !IsLive(AgeSlot(s, start, now, maxTime)) <==> now - start >= maxTime
  {
  }

  /** A second frame at the same instant changes no slot and leaves the flag as the
      first frame left it. */
  lemma {:induction false} AdvanceIdempotentAtSameTime(r: RingState, now: real, maxTime: real)
    requires WellFormed(r)
    ensures Advanced(Advanced(r, now, maxTime), now, maxTime) == Advanced(r, now, maxTime)
  {
    var r1 := Advanced(r, now, maxTime);
    var r2 := Advanced(r1, now, maxTime);
    assert r2.slots == r1.slots by {
      forall i | 0 <= i < Capacity
        ensures r2.slots[i] == r1.slots[i]
      {
        var s, a := r.slots[i], r1.slots[i];
        if IsLive(a) {
          assert a == s.(age := now - r.starts[i]);
        }
      }
    }
    AdvancedDirtyIffLive(r, now, maxTime);
    AdvancedDirtyIffLive(r1, now, maxTime);
    if AnyLive(r1.slots) {
      var i :| 0 <= i < Capacity && IsLive(r1.slots[i]);
      assert IsLive(r2.slots[i]);
    }
  }

  /** Right after initialisation every slot is inactive with the initial value, every
      start time lies more than the lifetime in the past, the flag is set, and no later
      frame finds anything to age: the next frame clears the flag. */
  lemma InitializedIsQuiet(r: RingState, now: real, maxTime: real, later: real)
    requires WellFormed(r)
    ensures var r0 := Initialized(r, now, maxTime);
      && WellFormed(r0) && r0.dirty
      && (forall i :: 0 <= i < Capacity ==> r0.slots[i] == EventSlot(0.0, 0.0, -1.0, 999.0) && now - r0.starts[i] > maxTime)
      && Advanced(r0, later, maxTime).slots == r0.slots
      && !Advanced(r0, later, maxTime).dirty
  {
    var r0 := Initialized(r, now, maxTime);
    AdvancedDirtyIffLive(r0, later, maxTime);
  }

  /** Two events with lifetime 1.5 s, triggered at 0 s and 0.1 s into an initialised
      ring with cursor 0: at 1.0 s both are live with ages 1.0 and 0.9; at 1.55 s the
      first has retired and the second is live; at 1.6 s the second has reached
      exactly 1.5 s and has retired as well. */
  lemma TwoEventScenario(r: RingState, p1: Vec3, p2: Vec3)
    requires WellFormed(r) && r.next == 0
    ensures var r0 := Initialized(r, 0.0, 1.5);
      var r2 := TriggerAll(r0, [TriggerRequest(p1, 1.0, 0.0), TriggerRequest(p2, 1.0, 0.1)]);
      var a := Advanced(r2, 1.0, 1.5);
      var b := Advanced(a, 1.55, 1.5);
      var c := Advanced(b, 1.6, 1.5);
      && IsLive(a.slots[0]) && a.slots[0].age == 1.0
      && IsLive(a.slots[1]) && a.slots[1].age == 0.9
      && !IsLive(b.slots[0]) && IsLive(b.slots[1]) && b.dirty
      && !IsLive(c.slots[0]) && !IsLive(c.slots[1]) && !c.dirty
  {
    var r0 := Initialized(r, 0.0, 1.5);
    var qs := [TriggerRequest(p1, 1.0, 0.0), TriggerRequest(p2, 1.0, 0.1)];
    assert qs[..1][..0] == [];
    var r1 := Triggered(r0, qs[0]);
    assert TriggerAll(r0, qs[..1]) == r1;
    var r2 := TriggerAll(r0, qs);
    assert r2 == Triggered(r1, qs[1]);
    assert r2.starts == [0.0, 0.1];
    assert r2.slots == [SlotFor(qs[0]), SlotFor(qs[1])];
    var a := Advanced(r2, 1.0, 1.5);
    var b := Advanced(a, 1.55, 1.5);
    var c := Advanced(b, 1.6, 1.5);
    AdvancedDirtyIffLive(a, 1.55, 1.5);
    assert StillActive(a.slots[1], a.starts[1], 1.55, 1.5);
    AdvancedDirtyIffLive(b, 1.6, 1.5);
  }
}
