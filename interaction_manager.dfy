/** The water manager (WaterInteractionManagerOptimized): it owns the wave sets, the
    list of registered floating bodies and the interaction-event ring. Once per
    physics step it samples the waves under every body, lets the body apply its
    buoyancy and drag, and starts an interaction event for every body that dives in
    fast enough and is off cooldown; once per frame it ages the events and decides
    whether the event data has to be pushed again. The clock, the material, the
    bodies' world sample points and velocities, and the engine's trigonometry are
    parameters. */
module InteractionManager {
  import opened Common
  import opened EventRing
  import opened WaveField
  import opened PhysicsBody

  /** The event lifetime used when the material has no such property. */
  const DefaultMaxEffectTime: real := 1.5

  /** The water material, as far as the manager reads it: present or not, and its
      `_InteractionEffectMaxTime` property if it has one. */
  datatype WaterMaterial = WaterMaterial(interactionEffectMaxTime: Option<real>)

  function MaterialMaxTime(m: Option<WaterMaterial>): real
  {
    if m.Some? && m.value.interactionEffectMaxTime.Some? then m.value.interactionEffectMaxTime.value
    else DefaultMaxEffectTime
  }

  // ---------------------------------------------------------------------------
  // The registration list

  ghost predicate NoDuplicates<T>(s: seq<T>)
  {
    forall i, j :: 0 <= i < j < |s| ==> s[i] != s[j]
  }

  /** The position of the first occurrence of `x`. */
  function IndexOf<T(==)>(s: seq<T>, x: T): (i: nat)
    requires x in s
    ensures i < |s| && s[i] == x && x !in s[..i]
  {
    if s[0] == x then 0
    else
      var k := IndexOf(s[1..], x);
      assert s[..k + 1] == [s[0]] + s[1..][..k];
      k + 1
  }

  /** List.Add guarded by List.Contains. */
  function Registered<T(==)>(s: seq<T>, x: T): (r: seq<T>)
    ensures x in r && s <= r && |r| <= |s| + 1
  {
    if x in s then s else s + [x]
  }

  /** List.Remove: drop the first occurrence, if any. */
  function RemoveFirst<T(==)>(s: seq<T>, x: T): (r: seq<T>)
    ensures x in s ==> |r| == |s| - 1
    ensures x !in s ==> r == s
  {
    if x in s then var i := IndexOf(s, x); s[..i] + s[i + 1..] else s
  }

  /** Registering keeps the list free of duplicates, adds the body at the end when it
      is new, and leaves the list unchanged when it is already there. */
  lemma RegisteredSpec<T>(s: seq<T>, x: T)
    requires NoDuplicates(s)
    ensures var r := Registered(s, x);
      && NoDuplicates(r)
      && (x in s ==> r == s)
      && (x !in s ==> r == s + [x])
      && (forall y :: y in r <==> y in s || y == x)
  {
    var r := Registered(s, x);
    if x !in s {
      forall i, j | 0 <= i < j < |r|
        ensures r[i] != r[j]
      {
        if j == |s| {
          assert r[i] == s[i];
        }
      }
    }
  }

  /** On a duplicate-free list, unregistering removes the body altogether, keeps
      every other body, keeps their order and the list duplicate-free, and leaves
      the list unchanged when the body was not registered. */
  lemma {:induction false} RemoveFirstSpec<T>(s: seq<T>, x: T)
    requires NoDuplicates(s)
    ensures var r := RemoveFirst(s, x);
      && NoDuplicates(r)
      && x !in r
      && (forall y :: y in r <==> y in s && y != x)
      && (x !in s ==> r == s)
      && (x in s ==> |r| == |s| - 1 && exists i :: 0 <= i < |s| && s[i] == x && r == s[..i] + s[i + 1..])
  {
    if x in s {
      var i := IndexOf(s, x);
      var r := s[..i] + s[i + 1..];
      assert r == RemoveFirst(s, x);
      forall k | 0 <= k < |r|
        ensures r[k] == (if k < i then s[k] else s[k + 1])
      {
      }
      forall a, b | 0 <= a < b < |r|
        ensures r[a] != r[b]
      {
        var a' := if a < i then a else a + 1;
        var b' := if b < i then b else b + 1;
        assert r[a] == s[a'] && r[b] == s[b'] && a' < b';
      }
      forall k | 0 <= k < |r|
        ensures r[k] != x
      {
        var k' := if k < i then k else k + 1;
        assert r[k] == s[k'] && k' != i;
      }
      forall y | y in s && y != x
        ensures y in r
      {
        var k :| 0 <= k < |s| && s[k] == y;
        assert k != i;
        if k < i {
          assert r[k] == y;
        } else {
          assert r[k - 1] == y;
        }
      }
    }
  }

  // ---------------------------------------------------------------------------
  // The interaction trigger of one body in one physics step

  /** What the manager reads about a body from the engine in a step: whether its game
      object is active in the hierarchy, its world-space sample point, its velocity. */
  datatype BodyProbe = BodyProbe(activeInHierarchy: bool, samplePoint: Vec3, velocity: Vec3)

  /** A body takes part in a step only with a rigid body, enabled, and active. */
  predicate Usable(s: BodyState, p: BodyProbe)
  {
    s.enabled && s.hasRigidbody && p.activeInHierarchy
  }

  /** Deep enough, fast enough (vertically, or horizontally by the squared threshold),
      and strictly more than the cooldown since the body's last event. */
  predicate ShouldTrigger(s: BodyState, depth: real, velocity: Vec3, now: real)
  {
    && depth > s.depthThreshold
    && (Abs(velocity.y) > s.velocityThresholdY
        || velocity.x * velocity.x + velocity.z * velocity.z > s.velocityThresholdXZSqr)
    && now - s.lastInteractionEventTime > s.cooldown
  }

  /** Deeper, or later, never stops a body from firing. */
  lemma ShouldTriggerMonotone(s: BodyState, depth: real, velocity: Vec3, now: real, deeper: real, later: real)
    requires depth <= deeper && now <= later
    ensures ShouldTrigger(s, depth, velocity, now) ==> ShouldTrigger(s, deeper, velocity, later)
  {
  }

  /** The event a usable body asks for, if any: at its sample point shifted by the
      horizontal wave displacement, at the displaced surface height, with the body's
      interaction radius. */
  function RequestFor(s: BodyState, p: BodyProbe, waves: seq<WaveSettings>, baseY: real, now: real, trig: Trig): (q: Option<TriggerRequest>)
    ensures !Usable(s, p) ==> q.None?
    ensures q.Some? ==> q.value.radius == s.interactionRadius && q.value.time == now
  {
    if !Usable(s, p) then None
    else
      var d := WaveSum(waves, p.samplePoint.x, p.samplePoint.z, now, trig);
      var surfaceY := baseY + d.height;
      if ShouldTrigger(s, surfaceY - p.samplePoint.y, p.velocity, now) then
        Some(TriggerRequest(Vec3(p.samplePoint.x + d.horizontal.x, surfaceY, p.samplePoint.z + d.horizontal.y), s.interactionRadius, now))
      else None
  }

  /** The requests the first n bodies of a step make, in registration order. */
  function Requests(bodies: seq<BodySnapshot>, probes: seq<BodyProbe>, n: nat, waves: seq<WaveSettings>, baseY: real, now: real, trig: Trig): (qs: seq<TriggerRequest>)
    requires n <= |bodies| == |probes|
    ensures |qs| <= n
  {
    if n == 0 then []
    else
      var earlier := Requests(bodies, probes, n - 1, waves, baseY, now, trig);
      match RequestFor(bodies[n - 1].state, probes[n - 1], waves, baseY, now, trig)
      case Some(q) => earlier + [q]
      case None => earlier
  }

  /** The snapshots of a list of bodies. */
  ghost function Snapshots(bs: seq<WaterPhysicsBody>): (r: seq<BodySnapshot>)
    reads set b | b in bs
    ensures |r| == |bs|
  {
    if bs == [] then [] else Snapshots(bs[..|bs| - 1]) + [bs[|bs| - 1].Snapshot()]
  }

  /** The i-th snapshot is the snapshot of the i-th body. */
  lemma {:induction false} SnapshotsIndex(bs: seq<WaterPhysicsBody>)
    ensures forall i :: 0 <= i < |bs| ==> Snapshots(bs)[i] == bs[i].Snapshot()
    decreases |bs|
  {
    if bs != [] {
      SnapshotsIndex(bs[..|bs| - 1]);
    }
  }

  /** What one physics step does to one registered body. */
  datatype Outcome = Outcome(after: BodySnapshot, force: Option<AppliedForce>)

  /** A body that is not usable is left alone and applies no force; a usable one gets
      the buoyancy response at the displaced surface height, and its last-event time
      moves to the clock when it asks for an event. */
  function StepOutcome(b: BodySnapshot, p: BodyProbe, waves: seq<WaveSettings>, baseY: real, now: real, gravity: real, trig: Trig): (o: Outcome)
    requires b.state.checkRadius > 0.0
    ensures !Usable(b.state, p) ==> o == Outcome(b, None)
    ensures o.after.state == b.state.(lastInteractionEventTime := o.after.state.lastInteractionEventTime)
    ensures o.after.state.lastInteractionEventTime == (if RequestFor(b.state, p, waves, baseY, now, trig).Some? then now else b.state.lastInteractionEventTime)
  {
    if !Usable(b.state, p) then Outcome(b, None)
    else
      var resp := BuoyancyResponse(b.state, SurfaceY(waves, baseY, p, now, trig), p.samplePoint, gravity);
      var s := if RequestFor(b.state, p, waves, baseY, now, trig).Some? then b.state.(lastInteractionEventTime := now) else b.state;
      Outcome(BodySnapshot(s, resp.drag, resp.angularDrag), resp.force)
  }

  /** The body invariant of WaterPhysicsBody, on a snapshot. */
  predicate SnapshotValid(b: BodySnapshot)
  {
    b.state.checkRadius >= MinCheckRadius && b.state.volume >= MinVolume
  }

  predicate AllValid(bodies: seq<BodySnapshot>)
  {
    forall j :: 0 <= j < |bodies| ==> SnapshotValid(bodies[j])
  }

  /** The bodies after the first n of them have taken their step. */
  function StepAll(bodies: seq<BodySnapshot>, probes: seq<BodyProbe>, n: nat, waves: seq<WaveSettings>, baseY: real, now: real, gravity: real, trig: Trig): (r: seq<BodySnapshot>)
    requires n <= |bodies| == |probes| && AllValid(bodies)
    ensures |r| == |bodies|
  {
    if n == 0 then bodies
    else StepAll(bodies, probes, n - 1, waves, baseY, now, gravity, trig)[n - 1 := StepOutcome(bodies[n - 1], probes[n - 1], waves, baseY, now, gravity, trig).after]
  }

  /** The forces the first n bodies apply. */
  function ForcesOf(bodies: seq<BodySnapshot>, probes: seq<BodyProbe>, n: nat, waves: seq<WaveSettings>, baseY: real, now: real, gravity: real, trig: Trig): (r: seq<Option<AppliedForce>>)
    requires n <= |bodies| == |probes| && AllValid(bodies)
    ensures |r| == n
  {
    if n == 0 then []
    else ForcesOf(bodies, probes, n - 1, waves, baseY, now, gravity, trig) + [StepOutcome(bodies[n - 1], probes[n - 1], waves, baseY, now, gravity, trig).force]
  }

  /** After n steps every one of the first n bodies holds its own outcome, whatever the
      others did, and the rest are untouched. */
  lemma {:induction false} StepAllIndex(bodies: seq<BodySnapshot>, probes: seq<BodyProbe>, n: nat, waves: seq<WaveSettings>, baseY: real, now: real, gravity: real, trig: Trig)
    requires n <= |bodies| == |probes| && AllValid(bodies)
    ensures forall j :: 0 <= j < |bodies| ==>
      StepAll(bodies, probes, n, waves, baseY, now, gravity, trig)[j]
        == if j < n then StepOutcome(bodies[j], probes[j], waves, baseY, now, gravity, trig).after else bodies[j]
  {
    if n > 0 {
      StepAllIndex(bodies, probes, n - 1, waves, baseY, now, gravity, trig);
      var prev := StepAll(bodies, probes, n - 1, waves, baseY, now, gravity, trig);
      var r := StepAll(bodies, probes, n, waves, baseY, now, gravity, trig);
      assert r == prev[n - 1 := StepOutcome(bodies[n - 1], probes[n - 1], waves, baseY, now, gravity, trig).after];
    }
  }

  /** The j-th force is the j-th body's own outcome. */
  lemma {:induction false} ForcesOfIndex(bodies: seq<BodySnapshot>, probes: seq<BodyProbe>, n: nat, waves: seq<WaveSettings>, baseY: real, now: real, gravity: real, trig: Trig)
    requires n <= |bodies| == |probes| && AllValid(bodies)
    ensures forall j :: 0 <= j < n ==>
      ForcesOf(bodies, probes, n, waves, baseY, now, gravity, trig)[j] == StepOutcome(bodies[j], probes[j], waves, baseY, now, gravity, trig).force
  {
    if n > 0 {
      ForcesOfIndex(bodies, probes, n - 1, waves, baseY, now, gravity, trig);
      var prev := ForcesOf(bodies, probes, n - 1, waves, baseY, now, gravity, trig);
      var r := ForcesOf(bodies, probes, n, waves, baseY, now, gravity, trig);
      assert r == prev + [StepOutcome(bodies[n - 1], probes[n - 1], waves, baseY, now, gravity, trig).force];
      forall j | 0 <= j < n - 1
        ensures r[j] == StepOutcome(bodies[j], probes[j], waves, baseY, now, gravity, trig).force
      {
        assert r[j] == prev[j];
      }
    }
  }

  /** One more body stepped: its new snapshot, its force and the event it may raise
      extend the three accumulated results by exactly that body's outcome. */
  lemma StepInvariant(snaps: seq<BodySnapshot>, probes: seq<BodyProbe>, i: nat, waves: seq<WaveSettings>, baseY: real, now: real, gravity: real, trig: Trig,
                      ring0: RingState, before: seq<BodySnapshot>, after: seq<BodySnapshot>, forces: seq<Option<AppliedForce>>, force: Option<AppliedForce>,
                      ringBefore: RingState, ringAfter: RingState)
    requires i < |snaps| == |probes| && AllValid(snaps) && WellFormed(ring0)
    requires before == StepAll(snaps, probes, i, waves, baseY, now, gravity, trig) && AllValid(before)
    requires forces == ForcesOf(snaps, probes, i, waves, baseY, now, gravity, trig)
    requires ringBefore == TriggerAll(ring0, Requests(snaps, probes, i, waves, baseY, now, trig))
    requires var o := StepOutcome(before[i], probes[i], waves, baseY, now, gravity, trig);
      after == before[i := o.after] && force == o.force
    requires var q := RequestFor(before[i].state, probes[i], waves, baseY, now, trig);
      ringAfter == (if q.Some? then Triggered(ringBefore, q.value) else ringBefore)
    ensures after == StepAll(snaps, probes, i + 1, waves, baseY, now, gravity, trig)
    ensures forces + [force] == ForcesOf(snaps, probes, i + 1, waves, baseY, now, gravity, trig)
    ensures ringAfter == TriggerAll(ring0, Requests(snaps, probes, i + 1, waves, baseY, now, trig))
  {
    StepAllIndex(snaps, probes, i, waves, baseY, now, gravity, trig);
    var q := RequestFor(snaps[i].state, probes[i], waves, baseY, now, trig);
    if q.Some? {
      TriggerAllSnoc(ring0, Requests(snaps, probes, i, waves, baseY, now, trig), q.value);
    }
  }

  /** The surface height the body at probe `p` sees. */
  function SurfaceY(waves: seq<WaveSettings>, baseY: real, p: BodyProbe, now: real, trig: Trig): real
  {
    baseY + WaveSum(waves, p.samplePoint.x, p.samplePoint.z, now, trig).height
  }

  /** The cooldown test is strict: exactly `cooldown` seconds after the last event the
      body does not fire, and right after firing (last time = now) it cannot fire
      again until more than the cooldown has passed. */
  lemma CooldownIsStrict(s: BodyState, depth: real, velocity: Vec3, now: real)
    ensures now - s.lastInteractionEventTime <= s.cooldown ==> !ShouldTrigger(s, depth, velocity, now)
    ensures forall t :: t - now <= s.cooldown ==> !ShouldTrigger(s.(lastInteractionEventTime := now), depth, velocity, t)
  {
  }

  /** With thresholds met, a body whose last event was 0.01 s short of the cooldown
      ago does not fire, and one whose last event was 0.01 s beyond it does. */
  lemma CooldownScenario(s: BodyState, depth: real, velocity: Vec3, now: real)
    requires depth > s.depthThreshold && Abs(velocity.y) > s.velocityThresholdY
    ensures !ShouldTrigger(s.(lastInteractionEventTime := now - (s.cooldown - 0.01)), depth, velocity, now)
    ensures ShouldTrigger(s.(lastInteractionEventTime := now - (s.cooldown + 0.01)), depth, velocity, now)
  {
  }

  /** A fresh body (last event at -100 s, cooldown 0.3 s) passes the cooldown test at
      any time from 0 on, so its first qualifying contact fires. */
  lemma FirstContactPassesCooldown(s: BodyState, depth: real, velocity: Vec3, now: real)
    requires s.lastInteractionEventTime == InitialLastInteraction && s.cooldown == DefaultCooldown
    requires now >= 0.0
    ensures ShouldTrigger(s, depth, velocity, now) <==>
      depth > s.depthThreshold
      && (Abs(velocity.y) > s.velocityThresholdY || velocity.x * velocity.x + velocity.z * velocity.z > s.velocityThresholdXZSqr)
  {
  }

  /** A body asks for an event exactly when it is usable and passes the trigger test
      at the displaced surface; the event then sits on that surface. */
  lemma RequestForSpec(s: BodyState, p: BodyProbe, waves: seq<WaveSettings>, baseY: real, now: real, trig: Trig)
    ensures var q := RequestFor(s, p, waves, baseY, now, trig);
      var surfaceY := SurfaceY(waves, baseY, p, now, trig);
      && (q.Some? <==> Usable(s, p) && ShouldTrigger(s, surfaceY - p.samplePoint.y, p.velocity, now))
      && (q.Some? ==> q.value.position.y == surfaceY && q.value.radius == s.interactionRadius && q.value.time == now)
      && (q.Some? ==> var d := WaveSum(waves, p.samplePoint.x, p.samplePoint.z, now, trig);
            q.value.position.x == p.samplePoint.x + d.horizontal.x && q.value.position.z == p.samplePoint.z + d.horizontal.y)
  {
  }

  // ---------------------------------------------------------------------------
  // The manager

  class WaterInteractionManager {
    const material: Option<WaterMaterial>
    var enabled: bool
    var waterBaseLevelY: real
    var waveSettings: array<WaveSettings>
    /** interactionEventsShaderData and interactionEventStartTimes. */
    var eventData: array<EventSlot>
    var eventStartTimes: array<real>
    var nextEventIndex: nat
    var eventsDirty: bool
    var cachedMaxEffectTime: real
    var physicsBodies: seq<WaterPhysicsBody>

    ghost predicate Valid()
      reads this
    {
      && waveSettings.Length == NumWaveSets
      && eventData.Length == Capacity
      && eventStartTimes.Length == Capacity
      && nextEventIndex < Capacity
      && NoDuplicates(physicsBodies)
    }

    /** The event ring held in the two arrays and the two fields. */
    ghost function Ring(): RingState
      reads this, eventData, eventStartTimes
    {
      RingState(eventData[..], eventStartTimes[..], nextEventIndex, eventsDirty)
    }

    /** The field initialisers, with the inspector's wave sets: zeroed event data,
        cursor 0, dirty set, no bodies. */
    constructor (material: Option<WaterMaterial>, waterBaseLevelY: real, waves: seq<WaveSettings>)
      requires |waves| == NumWaveSets
      ensures Valid() && fresh(waveSettings) && fresh(eventData) && fresh(eventStartTimes)
      ensures this.material == material && enabled && this.waterBaseLevelY == waterBaseLevelY
      ensures waveSettings[..] == waves
      ensures Ring() == RingState(seq(Capacity, _ => EventSlot(0.0, 0.0, 0.0, 0.0)), seq(Capacity, _ => 0.0), 0, true)
      ensures cachedMaxEffectTime == 0.0 && physicsBodies == []
    {
      this.material := material;
      enabled := true;
      this.waterBaseLevelY := waterBaseLevelY;
      waveSettings := new WaveSettings[NumWaveSets](i requires 0 <= i < NumWaveSets => waves[i]);
      eventData := new EventSlot[Capacity](_ => EventSlot(0.0, 0.0, 0.0, 0.0));
      eventStartTimes := new real[Capacity](_ => 0.0);
      nextEventIndex := 0;
      eventsDirty := true;
      cachedMaxEffectTime := 0.0;
      physicsBodies := [];
      new;
      assert waveSettings[..] == waves;
    }

    /** Awake: without a material the manager disables itself; otherwise it clears the
        event ring, derives the wave parameters and caches the event lifetime. */
    method Awake(now: real, trig: Trig)
      requires Valid()
      modifies this`enabled, this`eventsDirty, this`cachedMaxEffectTime, eventData, eventStartTimes, waveSettings
      ensures Valid()
      ensures material.None? ==>
        && !enabled && Ring() == old(Ring()) && waveSettings[..] == old(waveSettings[..])
        && cachedMaxEffectTime == old(cachedMaxEffectTime)
      ensures material.Some? ==>
        && enabled == old(enabled)
        && Ring() == Initialized(old(Ring()), now, MaterialMaxTime(material))
        && waveSettings[..] == DeriveAll(old(waveSettings[..]), trig)
        && cachedMaxEffectTime == MaterialMaxTime(material)
    {
      if material.None? {
        enabled := false;
        return;
      }
      InitializeShaderEventData(now);
      PrecomputeAndUpdateWaveParams(trig);
      if material.value.interactionEffectMaxTime.Some? {
        cachedMaxEffectTime := material.value.interactionEffectMaxTime.value;
      } else {
        cachedMaxEffectTime := DefaultMaxEffectTime;
      }
    }

    /** InitializeShaderEventData: every slot inactive at (0, 0, -1, 999), every start
        time one second beyond the lifetime in the past, dirty set. */
    method InitializeShaderEventData(now: real)
      requires Valid()
      modifies eventData, eventStartTimes, this`eventsDirty
      ensures Valid()
      ensures Ring() == Initialized(old(Ring()), now, MaterialMaxTime(material))
    {
      var interactionMaxTime := DefaultMaxEffectTime;
      if material.Some? && material.value.interactionEffectMaxTime.Some? {
        interactionMaxTime := material.value.interactionEffectMaxTime.value;
      }
      for i := 0 to Capacity
        invariant forall j :: 0 <= j < i ==> eventData[j] == InitialSlot
        invariant forall j :: 0 <= j < i ==> eventStartTimes[j] == now - (interactionMaxTime + 1.0)
      {
        eventData[i] := EventSlot(0.0, 0.0, -1.0, 999.0);
        eventStartTimes[i] := now - (interactionMaxTime + 1.0);
      }
      eventsDirty := true;
    }

    /** PrecomputeAndUpdateWaveParams: with a material, every wave set gets its
        wavenumber and normalised direction recomputed; without one nothing changes. */
    method PrecomputeAndUpdateWaveParams(trig: Trig)
      requires Valid()
      modifies waveSettings
      ensures waveSettings[..] == if material.Some? then DeriveAll(old(waveSettings[..]), trig) else old(waveSettings[..])
    {
      if material.None? {
        return;
      }
      for i := 0 to NumWaveSets
        invariant forall j :: 0 <= j < i ==> waveSettings[j] == Derive(old(waveSettings[j]), trig)
        invariant forall j :: i <= j < NumWaveSets ==> waveSettings[j] == old(waveSettings[j])
      {
        var w := waveSettings[i];
        var dir := if SqrMagnitude(w.direction) > MinDirectionSqr then trig.normalize(w.direction) else Right2;
        var k := if w.wavelength <= MinWavelength then 0.0 else (2.0 * Pi) / w.wavelength;
        waveSettings[i] := w.(normalizedDirection := dir, wavenumber := k);
      }
    }

    /** RegisterPhysicsBody: add the body unless it is already in the list. */
    method RegisterPhysicsBody(body: WaterPhysicsBody)
      requires Valid()
      modifies this`physicsBodies
      ensures Valid()
      ensures physicsBodies == Registered(old(physicsBodies), body)
    {
      RegisteredSpec(physicsBodies, body);
      if body !in physicsBodies {
        physicsBodies := physicsBodies + [body];
      }
    }

    /** UnregisterPhysicsBody: remove the body's (first, and only) occurrence. */
    method UnregisterPhysicsBody(body: WaterPhysicsBody)
      requires Valid()
      modifies this`physicsBodies
      ensures Valid()
      ensures physicsBodies == RemoveFirst(old(physicsBodies), body)
      ensures body !in physicsBodies
    {
      RemoveFirstSpec(physicsBodies, body);
      if body in physicsBodies {
        var i := IndexOf(physicsBodies, body);
        physicsBodies := physicsBodies[..i] + physicsBodies[i + 1..];
      }
    }

    /** Update, once per frame: age the live slots, retire the ones that reached the
        lifetime, and recompute the dirty flag. Without a material nothing happens. */
    method Update(now: real)
      requires Valid()
      modifies eventData, this`eventsDirty
      ensures Valid()
      ensures Ring() == if material.Some? then Advanced(old(Ring()), now, cachedMaxEffectTime) else old(Ring())
    {
      if material.None? {
        return;
      }
      ghost var before := eventData[..];
      var anyEventActuallyActive := false;
      for i := 0 to Capacity
        invariant forall j :: 0 <= j < i ==> eventData[j] == AgeSlot(before[j], eventStartTimes[j], now, cachedMaxEffectTime)
        invariant forall j :: i <= j < Capacity ==> eventData[j] == before[j]
        invariant eventsDirty == (old(eventsDirty) || exists j :: 0 <= j < i && IsLive(before[j]))
        invariant anyEventActuallyActive == exists j :: 0 <= j < i && StillActive(before[j], eventStartTimes[j], now, cachedMaxEffectTime)
      {
        if eventData[i].radius >= 0.0 {
          var timeAlive := now - eventStartTimes[i];
          eventData[i] := eventData[i].(age := timeAlive);
          if timeAlive >= cachedMaxEffectTime {
            eventData[i] := eventData[i].(radius := InactiveRadius, age := InactiveAge);
          } else {
            anyEventActuallyActive := true;
          }
          eventsDirty := true;
        }
      }
      if eventsDirty {
        eventsDirty := anyEventActuallyActive;
      }
      assert eventData[..] == AgeAll(before, eventStartTimes[..], now, cachedMaxEffectTime);
    }

    /** TriggerInteractionEvent: overwrite the cursor slot with the surface point's x
        and z, the radius and age 0, stamp it with the clock, set the dirty flag and
        move the cursor on. */
    method TriggerInteractionEvent(worldPosOnSurface: Vec3, radius: real, now: real)
      requires Valid()
      modifies eventData, eventStartTimes, this`nextEventIndex, this`eventsDirty
      ensures Valid()
      ensures Ring() == Triggered(old(Ring()), TriggerRequest(worldPosOnSurface, radius, now))
    {
      eventData[nextEventIndex] := EventSlot(worldPosOnSurface.x, worldPosOnSurface.z, radius, 0.0);
      eventStartTimes[nextEventIndex] := now;
      eventsDirty := true;
      nextEventIndex := (nextEventIndex + 1) % Capacity;
    }

    /** FixedUpdate: for every registered body, in order, that has a rigid body, is
        enabled and is active: sample the waves under its sample point, let it apply
        its buoyancy and drag at the displaced surface height, and start an event
        (stamping the body) when it passes the trigger test. Returns the force each
        body applies, None for a body that was passed over. */
    method FixedUpdate(now: real, gravity: real, probes: seq<BodyProbe>, trig: Trig) returns (forces: seq<Option<AppliedForce>>)
      requires Valid()
      requires |probes| == |physicsBodies|
      requires AllValid(Snapshots(physicsBodies))
      modifies eventData, eventStartTimes, this`nextEventIndex, this`eventsDirty
      modifies set b | b in physicsBodies
      ensures Valid() && physicsBodies == old(physicsBodies)
      ensures AllValid(Snapshots(physicsBodies))
      ensures Ring() == TriggerAll(old(Ring()), Requests(old(Snapshots(physicsBodies)), probes, |probes|, waveSettings[..], waterBaseLevelY, now, trig))
      ensures Snapshots(physicsBodies) == StepAll(old(Snapshots(physicsBodies)), probes, |probes|, waveSettings[..], waterBaseLevelY, now, gravity, trig)
      ensures forces == ForcesOf(old(Snapshots(physicsBodies)), probes, |probes|, waveSettings[..], waterBaseLevelY, now, gravity, trig)
    {
      ghost var snaps := Snapshots(physicsBodies);
      ghost var waves := waveSettings[..];
      ghost var baseY := waterBaseLevelY;
      ghost var ring0 := Ring();
      forces := [];
      assert AllValid(snaps) && WellFormed(ring0);
      var bodyCount := |physicsBodies|;
      for i := 0 to bodyCount
        invariant Valid() && physicsBodies == old(physicsBodies)
        invariant waveSettings[..] == waves && waterBaseLevelY == baseY
        invariant AllValid(Snapshots(physicsBodies))
        invariant Snapshots(physicsBodies) == StepAll(snaps, probes, i, waves, baseY, now, gravity, trig)
        invariant forces == ForcesOf(snaps, probes, i, waves, baseY, now, gravity, trig)
        invariant Ring() == TriggerAll(ring0, Requests(snaps, probes, i, waves, baseY, now, trig))
      {
        var force := StepAt(i, probes, now, gravity, trig, snaps, waves, baseY, ring0, forces);
        forces := forces + [force];
      }
    }

    /** One pass of FixedUpdate's loop, on the body at position i, stated over the
        whole list of bodies. */
    method StepAt(i: nat, probes: seq<BodyProbe>, now: real, gravity: real, trig: Trig,
                  ghost snaps: seq<BodySnapshot>, ghost waves: seq<WaveSettings>, ghost baseY: real, ghost ring0: RingState,
                  ghost forces: seq<Option<AppliedForce>>)
      returns (force: Option<AppliedForce>)
      requires Valid() && i < |physicsBodies| == |probes| == |snaps| && AllValid(snaps) && WellFormed(ring0)
      requires waveSettings[..] == waves && waterBaseLevelY == baseY
      requires AllValid(Snapshots(physicsBodies))
      requires Snapshots(physicsBodies) == StepAll(snaps, probes, i, waves, baseY, now, gravity, trig)
      requires forces == ForcesOf(snaps, probes, i, waves, baseY, now, gravity, trig)
      requires Ring() == TriggerAll(ring0, Requests(snaps, probes, i, waves, baseY, now, trig))
      modifies eventData, eventStartTimes, this`nextEventIndex, this`eventsDirty
      modifies set b | b in physicsBodies
      ensures Valid() && physicsBodies == old(physicsBodies)
      ensures waveSettings[..] == waves && waterBaseLevelY == baseY
      ensures AllValid(Snapshots(physicsBodies))
      ensures Snapshots(physicsBodies) == StepAll(snaps, probes, i + 1, waves, baseY, now, gravity, trig)
      ensures forces + [force] == ForcesOf(snaps, probes, i + 1, waves, baseY, now, gravity, trig)
      ensures Ring() == TriggerAll(ring0, Requests(snaps, probes, i + 1, waves, baseY, now, trig))
    {
      SnapshotsIndex(physicsBodies);
      assert forall j :: 0 <= j < |physicsBodies| && j != i ==> physicsBodies[j] != physicsBodies[i];
      force := StepBody(physicsBodies[i], probes[i], now, gravity, trig, waves, baseY);
      assert forall j :: 0 <= j < |physicsBodies| && j != i ==> physicsBodies[j].Snapshot() == old(physicsBodies[j].Snapshot());
      SnapshotsIndex(physicsBodies);
      StepInvariant(snaps, probes, i, waves, baseY, now, gravity, trig, ring0, old(Snapshots(physicsBodies)), Snapshots(physicsBodies), forces, force, old(Ring()), Ring());
    }

    /** What FixedUpdate does for one registered body, stated on that body alone. */
    method StepBody(body: WaterPhysicsBody, probe: BodyProbe, now: real, gravity: real, trig: Trig, ghost waves: seq<WaveSettings>, ghost baseY: real)
      returns (force: Option<AppliedForce>)
      requires Valid() && body.Valid()
      requires waveSettings[..] == waves && waterBaseLevelY == baseY
      modifies eventData, eventStartTimes, this`nextEventIndex, this`eventsDirty
      modifies body`drag, body`angularDrag, body`lastInteractionEventTime
      ensures Valid() && body.Valid()
      ensures waveSettings[..] == waves && waterBaseLevelY == baseY
      ensures var q := RequestFor(old(body.State()), probe, waves, baseY, now, trig);
        Ring() == (if q.Some? then Triggered(old(Ring()), q.value) else old(Ring()))
      ensures var o := StepOutcome(old(body.Snapshot()), probe, waves, baseY, now, gravity, trig);
        body.Snapshot() == o.after && force == o.force
    {
      ghost var s0 := body.State();
      if body.hasRigidbody && probe.activeInHierarchy && body.enabled {
        var samplePointWorld := probe.samplePoint;
        var waveHeightOffset, waveXZDisp := GetWaveDisplacementAtWorldPos(samplePointWorld.x, samplePointWorld.z, now, trig);
        ghost var d := WaveSum(waves, samplePointWorld.x, samplePointWorld.z, now, trig);
        assert waveHeightOffset == d.height && waveXZDisp == d.horizontal;
        var currentWaterSurfaceY := waterBaseLevelY + waveHeightOffset;
        assert currentWaterSurfaceY == SurfaceY(waves, baseY, probe, now, trig);
        force := body.ApplyBuoyancyAndDrag(currentWaterSurfaceY, samplePointWorld, gravity);
        ghost var resp := BuoyancyResponse(s0, currentWaterSurfaceY, samplePointWorld, gravity);
        ghost var q := RequestFor(s0, probe, waves, baseY, now, trig);
        var velocity := probe.velocity;
        var pointDepthFromDynamicSurface := currentWaterSurfaceY - samplePointWorld.y;
        if pointDepthFromDynamicSurface > body.interactionDepthThreshold
           && (Abs(velocity.y) > body.interactionVelocityThresholdY
               || velocity.x * velocity.x + velocity.z * velocity.z > body.interactionVelocityThresholdXZSqr)
           && now - body.lastInteractionEventTime > body.interactionCooldown
        {
          assert q == Some(TriggerRequest(Vec3(samplePointWorld.x + waveXZDisp.x, currentWaterSurfaceY, samplePointWorld.z + waveXZDisp.y),
                                          s0.interactionRadius, now));
          TriggerInteractionEvent(Vec3(samplePointWorld.x + waveXZDisp.x, currentWaterSurfaceY, samplePointWorld.z + waveXZDisp.y),
                                  body.interactionRadius, now);
          body.lastInteractionEventTime := now;
          assert body.State() == s0.(lastInteractionEventTime := now);
        } else {
          assert q.None?;
          assert body.State() == s0;
        }
        assert body.drag == resp.drag && body.angularDrag == resp.angularDrag && force == resp.force;
      } else {
        force := None;
      }
    }

    /** GetWaveDisplacementAtWorldPos: the height and horizontal displacement of the
        surface at world (x, z), summed over the wave sets (the array holds NumWaveSets
        of them whenever Valid() holds). */
    method GetWaveDisplacementAtWorldPos(worldX: real, worldZ: real, time: real, trig: Trig) returns (totalYDisp: real, totalXZDisp: Vec2)
      ensures Displacement(totalYDisp, totalXZDisp) == WaveSum(waveSettings[..], worldX, worldZ, time, trig)
    {
      totalYDisp := 0.0;
      totalXZDisp := Zero2;
      for i := 0 to waveSettings.Length
        invariant Displacement(totalYDisp, totalXZDisp) == PrefixSum(waveSettings[..], i, worldX, worldZ, time, trig)
      {
        var w := waveSettings[i];
        if w.amplitude == 0.0 || w.wavenumber == 0.0 {
          continue;
        }
        var angle := Phase(w, worldX, worldZ, time);
        var s := trig.sin(angle);
        var c := trig.cos(angle);
        var terms := WaveTerms(w, s, c);
        totalYDisp := totalYDisp + terms.height;
        totalXZDisp := Vec2(totalXZDisp.x + terms.horizontal.x, totalXZDisp.y + terms.horizontal.y);
      }
    }
  }
}
