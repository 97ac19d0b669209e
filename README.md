# Water interaction and buoyancy core, in Dafny

This project models the deterministic core of a Unity water system, built from two components.

**The water manager (`WaterInteractionManagerOptimized`).** It holds:
- the Gerstner wave sets, with their derived wavenumber and unit direction;
- the list of registered floating bodies;
- a two-slot ring of interaction events that the water shader draws as ripples.

It does two things on a schedule:
- Once per physics step, for each registered body, it:
  - samples the wave displacement under the body;
  - lets the body apply buoyancy and drag at the displaced surface height;
  - starts an interaction event when the body is deep enough, fast enough and off cooldown.
- Once per frame, it ages the events, retires the ones that have reached their lifetime, and decides whether the event data has to be pushed to the shader again.

**The floating body (`WaterPhysicsBodyOptimized`).** It:
- turns the water height at its sample point into a submerged fraction;
- turns that fraction into a vertical buoyant force;
- blends its rigid body's drag and angular drag between air and water values;
- derives a floored volume and check radius from its collider when it wakes up.

How the modules map onto the code:
- **Both components are Dafny classes.** Their fields are the fields the code updates in place:
  - the two event arrays, the cursor and the dirty flag;
  - the wave-set array;
  - the body list;
  - each body's tunables, drag and angular drag, and last-interaction time.
- **Their methods are proved against value-level functions.** The event ring is `EventRing.RingState`, with `Initialized`, `Triggered`, `TriggerAll` and `Advanced`. The wave sum is `WaveField.WaveSum`. A body's step is `InteractionManager.StepOutcome`.
- **The properties are lemmas about those functions.** They cover:
  - the cursor and the overwrite order;
  - expiry exactly at the lifetime;
  - the dirty flag;
  - duplicate-free registration;
  - the strict cooldown;
  - the degenerate-wave guards;
  - the shape of the submersion ramp and of the drag blend.

Modules:
- `Common`: vectors, `Option`, and Unity's `Mathf.Clamp01` and `Mathf.Lerp` over exact reals.
- `WaveField`: the wave settings, their derivation, and the displacement sum.
- `EventRing`: the event ring as values.
- `PhysicsBody`: the floating body.
- `InteractionManager`: the manager.

Engine inputs are parameters:
- `Time.time` becomes the clock `now`.
- The material becomes an optional value carrying an optional lifetime property.
- Each body's world sample point, velocity and `activeInHierarchy` arrive as a `BodyProbe`.
- The engine's sine, cosine and `Vector2.normalized` arrive as function values (`WaveField.Trig`). Only the skipping and fallback structure of the wave code is pinned down, not the trigonometry.

Two behaviours that are easy to misread:
- **Expiry.** An event retires when its age *reaches* the lifetime (`timeAlive >= max`). It does not wait until the age exceeds it. An event started at 0.1 s with a 1.5 s lifetime is therefore gone at 1.6 s; `EventRing.ExpiresExactlyAtLifetime` and `EventRing.TwoEventScenario` state this.
- **Wave phase.** The phase uses the sample point's world x and z directly. No reference origin is subtracted.

## Model

| member | source | states |
|---|---|---|
| Common.Clamp01 | Water/WaterPhysicsBodyOptimized.cs:92 | the clamped value lies in [0, 1], equals the input inside that range, and is 0 below it and 1 above it |
| Common.LerpBetween | Water/WaterPhysicsBodyOptimized.cs:108-109 | Mathf.Lerp stays between its two ends, and gives the first end at t <= 0 and the second at t >= 1 |
| WaveField.Wavenumber | Water/WaterInteractionManagerOptimized.cs:111 | the wavenumber is 0 exactly for wavelengths <= 0.001; otherwise it is positive and times the wavelength gives 2 pi |
| WaveField.Derive | Water/WaterInteractionManagerOptimized.cs:106-111 | one wave set's derivation keeps the designer-set fields; the set is skipped afterwards iff its amplitude is 0 or its wavelength is <= 0.001; a direction with squared length <= 0.0001 becomes (1, 0) |
| WaveField.DeriveAll | Water/WaterInteractionManagerOptimized.cs:104-111 | deriving every wave set keeps their number, and a set is skipped afterwards iff its amplitude is 0 or its wavelength is degenerate |
| WaveField.DeriveSpec | Water/WaterInteractionManagerOptimized.cs:106-111 | derivation keeps the designer-set fields; the wavenumber is 0 iff the wavelength is degenerate; a direction with squared length <= 0.0001 falls back to (1, 0), otherwise it is normalised; deriving twice is deriving once |
| WaveField.Contribution | Water/WaterInteractionManagerOptimized.cs:243-257 | a skipped wave adds nothing, and a wave with steepness 0 adds no horizontal displacement |
| WaveField.WaveSum | Water/WaterInteractionManagerOptimized.cs:237-258 | the displacement summed over the wave sets; the water is flat (no displacement) when every set is skipped |
| WaveField.DegenerateWaveIsInert | Water/WaterInteractionManagerOptimized.cs:244 | a derived wave with wavelength <= 0.001 or amplitude 0 contributes nothing, at any point and time |
| WaveField.SkippedWaveAddsNothing | Water/WaterInteractionManagerOptimized.cs:244 | a wave with amplitude 0 or wavenumber 0 can be dropped from the list without changing either displacement total |
| WaveField.SingleWave | Water/WaterInteractionManagerOptimized.cs:246-257 | one live wave gives height A sin(phase) and horizontal displacement Q A d cos(phase), where Q is the steepness and d the unit direction; with steepness 0 there is no horizontal part |
| WaveField.WaveSumAppend | Water/WaterInteractionManagerOptimized.cs:241-258 | the sum over two lists of waves, one after the other, is the sum of their sums |
| WaveField.WaveSumOrderFree | Water/WaterInteractionManagerOptimized.cs:241-258 | summation order does not matter: swapping two blocks of waves gives the same displacement |
| EventRing.Initialized | Water/WaterInteractionManagerOptimized.cs:91-97 | initialisation keeps the cursor, sets the dirty flag and leaves no slot live |
| EventRing.Triggered | Water/WaterInteractionManagerOptimized.cs:231 | after a trigger the ring still has capacity slots and the cursor is still below the capacity |
| EventRing.TriggerWritesOnlyCursorSlot | Water/WaterInteractionManagerOptimized.cs:221-231 | a trigger writes exactly the cursor slot, with the request's x, its z, the radius, age 0 and start time now. Every other slot and start time is kept, the cursor moves on by one modulo the capacity, and the dirty flag is set |
| EventRing.TriggerAllCursor | Water/WaterInteractionManagerOptimized.cs:231 | after n triggers the cursor has moved by n modulo the capacity |
| EventRing.TriggerAllRetainsLatest | Water/WaterInteractionManagerOptimized.cs:221-231 | after a run of triggers, each of the last capacity requests sits in slot (starting cursor + its position) mod capacity, with its start time |
| EventRing.OverflowEvictsOldest | Water/WaterInteractionManagerOptimized.cs:221-231 | capacity + 1 consecutive triggers overwrite the slot written first with the last request |
| EventRing.AgeSlot | Water/WaterInteractionManagerOptimized.cs:150-161 | ageing never moves a slot. It leaves an inactive slot untouched. A live slot stays live iff now - start < lifetime, and then gets age now - start; otherwise it becomes radius -1, age 999 |
| EventRing.AgeAll | Water/WaterInteractionManagerOptimized.cs:148-164 | ageing keeps the number of slots and never revives one: a slot is live afterwards only if one was live before |
| EventRing.Advanced | Water/WaterInteractionManagerOptimized.cs:147-171 | one frame keeps the ring's shape, the start times and the cursor, and revives no slot |
| EventRing.AdvancedDirtyIffLive | Water/WaterInteractionManagerOptimized.cs:147-171 | whatever its earlier value, after a frame the dirty flag holds exactly when some slot was live and younger than the lifetime, which is exactly when some slot is still live |
| EventRing.AdvancedKeepsRest | Water/WaterInteractionManagerOptimized.cs:148-164 | a frame keeps the start times, the cursor and every slot's x and z |
| EventRing.AgeStrictlyIncreases | Water/WaterInteractionManagerOptimized.cs:150-158 | while an event stays live its age grows strictly from frame to frame; a retired event stays retired |
| EventRing.ExpiresExactlyAtLifetime | Water/WaterInteractionManagerOptimized.cs:155-158 | a live event retires exactly when now - start >= lifetime, never before |
| EventRing.AdvanceIdempotentAtSameTime | Water/WaterInteractionManagerOptimized.cs:147-171 | a second frame at the same instant changes nothing |
| EventRing.InitializedIsQuiet | Water/WaterInteractionManagerOptimized.cs:91-97 | after initialisation every slot is (0, 0, -1, 999), every start time is more than the lifetime in the past and the flag is set; the next frame changes no slot and clears the flag |
| EventRing.TwoEventScenario | Water/WaterInteractionManagerOptimized.cs:147-164 | two events triggered at 0 s and 0.1 s with a 1.5 s lifetime: both live at 1.0 s with ages 1.0 and 0.9; only the second live at 1.55 s; both retired and the flag clear at 1.6 s |
| PhysicsBody.CheckRadiusFor | Water/WaterPhysicsBodyOptimized.cs:51-52 | the check radius is the smallest of the three extents, floored at 0.01: it is at least 0.01, is one of 0.01 and the extents, is no larger than any extent above the floor, and is at least one extent |
| PhysicsBody.FlooredVolume | Water/WaterPhysicsBodyOptimized.cs:56 | the volume is at least 0.0001 and is the approximation itself whenever that is not below the floor |
| PhysicsBody.SubmergedFraction | Water/WaterPhysicsBodyOptimized.cs:91-92 | the fraction lies in [0, 1]. It is 0 for depth <= -r, 1 for depth >= r and 0.5 at depth 0, and is linear, (depth + r) / 2r, inside the band |
| PhysicsBody.SubmergedFractionMonotone | Water/WaterPhysicsBodyOptimized.cs:91-92 | the fraction never decreases with depth, and increases strictly inside the band |
| PhysicsBody.BuoyancyResponse | Water/WaterPhysicsBodyOptimized.cs:91-115 | a force is applied iff the submerged fraction exceeds 0.001, and it is vertical and acts at the sample point; with no force the drags are the air values |
| PhysicsBody.BuoyancyResponseSpec | Water/WaterPhysicsBodyOptimized.cs:96-115 | a force is applied iff the fraction exceeds 0.001. The force is vertical, at the sample point, and equals 1000 * volume * fraction * g * multiplier, bounded by the full-submersion lift. The drags are lerped between 0.05 and the submerged values, and are exactly 0.05 when no force is applied |
| PhysicsBody.BuoyancyResponseAtBandEdges | Water/WaterPhysicsBodyOptimized.cs:92-115 | fully out of the water: no force and air drag. Fully under: the full lift and the submerged drags |
| PhysicsBody.WaterPhysicsBody.constructor | Water/WaterPhysicsBodyOptimized.cs:11-27 | the field initialisers: drags 2.0 and 1.5, multiplier 25, volume and radius 0.1, thresholds 0.15, 1.2 and 1.8, radius 1, cooldown 0.3, last interaction -100 |
| PhysicsBody.WaterPhysicsBody.Awake | Water/WaterPhysicsBodyOptimized.cs:34-60 | without a rigid body the component disables itself and derives nothing. Otherwise the radius is the floored smallest extent, or the default without a collider; the volume is the floored box volume; the squared XZ threshold is the XZ threshold squared. Nothing else changes |
| PhysicsBody.WaterPhysicsBody.ApplyBuoyancyAndDrag | Water/WaterPhysicsBodyOptimized.cs:86-116 | the returned force and the new drag and angular drag are the buoyancy response for the body, the water height and the sample point; the body's tunables are unchanged |
| InteractionManager.IndexOf | Water/WaterInteractionManagerOptimized.cs:135 | the index found holds the body, and the body does not occur before it |
| InteractionManager.Registered | Water/WaterInteractionManagerOptimized.cs:130 | after registering, the body is in the list, the old list is kept as a prefix, and at most one entry has been added |
| InteractionManager.RemoveFirst | Water/WaterInteractionManagerOptimized.cs:135 | unregistering a registered body shortens the list by exactly one entry, and leaves the list as it was otherwise |
| InteractionManager.RegisteredSpec | Water/WaterInteractionManagerOptimized.cs:128-131 | registering keeps the list duplicate-free; it leaves the list unchanged for a registered body and appends a new one; membership is old membership plus the body |
| InteractionManager.RemoveFirstSpec | Water/WaterInteractionManagerOptimized.cs:133-136 | unregistering keeps the list duplicate-free and removes the body altogether. Every other body keeps its place and order, and the list is unchanged if the body was absent |
| InteractionManager.CooldownIsStrict | Water/WaterInteractionManagerOptimized.cs:210 | no event at or within the cooldown since the last one, in particular right after the body has fired |
| InteractionManager.CooldownScenario | Water/WaterInteractionManagerOptimized.cs:207-214 | with the thresholds met, 0.01 s short of the cooldown does not fire and 0.01 s past it does |
| InteractionManager.FirstContactPassesCooldown | Water/WaterPhysicsBodyOptimized.cs:26-27 | a fresh body (last event -100 s, cooldown 0.3 s) fires at any time >= 0 exactly when the depth and speed thresholds are met |
| InteractionManager.ShouldTrigger | Water/WaterInteractionManagerOptimized.cs:207-210 | the trigger test: depth above the threshold, and vertical speed or squared horizontal speed above its threshold, and strictly more than the cooldown since the last event |
| InteractionManager.ShouldTriggerMonotone | Water/WaterInteractionManagerOptimized.cs:207-210 | a body that fires at some depth and time would also fire deeper and later |
| InteractionManager.RequestFor | Water/WaterInteractionManagerOptimized.cs:192-214 | an unusable body asks for no event; an event asked for carries the body's interaction radius and the clock |
| InteractionManager.RequestForSpec | Water/WaterInteractionManagerOptimized.cs:191-214 | a body asks for an event iff it is usable and deep, fast and off cooldown at the displaced surface; the event sits at the surface height, shifted horizontally from the sample point by the wave's horizontal displacement, with the body's radius and the clock |
| InteractionManager.StepOutcome | Water/WaterInteractionManagerOptimized.cs:191-216 | an unusable body is untouched and applies no force; otherwise only the last-interaction time among the tunables can change, and it becomes the clock exactly when the body asks for an event |
| InteractionManager.StepAllIndex | Water/WaterInteractionManagerOptimized.cs:188-218 | after the first n bodies have stepped, each of them holds its own outcome and the others are untouched |
| InteractionManager.ForcesOfIndex | Water/WaterInteractionManagerOptimized.cs:188-218 | the j-th force of a step is the j-th body's own outcome |
| InteractionManager.StepInvariant | Water/WaterInteractionManagerOptimized.cs:189-218 | stepping one more body extends the bodies, forces and triggered requests by exactly that body's outcome |
| InteractionManager.WaterInteractionManager.constructor | Water/WaterInteractionManagerOptimized.cs:15-42 | the field initialisers: zeroed event data and start times, cursor 0, dirty set, no bodies, the given wave sets |
| InteractionManager.WaterInteractionManager.Awake | Water/WaterInteractionManagerOptimized.cs:44-65 | without a material the manager disables itself and nothing else changes; with one, the ring is initialised, the waves derived and the lifetime cached (1.5 s by default) |
| InteractionManager.WaterInteractionManager.InitializeShaderEventData | Water/WaterInteractionManagerOptimized.cs:83-98 | the ring becomes the initialised ring for the material's lifetime (1.5 s by default) |
| InteractionManager.WaterInteractionManager.PrecomputeAndUpdateWaveParams | Water/WaterInteractionManagerOptimized.cs:100-126 | with a material every wave set is replaced by its derivation; without one nothing changes |
| InteractionManager.WaterInteractionManager.RegisterPhysicsBody | Water/WaterInteractionManagerOptimized.cs:128-131 | the list becomes the add-if-absent list and stays duplicate-free |
| InteractionManager.WaterInteractionManager.UnregisterPhysicsBody | Water/WaterInteractionManagerOptimized.cs:133-136 | the list loses the body's occurrence, stays duplicate-free, and no longer holds the body |
| InteractionManager.WaterInteractionManager.Update | Water/WaterInteractionManagerOptimized.cs:138-171 | with a material the ring becomes the advanced ring for the clock and the cached lifetime; without one nothing changes |
| InteractionManager.WaterInteractionManager.TriggerInteractionEvent | Water/WaterInteractionManagerOptimized.cs:221-232 | the ring becomes the triggered ring for the request (position, radius, clock) |
| InteractionManager.WaterInteractionManager.FixedUpdate | Water/WaterInteractionManagerOptimized.cs:186-219 | every body's snapshot (all its tunables, including both XZ thresholds, its drags and its last-interaction time) is the step of every body in registration order; the returned forces are their forces; the ring has received every body's request in that order; the list and the body invariants are kept |
| InteractionManager.WaterInteractionManager.StepAt | Water/WaterInteractionManagerOptimized.cs:189-218 | one loop pass keeps the loop invariant, advancing from the first i bodies to the first i + 1 |
| InteractionManager.WaterInteractionManager.StepBody | Water/WaterInteractionManagerOptimized.cs:191-217 | one body's step: its snapshot and force are its outcome, and the ring is triggered with its request when it makes one |
| InteractionManager.WaterInteractionManager.GetWaveDisplacementAtWorldPos | Water/WaterInteractionManagerOptimized.cs:235-259 | the height and horizontal totals are the wave sum over the wave sets at that point and time |

## Left out

- Water/Buoyancy.cs, "better water/PBRWaterManager.cs", "Flat inf water/WaterController.cs" and "Flat inf water/WaterVolume.cs" are not part of this model.
- Shader plumbing is not modelled. This covers `CacheShaderPropertyIDs`, `Shader.PropertyToID`, `SetVector`, `SetFloat` and the push of event data in `Update`. The push is modelled only through the dirty flag, which decides it.
- The `#if UNITY_EDITOR` hot-reload block at the end of `Update` is not modelled. It runs only in the editor.
- Unity's scheduling is not modelled. `Awake`, `Update` and `FixedUpdate` are methods the caller invokes; `Time.time` is the `now` parameter.
- The body's `Start` and `OnDisable` are not modelled. `Start` locates the manager through `FindObjectOfType`, keeps the reference and calls `RegisterPhysicsBody`. `OnDisable` calls `UnregisterPhysicsBody` on that kept reference, when there is one. Both calls are modelled.
- Engine reads come in as data. `transform.TransformPoint`, `rb.velocity` and `gameObject.activeInHierarchy` are a `BodyProbe` per body; `Physics.gravity.magnitude` is a parameter; a collider's bounds are an optional `Bounds` given to `Awake`.
- `AddForceAtPosition` is not called. The force and its point of application are returned instead.
- The null-body test in `FixedUpdate` is not modelled. The body list holds no null entries.
- `rb.useGravity = true` and the `Debug.Log` calls are not modelled. They have no effect on the modelled state.
- Actual sine, cosine and vector normalisation are abstract function values. Mathf.PI is the rational 3.14159265358979.
- Floating-point rounding is not modelled. All quantities are exact reals; the float constants such as 0.001f, 0.0001f and 0.01f are their decimal values.
- InteractionManager.WaterInteractionManager.GetWaveDisplacementAtWorldPos: sums over the whole wave-set array rather than over exactly NUM_WAVE_SETS entries. The two agree whenever the manager's invariant holds.
- EventRing.Triggered: its own contract states only that the ring stays well formed. What it writes is stated by EventRing.TriggerWritesOnlyCursorSlot.
- InteractionManager.StepOutcome: its own contract leaves the force and drags to PhysicsBody.BuoyancyResponseSpec, since a usable body's response is exactly BuoyancyResponse at the displaced surface height.
