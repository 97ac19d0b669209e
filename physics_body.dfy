/** A floating body (WaterPhysicsBodyOptimized): its submersion ramp, the buoyant
    force and the drag blending it hands to its rigid body, and the clamped
    volume and radius it derives from its collider when it wakes up. The rigid
    body's drag and angular drag are fields here; the force it would receive is
    returned instead of applied. */
module PhysicsBody {
  import opened Common

  const WaterDensity: real := 1000.0
  const AirDrag: real := 0.05
  const AirAngularDrag: real := 0.05

  /** Below this submerged fraction the body counts as out of the water. */
  const SubmergedEpsilon: real := 0.001

  const DefaultVolume: real := 0.1
  const DefaultCheckRadius: real := 0.1
  const MinCheckRadius: real := 0.01
  const MinVolume: real := 0.0001

  const DefaultCooldown: real := 0.3
  /** The last-interaction time a body starts with: long before the clock starts at 0. */
  const InitialLastInteraction: real := -100.0

  /** A collider's world-space bounds, given by their size. */
  datatype Bounds = Bounds(size: Vec3)

  /** Bounds.extents: half the size. */
  function Extents(b: Bounds): Vec3
  {
    Vec3(b.size.x / 2.0, b.size.y / 2.0, b.size.z / 2.0)
  }

  function BoxVolume(b: Bounds): real
  {
    b.size.x * b.size.y * b.size.z
  }

  /** The submersion check radius from a collider: its smallest extent, but never
      below the floor. */
  function CheckRadiusFor(e: Vec3): (r: real)
    ensures r >= MinCheckRadius
    ensures r <= Max(MinCheckRadius, e.x) && r <= Max(MinCheckRadius, e.y) && r <= Max(MinCheckRadius, e.z)
    ensures r == MinCheckRadius || r == e.x || r == e.y || r == e.z
    ensures e.x <= r || e.y <= r || e.z <= r
  {
    var smallest := Min(e.x, Min(e.y, e.z));
    if smallest < MinCheckRadius then MinCheckRadius else smallest
  }

  /** The volume kept by the body: the approximation unless it is below the floor. */
  function FlooredVolume(v: real): (r: real)
    ensures r >= MinVolume
    ensures v >= MinVolume ==> r == v
    ensures v < MinVolume ==> r == MinVolume
  {
    if v < MinVolume then MinVolume else v
  }

  /** The share of the sample point's neighbourhood that is under water: a linear ramp
      over a band of width 2 * radius centred on the surface, clamped to [0, 1]. */
  function SubmergedFraction(depth: real, radius: real): (f: real)
    requires radius > 0.0
    ensures 0.0 <= f <= 1.0
    ensures depth <= -radius ==> f == 0.0
    ensures depth >= radius ==> f == 1.0
    ensures depth == 0.0 ==> f == 0.5
    ensures -radius <= depth <= radius ==> f * (2.0 * radius) == depth + radius
  {
    var ramp := (depth + radius) / (2.0 * radius);
    RampEnds(depth, radius);
    Clamp01(ramp)
  }

  lemma RampEnds(depth: real, radius: real)
    requires radius > 0.0
    ensures var ramp := (depth + radius) / (2.0 * radius);
      && ramp * (2.0 * radius) == depth + radius
      && (depth <= -radius ==> ramp <= 0.0)
      && (depth >= radius ==> ramp >= 1.0)
      && (-radius <= depth <= radius ==> 0.0 <= ramp <= 1.0)
  {
    var ramp := (depth + radius) / (2.0 * radius);
    assert ramp * (2.0 * radius) == depth + radius;
    if depth <= -radius {
      assert ramp * (2.0 * radius) <= 0.0;
    }
    if depth >= radius {
      assert ramp * (2.0 * radius) >= 1.0 * (2.0 * radius);
    }
  }

  /** Going deeper never makes the fraction smaller; inside the band it grows strictly. */
  lemma SubmergedFractionMonotone(d1: real, d2: real, radius: real)
    requires radius > 0.0 && d1 <= d2
    ensures SubmergedFraction(d1, radius) <= SubmergedFraction(d2, radius)
    ensures -radius <= d1 < d2 <= radius ==> SubmergedFraction(d1, radius) < SubmergedFraction(d2, radius)
  {
    var w := 2.0 * radius;
    var r1 := (d1 + radius) / w;
    var r2 := (d2 + radius) / w;
    RampEnds(d1, radius);
    RampEnds(d2, radius);
    assert (r2 - r1) * w == d2 - d1;
    SignOfProduct(r2 - r1, w);
  }

  lemma SignOfProduct(a: real, w: real)
    requires w > 0.0
    ensures a * w >= 0.0 ==> a >= 0.0
    ensures a * w > 0.0 ==> a > 0.0
  {
    if a < 0.0 {
      assert (-a) * w > 0.0;
    }
  }

  /** The vertical buoyant force: the displaced water's mass times gravity times the
      body's multiplier. */
  function BuoyantLift(volume: real, fraction: real, gravity: real, multiplier: real): real
  {
    WaterDensity * (volume * fraction) * gravity * multiplier
  }

  /** What one physics step hands to the rigid body: an optional force at the sample
      point, and the drag and angular drag it now has. */
  datatype Response = Response(force: Option<AppliedForce>, drag: real, angularDrag: real)

  datatype AppliedForce = AppliedForce(force: Vec3, position: Vec3)

  /** The tunables of a body that one physics step reads. */
  datatype BodyState = BodyState(
    enabled: bool,
    hasRigidbody: bool,
    submergedDrag: real,
    submergedAngularDrag: real,
    buoyancyForceMultiplier: real,
    volume: real,
    checkRadius: real,
    depthThreshold: real,
    velocityThresholdY: real,
    velocityThresholdXZ: real,
    velocityThresholdXZSqr: real,
    interactionRadius: real,
    cooldown: real,
    lastInteractionEventTime: real)

  /** A body's tunables together with its rigid body's current drag and angular drag. */
  datatype BodySnapshot = BodySnapshot(state: BodyState, drag: real, angularDrag: real)

  /** ApplyBuoyancyAndDrag as a function of the body, the water height and the sample point. */
  function BuoyancyResponse(s: BodyState, waterSurfaceY: real, samplePoint: Vec3, gravity: real): (resp: Response)
    requires s.checkRadius > 0.0
    ensures resp.force.Some? <==> SubmergedFraction(waterSurfaceY - samplePoint.y, s.checkRadius) > SubmergedEpsilon
    ensures resp.force.Some? ==>
      (resp.force.value.position == samplePoint && resp.force.value.force.x == 0.0 && resp.force.value.force.z == 0.0)
    ensures resp.force.None? ==> resp.drag == AirDrag && resp.angularDrag == AirAngularDrag
  {
    var f := SubmergedFraction(waterSurfaceY - samplePoint.y, s.checkRadius);
    if f > SubmergedEpsilon then
      var lift := BuoyantLift(s.volume, f, gravity, s.buoyancyForceMultiplier);
      Response(Some(AppliedForce(Vec3(0.0, lift, 0.0), samplePoint)),
               Lerp(AirDrag, s.submergedDrag, f),
               Lerp(AirAngularDrag, s.submergedAngularDrag, f))
    else
      Response(None, AirDrag, AirAngularDrag)
  }

  /** A force is applied exactly when the fraction exceeds the epsilon; it points
      straight up at the sample point, is proportional to the fraction, is never
      negative for a non-negative multiplier and never exceeds the full-submersion
      lift; the drags are blended between the air value and the submerged value,
      and are exactly the air values when no force is applied. */
  lemma BuoyancyResponseSpec(s: BodyState, waterSurfaceY: real, samplePoint: Vec3, gravity: real)
    requires s.checkRadius > 0.0 && s.volume > 0.0 && gravity >= 0.0
    ensures var f := SubmergedFraction(waterSurfaceY - samplePoint.y, s.checkRadius);
      var resp := BuoyancyResponse(s, waterSurfaceY, samplePoint, gravity);
      var full := WaterDensity * s.volume * gravity * s.buoyancyForceMultiplier;
      && (resp.force.Some? <==> f > SubmergedEpsilon)
      && (resp.force.Some? ==>
            && resp.force.value.position == samplePoint
            && resp.force.value.force.x == 0.0 && resp.force.value.force.z == 0.0
            && resp.force.value.force.y == full * f
            && (s.buoyancyForceMultiplier >= 0.0 ==> 0.0 <= resp.force.value.force.y <= full))
      && Min(AirDrag, s.submergedDrag) <= resp.drag <= Max(AirDrag, s.submergedDrag)
      && Min(AirAngularDrag, s.submergedAngularDrag) <= resp.angularDrag <= Max(AirAngularDrag, s.submergedAngularDrag)
      && (resp.force.Some? ==>
            resp.drag == Lerp(AirDrag, s.submergedDrag, f) && resp.angularDrag == Lerp(AirAngularDrag, s.submergedAngularDrag, f))
      && (resp.force.None? ==> resp.drag == AirDrag && resp.angularDrag == AirAngularDrag)
  {
    var f := SubmergedFraction(waterSurfaceY - samplePoint.y, s.checkRadius);
    var full := WaterDensity * s.volume * gravity * s.buoyancyForceMultiplier;
    LerpBetween(AirDrag, s.submergedDrag, f);
    LerpBetween(AirAngularDrag, s.submergedAngularDrag, f);
    var lift := BuoyantLift(s.volume, f, gravity, s.buoyancyForceMultiplier);
    assert lift == full * f;
    if s.buoyancyForceMultiplier >= 0.0 {
      assert full >= 0.0 by {
        assert WaterDensity * s.volume >= 0.0;
        assert WaterDensity * s.volume * gravity >= 0.0;
      }
      ScaleBetween(full, f);
    }
  }

  /** Fully out of the water (depth at most -radius) the body gets no force and air
      drag; fully under (depth at least radius) it gets the full lift and the
      submerged drags. */
  lemma BuoyancyResponseAtBandEdges(s: BodyState, waterSurfaceY: real, samplePoint: Vec3, gravity: real)
    requires s.checkRadius > 0.0
    ensures var depth := waterSurfaceY - samplePoint.y;
      var resp := BuoyancyResponse(s, waterSurfaceY, samplePoint, gravity);
      && (depth <= -s.checkRadius ==> resp == Response(None, AirDrag, AirAngularDrag))
      && (depth >= s.checkRadius ==>
            && resp.force == Some(AppliedForce(Vec3(0.0, WaterDensity * s.volume * gravity * s.buoyancyForceMultiplier, 0.0), samplePoint))
            && resp.drag == s.submergedDrag && resp.angularDrag == s.submergedAngularDrag)
  {
    var depth := waterSurfaceY - samplePoint.y;
    LerpBetween(AirDrag, s.submergedDrag, 1.0);
    LerpBetween(AirAngularDrag, s.submergedAngularDrag, 1.0);
    if depth >= s.checkRadius {
      assert SubmergedFraction(depth, s.checkRadius) == 1.0;
      assert BuoyantLift(s.volume, 1.0, gravity, s.buoyancyForceMultiplier)
          == WaterDensity * s.volume * gravity * s.buoyancyForceMultiplier;
    }
  }

  class WaterPhysicsBody {
    /** Whether GetComponent found a Rigidbody (rb != null). */
    var hasRigidbody: bool
    /** The component's enabled flag. */
    var enabled: bool
    /** The rigid body's drag and angular drag, which the body overwrites every step. */
    var drag: real
    var angularDrag: real

    var submergedDrag: real
    var submergedAngularDrag: real
    var buoyancyForceMultiplier: real
    var objectVolumeApprox: real
    var submergedCheckRadius: real

    var interactionDepthThreshold: real
    var interactionVelocityThresholdY: real
    var interactionVelocityThresholdXZ: real
    var interactionVelocityThresholdXZSqr: real
    var interactionRadius: real
    var interactionCooldown: real
    var lastInteractionEventTime: real

    /** The two private quantities the ramp and the lift divide by or scale with stay
        above their floors. */
    ghost predicate Valid()
      reads this
    {
      submergedCheckRadius >= MinCheckRadius && objectVolumeApprox >= MinVolume
    }

    function State(): BodyState
      reads this
    {
      BodyState(enabled, hasRigidbody, submergedDrag, submergedAngularDrag, buoyancyForceMultiplier,
                objectVolumeApprox, submergedCheckRadius, interactionDepthThreshold,
                interactionVelocityThresholdY, interactionVelocityThresholdXZ, interactionVelocityThresholdXZSqr,
                interactionRadius, interactionCooldown, lastInteractionEventTime)
    }

    function Snapshot(): BodySnapshot
      reads this
    {
      BodySnapshot(State(), drag, angularDrag)
    }

    /** The field initialisers; the rigid body starts with Unity's default drags. */
    constructor ()
      ensures Valid()
      ensures !hasRigidbody && enabled && drag == 0.0 && angularDrag == 0.05
      ensures submergedDrag == 2.0 && submergedAngularDrag == 1.5 && buoyancyForceMultiplier == 25.0
      ensures objectVolumeApprox == DefaultVolume && submergedCheckRadius == DefaultCheckRadius
      ensures interactionDepthThreshold == 0.15 && interactionVelocityThresholdY == 1.2
      ensures interactionVelocityThresholdXZ == 1.8 && interactionVelocityThresholdXZSqr == 0.0
      ensures interactionRadius == 1.0 && interactionCooldown == DefaultCooldown
      ensures lastInteractionEventTime == InitialLastInteraction
    {
      hasRigidbody, enabled := false, true;
      drag, angularDrag := 0.0, 0.05;
      submergedDrag, submergedAngularDrag, buoyancyForceMultiplier := 2.0, 1.5, 25.0;
      objectVolumeApprox, submergedCheckRadius := DefaultVolume, DefaultCheckRadius;
      interactionDepthThreshold, interactionVelocityThresholdY := 0.15, 1.2;
      interactionVelocityThresholdXZ, interactionVelocityThresholdXZSqr := 1.8, 0.0;
      interactionRadius, interactionCooldown := 1.0, DefaultCooldown;
      lastInteractionEventTime := InitialLastInteraction;
    }

    /** Awake: without a rigid body the component disables itself; otherwise the
        volume and radius come from the collider's bounds when there is a collider,
        are floored, and the squared horizontal threshold is cached. */
    method Awake(rigidbodyPresent: bool, collider: Option<Bounds>)
      requires Valid()
      modifies this
      ensures Valid()
      ensures hasRigidbody == rigidbodyPresent
      ensures !rigidbodyPresent ==>
        && !enabled
        && objectVolumeApprox == old(objectVolumeApprox) && submergedCheckRadius == old(submergedCheckRadius)
        && interactionVelocityThresholdXZSqr == old(interactionVelocityThresholdXZSqr)
      ensures rigidbodyPresent ==>
        && enabled == old(enabled)
        && submergedCheckRadius == (if collider.Some? then CheckRadiusFor(Extents(collider.value)) else old(submergedCheckRadius))
        && objectVolumeApprox == FlooredVolume(if collider.Some? then BoxVolume(collider.value) else old(objectVolumeApprox))
        && interactionVelocityThresholdXZSqr == interactionVelocityThresholdXZ * interactionVelocityThresholdXZ
      ensures drag == old(drag) && angularDrag == old(angularDrag)
      ensures submergedDrag == old(submergedDrag) && submergedAngularDrag == old(submergedAngularDrag)
      ensures buoyancyForceMultiplier == old(buoyancyForceMultiplier)
      ensures interactionDepthThreshold == old(interactionDepthThreshold)
      ensures interactionVelocityThresholdY == old(interactionVelocityThresholdY)
      ensures interactionVelocityThresholdXZ == old(interactionVelocityThresholdXZ)
      ensures interactionRadius == old(interactionRadius) && interactionCooldown == old(interactionCooldown)
      ensures lastInteractionEventTime == old(lastInteractionEventTime)
    {
      hasRigidbody := rigidbodyPresent;
      if !rigidbodyPresent {
        enabled := false;
        return;
      }
      if collider.Some? {
        var bounds := collider.value;
        objectVolumeApprox := BoxVolume(bounds);
        var e := Extents(bounds);
        submergedCheckRadius := Min(e.x, Min(e.y, e.z));
        if submergedCheckRadius < MinCheckRadius {
          submergedCheckRadius := MinCheckRadius;
        }
      }
      if objectVolumeApprox < MinVolume {
        objectVolumeApprox := MinVolume;
      }
      interactionVelocityThresholdXZSqr := interactionVelocityThresholdXZ * interactionVelocityThresholdXZ;
    }

    /** ApplyBuoyancyAndDrag for the water height at the (world-space) sample point:
        returns the force the rigid body receives and sets its drags. */
    method ApplyBuoyancyAndDrag(waterSurfaceY: real, samplePoint: Vec3, gravity: real) returns (force: Option<AppliedForce>)
      requires Valid()
      modifies this`drag, this`angularDrag
      ensures State() == old(State())
      ensures var resp := BuoyancyResponse(old(State()), waterSurfaceY, samplePoint, gravity);
        force == resp.force && drag == resp.drag && angularDrag == resp.angularDrag
    {
      var submersionDepth := waterSurfaceY - samplePoint.y;
      var fraction := SubmergedFraction(submersionDepth, submergedCheckRadius);
      if fraction > SubmergedEpsilon {
        var displacedMass := WaterDensity * (objectVolumeApprox * fraction);
        var lift := displacedMass * gravity * buoyancyForceMultiplier;
        assert lift == BuoyantLift(objectVolumeApprox, fraction, gravity, buoyancyForceMultiplier);
        force := Some(AppliedForce(Vec3(0.0, lift, 0.0), samplePoint));
        drag := Lerp(AirDrag, submergedDrag, fraction);
        angularDrag := Lerp(AirAngularDrag, submergedAngularDrag, fraction);
      } else {
        force := None;
        drag := AirDrag;
        angularDrag := AirAngularDrag;
      }
    }
  }
}
