/** The Gerstner wave sets of the water manager: the designer-set parameters, the
    wavenumber and unit direction derived from them, and the displacement sum at a
    point of the water plane. Sine, cosine and vector normalisation are passed in as
    function values, so only the skipping and fallback structure is pinned down. */
module WaveField {
  import opened Common

  /** NUM_WAVE_SETS. */
  const NumWaveSets: nat := 2

  /** Mathf.PI as a positive rational. */
  const Pi: real := 3.14159265358979

  /** Wavelengths at or below this give a zero wavenumber. */
  const MinWavelength: real := 0.001

  /** Directions whose squared length is at or below this fall back to +x. */
  const MinDirectionSqr: real := 0.0001

  /** WaveSettings: direction, amplitude, wavelength, speed and steepness as set by a
      designer, and the derived wavenumber and normalised direction. */
  datatype WaveSettings = WaveSettings(
    direction: Vec2,
    amplitude: real,
    wavelength: real,
    speed: real,
    steepness: real,
    wavenumber: real,
    normalizedDirection: Vec2)

  /** The engine's sine, cosine and Vector2.normalized. */
  datatype Trig = Trig(sin: real -> real, cos: real -> real, normalize: Vec2 -> Vec2)

  /** 2 pi over the wavelength, or 0 for a degenerate wavelength. */
  function Wavenumber(wavelength: real): (k: real)
    ensures wavelength <= MinWavelength ==> k == 0.0
    ensures wavelength > MinWavelength ==> k > 0.0 && k * wavelength == 2.0 * Pi
  {
    if wavelength <= MinWavelength then 0.0 else (2.0 * Pi) / wavelength
  }

  /** The derived fields of one wave set, recomputed from its designer-set fields. */
  function Derive(w: WaveSettings, trig: Trig): (d: WaveSettings)
    ensures d.direction == w.direction && d.amplitude == w.amplitude && d.wavelength == w.wavelength
    ensures d.speed == w.speed && d.steepness == w.steepness
    ensures Skipped(d) <==> w.amplitude == 0.0 || w.wavelength <= MinWavelength
    ensures SqrMagnitude(w.direction) <= MinDirectionSqr ==> d.normalizedDirection == Right2
  {
    var dir := if SqrMagnitude(w.direction) > MinDirectionSqr then trig.normalize(w.direction) else Right2;
    w.(wavenumber := Wavenumber(w.wavelength), normalizedDirection := dir)
  }

  /** Every wave set derived, in place: a set is skipped afterwards exactly when its
      amplitude is 0 or its wavelength is degenerate. */
  function DeriveAll(ws: seq<WaveSettings>, trig: Trig): (r: seq<WaveSettings>)
    ensures |r| == |ws|
    ensures forall i :: 0 <= i < |ws| ==> (Skipped(r[i]) <==> ws[i].amplitude == 0.0 || ws[i].wavelength <= MinWavelength)
  {
    seq(|ws|, i requires 0 <= i < |ws| => Derive(ws[i], trig))
  }

  /** Derivation keeps every designer-set field, gives a zero wavenumber exactly for
      degenerate wavelengths, falls back to +x for a near-zero direction, and applying
      it twice is the same as once: derived state never goes stale. */
  lemma DeriveSpec(w: WaveSettings, trig: Trig)
    ensures var d := Derive(w, trig);
      && d.direction == w.direction && d.amplitude == w.amplitude && d.wavelength == w.wavelength
      && d.speed == w.speed && d.steepness == w.steepness
      && (d.wavenumber == 0.0 <==> w.wavelength <= MinWavelength)
      && (SqrMagnitude(w.direction) <= MinDirectionSqr ==> d.normalizedDirection == Right2)
      && (SqrMagnitude(w.direction) > MinDirectionSqr ==> d.normalizedDirection == trig.normalize(w.direction))
      && Derive(d, trig) == d
  {
  }

  /** A wave the sum skips: zero amplitude or zero wavenumber. */
  predicate Skipped(w: WaveSettings)
  {
    w.amplitude == 0.0 || w.wavenumber == 0.0
  }

  /** Vertical displacement and horizontal (x, z) displacement. */
  datatype Displacement = Displacement(height: real, horizontal: Vec2)

  const NoDisplacement: Displacement := Displacement(0.0, Zero2)

  function Add(a: Displacement, b: Displacement): Displacement
  {
    Displacement(a.height + b.height, Vec2(a.horizontal.x + b.horizontal.x, a.horizontal.y + b.horizontal.y))
  }

  /** The phase of a wave at world (x, z) and time t. */
  function Phase(w: WaveSettings, x: real, z: real, time: real): real
  {
    w.wavenumber * (w.normalizedDirection.x * x + w.normalizedDirection.y * z) + time * w.speed
  }

  /** The terms a live wave adds, given the sine and cosine of its phase: A sin up,
      and Q A cos along the wave's unit direction, where Q A is steepness times amplitude. */
  function WaveTerms(w: WaveSettings, s: real, c: real): Displacement
  {
    var q := w.steepness * w.amplitude;
    Displacement(w.amplitude * s, Vec2(q * w.normalizedDirection.x * c, q * w.normalizedDirection.y * c))
  }

  /** One wave's share of the displacement at (x, z) and time t; none for a skipped wave. */
  function Contribution(w: WaveSettings, x: real, z: real, time: real, trig: Trig): (d: Displacement)
    ensures Skipped(w) ==> d == NoDisplacement
    ensures w.steepness == 0.0 ==> d.horizontal == Zero2
  {
    if Skipped(w) then NoDisplacement
    else
      var phase := Phase(w, x, z, time);
      WaveTerms(w, trig.sin(phase), trig.cos(phase))
  }

  /** The displacement of the first n waves, summed first to last. */
  function PrefixSum(ws: seq<WaveSettings>, n: nat, x: real, z: real, time: real, trig: Trig): Displacement
    requires n <= |ws|
  {
    if n == 0 then NoDisplacement
    else Add(PrefixSum(ws, n - 1, x, z, time, trig), Contribution(ws[n - 1], x, z, time, trig))
  }

  /** The displacement of a whole list of waves: flat water when every wave is skipped. */
  function WaveSum(ws: seq<WaveSettings>, x: real, z: real, time: real, trig: Trig): (d: Displacement)
    ensures (forall i :: 0 <= i < |ws| ==> Skipped(ws[i])) ==> d == NoDisplacement
  {
    AllSkippedIsFlat(ws, |ws|, x, z, time, trig);
    PrefixSum(ws, |ws|, x, z, time, trig)
  }

  lemma {:induction false} AllSkippedIsFlat(ws: seq<WaveSettings>, n: nat, x: real, z: real, time: real, trig: Trig)
    requires n <= |ws|
    ensures (forall i :: 0 <= i < n ==> Skipped(ws[i])) ==> PrefixSum(ws, n, x, z, time, trig) == NoDisplacement
  {
    if n > 0 {
      AllSkippedIsFlat(ws, n - 1, x, z, time, trig);
    }
  }

  lemma AddAssoc(p: Displacement, q: Displacement, r: Displacement)
    ensures Add(Add(p, q), r) == Add(p, Add(q, r))
  {
  }

  lemma AddNothing(p: Displacement)
    ensures Add(p, NoDisplacement) == p && Add(NoDisplacement, p) == p
  {
  }

  /** Waves appended after the first n do not change the sum of the first n. */
  lemma {:induction false} PrefixSumIgnoresSuffix(a: seq<WaveSettings>, b: seq<WaveSettings>, n: nat, x: real, z: real, time: real, trig: Trig)
    requires n <= |a|
    ensures PrefixSum(a + b, n, x, z, time, trig) == PrefixSum(a, n, x, z, time, trig)
  {
    if n > 0 {
      assert (a + b)[n - 1] == a[n - 1];
      PrefixSumIgnoresSuffix(a, b, n - 1, x, z, time, trig);
    }
  }

  /** The first |a| + k waves of a + b sum to the sum of a plus the first k of b. */
  lemma {:induction false} PrefixSumAppend(a: seq<WaveSettings>, b: seq<WaveSettings>, k: nat, x: real, z: real, time: real, trig: Trig)
    requires k <= |b|
    ensures PrefixSum(a + b, |a| + k, x, z, time, trig) == Add(WaveSum(a, x, z, time, trig), PrefixSum(b, k, x, z, time, trig))
  {
    if k == 0 {
      PrefixSumIgnoresSuffix(a, b, |a|, x, z, time, trig);
      AddNothing(WaveSum(a, x, z, time, trig));
    } else {
      assert (a + b)[|a| + k - 1] == b[k - 1];
      PrefixSumAppend(a, b, k - 1, x, z, time, trig);
      AddAssoc(WaveSum(a, x, z, time, trig), PrefixSum(b, k - 1, x, z, time, trig), Contribution(b[k - 1], x, z, time, trig));
    }
  }

  /** The sum over two lists one after the other is the sum of the two sums. */
  lemma WaveSumAppend(a: seq<WaveSettings>, b: seq<WaveSettings>, x: real, z: real, time: real, trig: Trig)
    ensures WaveSum(a + b, x, z, time, trig) == Add(WaveSum(a, x, z, time, trig), WaveSum(b, x, z, time, trig))
  {
    PrefixSumAppend(a, b, |b|, x, z, time, trig);
  }

  /** Summation order does not matter: swapping two blocks of waves gives the same total. */
  lemma WaveSumOrderFree(a: seq<WaveSettings>, b: seq<WaveSettings>, x: real, z: real, time: real, trig: Trig)
    ensures WaveSum(a + b, x, z, time, trig) == WaveSum(b + a, x, z, time, trig)
  {
    WaveSumAppend(a, b, x, z, time, trig);
    WaveSumAppend(b, a, x, z, time, trig);
  }

  /** A wave with zero amplitude or zero wavenumber adds nothing to either total:
      dropping it from the list leaves the sum unchanged. */
  lemma SkippedWaveAddsNothing(ws: seq<WaveSettings>, i: nat, x: real, z: real, time: real, trig: Trig)
    requires i < |ws| && Skipped(ws[i])
    ensures WaveSum(ws, x, z, time, trig) == WaveSum(ws[..i] + ws[i + 1..], x, z, time, trig)
  {
    assert ws == ws[..i] + ([ws[i]] + ws[i + 1..]);
    WaveSumAppend(ws[..i], [ws[i]] + ws[i + 1..], x, z, time, trig);
    WaveSumAppend([ws[i]], ws[i + 1..], x, z, time, trig);
    AddNothing(NoDisplacement);
    assert PrefixSum([ws[i]], 0, x, z, time, trig) == NoDisplacement;
    assert WaveSum([ws[i]], x, z, time, trig) == Add(NoDisplacement, NoDisplacement);
    AddNothing(WaveSum(ws[i + 1..], x, z, time, trig));
    WaveSumAppend(ws[..i], ws[i + 1..], x, z, time, trig);
  }

  /** Once derived, a wave with a degenerate wavelength or zero amplitude contributes
      nothing, wherever and whenever it is sampled. */
  lemma DegenerateWaveIsInert(w: WaveSettings, x: real, z: real, time: real, trig: Trig)
    requires w.wavelength <= MinWavelength || w.amplitude == 0.0
    ensures Contribution(Derive(w, trig), x, z, time, trig) == NoDisplacement
  {
  }

  /** A single live wave displaces the surface by A sin(phase) vertically and by
      Q A d cos(phase) horizontally; with steepness 0 there is no horizontal part. */
  lemma SingleWave(w: WaveSettings, x: real, z: real, time: real, trig: Trig)
    requires !Skipped(w)
    ensures var d := WaveSum([w], x, z, time, trig);
      && d.height == w.amplitude * trig.sin(Phase(w, x, z, time))
      && d.horizontal == Vec2(w.steepness * w.amplitude * w.normalizedDirection.x * trig.cos(Phase(w, x, z, time)),
                              w.steepness * w.amplitude * w.normalizedDirection.y * trig.cos(Phase(w, x, z, time)))
      && (w.steepness == 0.0 ==> d.horizontal == Zero2)
  {
    var d := Contribution(w, x, z, time, trig);
    AddNothing(d);
    assert PrefixSum([w], 0, x, z, time, trig) == NoDisplacement;
    assert WaveSum([w], x, z, time, trig) == Add(NoDisplacement, d);
    var q := w.steepness * w.amplitude;
    var c := trig.cos(Phase(w, x, z, time));
    assert d == WaveTerms(w, trig.sin(Phase(w, x, z, time)), c);
    assert d.horizontal == Vec2(q * w.normalizedDirection.x * c, q * w.normalizedDirection.y * c);
  }
}
