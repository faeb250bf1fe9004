/**
 * The exclusion-ring pipeline of `planRouteWithExclusions`: every
 * dangerous geometry contributes the exterior ring of its first polygon;
 * rings that are too short or hold anything but number pairs are
 * dropped; the survivors have every component rounded to six decimals
 * and are closed by repeating their first vertex.
 */
module ExclusionRings {
  import opened Wrappers
  import Seqs

  /**
   * One slot of a coordinate pair in the hazard data, as far as the two
   * JavaScript conversions the pipeline applies tell values apart.
   */
  datatype Component =
    | Numeric(value: real)        // a value both conversions read as this number, such as 1.5 or "1.5"
    | NumeralPrefix(value: real)  // text whose leading numeral `parseFloat` reads and that `Number` rejects, such as "1.5x"
    | Radix(value: real)          // a hexadecimal, binary or octal string such as "0x10": `parseFloat` reads its leading 0, `Number` reads this value
    | NonNumeric                  // a value `parseFloat` cannot read, such as null, true or "abc"

  /** A JavaScript number: a finite value or NaN. */
  datatype Num = Finite(value: real) | NaN

  /** `parseFloat(c)`: reads the longest leading numeral and ignores the rest. */
  function ParseFloat(c: Component): Num
  {
    match c
    case Numeric(v) => Finite(v)
    case NumeralPrefix(v) => Finite(v)
    case Radix(_) => Finite(0.0)
    case NonNumeric => NaN
  }

  /**
   * `Number(c)` on a value `parseFloat` reads: trailing text after the
   * numeral makes it NaN, and a radix prefix is honoured. The conversion is only reached for values that
   * passed a `parseFloat` check, so what `Number` does with null, "" or
   * booleans (0 or 1) never matters and is not modelled.
   */
  function ToNumber(c: Component): Num
  {
    match c
    case Numeric(v) => Finite(v)
    case Radix(v) => Finite(v)
    case _ => NaN
  }

  const HalfMicro: real := 0.0000005
  /** From this magnitude on `toFixed` prints the plain number string instead. */
  const ToFixedLimit: real := 1000000000000000000000.0

  /** `x` is a whole number of millionths. */
  predicate OnMicroGrid(x: real)
  {
    (x * 1000000.0).Floor as real == x * 1000000.0
  }

  /**
   * `parseFloat(x.toFixed(6))`: the nearest multiple of one millionth,
   * ties rounded away from zero (toFixed rounds the magnitude and puts
   * the sign back); magnitudes of 10^21 and more come back unchanged.
   */
  function Round6(x: real): (r: real)
    ensures x <= -ToFixedLimit || ToFixedLimit <= x ==> r == x
    ensures -ToFixedLimit < x < ToFixedLimit ==> OnMicroGrid(r) && -HalfMicro <= r - x <= HalfMicro
    ensures 0.0 <= x < ToFixedLimit ==> -HalfMicro < r - x
    ensures -ToFixedLimit < x < 0.0 ==> r - x < HalfMicro
  {
    if x <= -ToFixedLimit || ToFixedLimit <= x then x
    else if x < 0.0 then
      var n := (-x * 1000000.0 + 0.5).Floor;
      MultipleOfMicroIsOnGrid(-n);
      -(n as real * 0.000001)
    else
      var n := (x * 1000000.0 + 0.5).Floor;
      MultipleOfMicroIsOnGrid(n);
      n as real * 0.000001
  }

  lemma MultipleOfMicroIsOnGrid(n: int)
    ensures OnMicroGrid(n as real * 0.000001)
  {
    assert n as real * 0.000001 * 1000000.0 == n as real;
  }

  /** Two whole numbers of millionths less than half a millionth apart are equal. */
  lemma GridPointsApart(x: real, y: real)
    requires OnMicroGrid(x) && OnMicroGrid(y)
    requires -HalfMicro <= x - y <= HalfMicro
    ensures x == y
  {
    var a, b := (x * 1000000.0).Floor, (y * 1000000.0).Floor;
    var d := a - b;
    assert d as real == x * 1000000.0 - y * 1000000.0;
    assert -0.5 <= d as real <= 0.5 by {
      assert x * 1000000.0 - y * 1000000.0 == (x - y) * 1000000.0;
    }
    assert d == 0;
    assert x * 1000000.0 == y * 1000000.0;
  }

  /** Rounding a rounded value again changes nothing. */
  lemma RoundIsIdempotent(x: real)
    ensures Round6(Round6(x)) == Round6(x)
  {
    var r := Round6(x);
    if -ToFixedLimit < r < ToFixedLimit && -ToFixedLimit < x < ToFixedLimit {
      GridPointsApart(Round6(r), r);
    }
  }

  /** A raw point of a ring: missing (`null`/`undefined`) or an array of components. */
  datatype RawPoint = Missing | Tuple(items: seq<Component>)

  type RawRing = seq<RawPoint>

  /**
   * A dangerous geometry: `coordinates` nests as a MultiPolygon does,
   * polygons of rings (a ring may be null) of points.
   */
  datatype Geometry = Geometry(kind: string, coordinates: seq<seq<Option<RawRing>>>)

  /** Reading `coordinates[0][0]` of a geometry that has no polygon. */
  datatype Fault = TypeError

  /** A cleaned `[lon, lat]` position. */
  datatype Position = Position(lon: Num, lat: Num)

  /** `a === b` on numbers: NaN equals nothing, not even itself. */
  predicate SameNumber(a: Num, b: Num)
  {
    a.Finite? && b.Finite? && a.value == b.value
  }

  /** The negation of `p[0] !== q[0] || p[1] !== q[1]`. */
  predicate SamePosition(p: Position, q: Position)
  {
    SameNumber(p.lon, q.lon) && SameNumber(p.lat, q.lat)
  }

  /** A number that rounding to six decimals leaves as it is. */
  predicate IsRounded(n: Num)
  {
    n.Finite? ==> Round6(n.value) == n.value
  }

  /** The check of line 37 as written: a two-element array whose slots `parseFloat` reads. */
  predicate IsParsedPair(p: RawPoint)
  {
    p.Tuple? && |p.items| == 2 && ParseFloat(p.items[0]).Finite? && ParseFloat(p.items[1]).Finite?
  }

  /**
   * The ring filter of lines 35-39 as written: present, more than two
   * points, every one a parsed pair. A ring it keeps can still clean to
   * NaN, exactly in the slots whose trailing text `Number` rejects.
   */
  predicate KeptAsWritten(ring: Option<RawRing>): (kept: bool)
    ensures kept ==> ring.Some? && |ring.value| > 2 && forall i :: 0 <= i < |ring.value| ==>
      && ring.value[i].Tuple? && |ring.value[i].items| == 2
      && (CleanPoint(ring.value[i]).lon.NaN? <==> ring.value[i].items[0].NumeralPrefix?)
      && (CleanPoint(ring.value[i]).lat.NaN? <==> ring.value[i].items[1].NumeralPrefix?)
  {
    ring.Some? && |ring.value| > 2 && forall i :: 0 <= i < |ring.value| ==> IsParsedPair(ring.value[i])
  }

  /** The check as intended: both slots are numbers for `Number`, the conversion the cleaning uses. */
  predicate IsNumberPair(p: RawPoint)
  {
    p.Tuple? && |p.items| == 2 && ToNumber(p.items[0]).Finite? && ToNumber(p.items[1]).Finite?
  }

  /**
   * The ring filter as intended: present, more than two points, every
   * one a number pair. It is stricter than the filter as written.
   */
  predicate Kept(ring: Option<RawRing>): (kept: bool)
    ensures kept ==> KeptAsWritten(ring)
  {
    ring.Some? && |ring.value| > 2 && forall i :: 0 <= i < |ring.value| ==> IsNumberPair(ring.value[i])
  }

  /** A ring filter that keeps only rings the cleaning can read: the source's own, or a stricter one. */
  ghost predicate Admissible(keep: Option<RawRing> -> bool)
  {
    forall ring :: keep(ring) ==> KeptAsWritten(ring)
  }

  /**
   * `parseFloat(Number(c).toFixed(6))`: NaN exactly when `Number` cannot
   * read the slot, and otherwise the number rounded to six decimals, so
   * that rounding it again changes nothing.
   */
  function CleanComponent(c: Component): (n: Num)
    ensures n.Finite? <==> ToNumber(c).Finite?
    ensures n.Finite? ==> n.value == Round6(ToNumber(c).value)
    ensures IsRounded(n)
  {
    match ToNumber(c)
    case Finite(x) =>
      RoundIsIdempotent(x);
      Finite(Round6(x))
    case NaN => NaN
  }

  function CleanPoint(p: RawPoint): Position
    requires p.Tuple? && |p.items| == 2
  {
    Position(CleanComponent(p.items[0]), CleanComponent(p.items[1]))
  }

  /**
   * `if (first !== last) ring.push(first)`: the ring gains a copy of its
   * first vertex exactly when its ends differ; earlier vertices stay.
   */
  function Close(ring: seq<Position>): (r: seq<Position>)
    requires |ring| > 0
    ensures |r| == if SamePosition(ring[0], ring[|ring| - 1]) then |ring| else |ring| + 1
    ensures r[..|ring|] == ring
    ensures r[|r| - 1] == r[0]
    ensures r[0].lon.Finite? && r[0].lat.Finite? ==> SamePosition(r[0], r[|r| - 1])
  {
    if !SamePosition(ring[0], ring[|ring| - 1]) then ring + [ring[0]] else ring
  }

  /**
   * One kept ring, cleaned and closed: vertex `j` is raw vertex `j` with
   * each component passed through `Number` and rounded to six decimals,
   * and the ring ends where it starts.
   */
  function CleanRing(ring: Option<RawRing>): (r: seq<Position>)
    requires KeptAsWritten(ring)
    ensures |ring.value| <= |r| <= |ring.value| + 1
    ensures forall j :: 0 <= j < |ring.value| ==> r[j] == CleanPoint(ring.value[j])
    ensures |r| == |ring.value| + 1 <==>
      !SamePosition(CleanPoint(ring.value[0]), CleanPoint(ring.value[|ring.value| - 1]))
    ensures r[|r| - 1] == r[0]
    ensures ClosedRoundedRing(r)
  {
    var points := ring.value;
    var cleaned := Seqs.Map(points, CleanPoint);
    var r := Close(cleaned);
    assert forall j :: 0 <= j < |points| ==> r[j] == cleaned[j];
    assert forall j :: 0 <= j < |r| ==> r[j] == cleaned[if j < |points| then j else 0];
    r
  }

  /**
   * `g.coordinates[0][0]`, for a geometry with at least one polygon;
   * reading it from an empty first polygon gives `undefined`, which no
   * filter keeps.
   */
  function FirstExteriorRing(g: Geometry): (r: Option<RawRing>)
    requires |g.coordinates| > 0
    ensures |g.coordinates[0]| > 0 ==> r == g.coordinates[0][0]
    ensures |g.coordinates[0]| == 0 ==> !KeptAsWritten(r) && !Kept(r)
  {
    if |g.coordinates[0]| == 0 then None else g.coordinates[0][0]
  }

  predicate HasPolygon(g: Geometry)
  {
    |g.coordinates| > 0
  }

  /**
   * `geometries.map(g => g.coordinates[0][0])`: one ring (or nothing) per
   * geometry, in order; a geometry without any polygon makes the map throw.
   */
  function ExteriorRings(gs: seq<Geometry>): (r: Result<seq<Option<RawRing>>, Fault>)
    ensures r.Failure? <==> exists i :: 0 <= i < |gs| && !HasPolygon(gs[i])
    ensures r.Success? ==> |r.value| == |gs|
    ensures r.Success? ==> forall i :: 0 <= i < |gs| ==> r.value[i] == FirstExteriorRing(gs[i])
  {
    if exists i :: 0 <= i < |gs| && !HasPolygon(gs[i]) then Failure(TypeError)
    else Success(Seqs.Map(gs, FirstExteriorRing))
  }

  /** What every ring sent to the router satisfies: three vertices or more, rounded numbers, first vertex repeated last. */
  predicate ClosedRoundedRing(ring: seq<Position>)
  {
    && |ring| >= 3
    && (forall j :: 0 <= j < |ring| ==> IsRounded(ring[j].lon) && IsRounded(ring[j].lat))
    && ring[|ring| - 1] == ring[0]
  }

  /** What every ring of the corrected pipeline also satisfies: finite numbers, ends comparing equal. */
  predicate WellFormed(ring: seq<Position>)
  {
    && ClosedRoundedRing(ring)
    && (forall j :: 0 <= j < |ring| ==> ring[j].lon.Finite? && ring[j].lat.Finite?)
    && SamePosition(ring[|ring| - 1], ring[0])
  }

  /** The rings that pass `keep`, in input order, each cleaned and closed (lines 35-53). */
  function ExcludeRingsWith(rings: seq<Option<RawRing>>, keep: Option<RawRing> -> bool): (r: seq<seq<Position>>)
    requires Admissible(keep)
    ensures |r| <= |rings|
    ensures forall k :: 0 <= k < |r| ==> ClosedRoundedRing(r[k])
  {
    var kept := Seqs.Filter(rings, keep);
    assert forall i :: 0 <= i < |kept| ==> kept[i] in kept;
    Seqs.Map(kept, CleanRing)
  }

  /** Lines 33-53 for a given ring filter. */
  function ExcludePolygonsWith(gs: seq<Geometry>, keep: Option<RawRing> -> bool): (r: Result<seq<seq<Position>>, Fault>)
    requires Admissible(keep)
    ensures r.Failure? <==> exists i :: 0 <= i < |gs| && !HasPolygon(gs[i])
    ensures r.Success? ==> |r.value| <= |gs|
    ensures r.Success? ==> forall k :: 0 <= k < |r.value| ==> ClosedRoundedRing(r.value[k])
  {
    match ExteriorRings(gs)
    case Failure(e) => Failure(e)
    case Success(rings) => Success(ExcludeRingsWith(rings, keep))
  }

  /**
   * The exclusion polygons as the source computes them: a geometry
   * without a polygon throws; otherwise at most one ring per geometry,
   * each with at least three vertices, rounded numbers (NaN aside), and
   * its first vertex repeated last.
   */
  function ExcludePolygonsAsWritten(gs: seq<Geometry>): (r: Result<seq<seq<Position>>, Fault>)
    ensures r.Failure? <==> exists i :: 0 <= i < |gs| && !HasPolygon(gs[i])
    ensures r.Success? ==> |r.value| <= |gs|
    ensures r.Success? ==> forall k :: 0 <= k < |r.value| ==> ClosedRoundedRing(r.value[k])
  {
    ExcludePolygonsWith(gs, KeptAsWritten)
  }

  /** Every ring the corrected filter lets through is well formed. */
  lemma CorrectedRingsAreWellFormed(rings: seq<Option<RawRing>>)
    ensures forall k :: 0 <= k < |ExcludeRingsWith(rings, Kept)| ==> WellFormed(ExcludeRingsWith(rings, Kept)[k])
  {
    var kept := Seqs.Filter(rings, Kept);
    var r := ExcludeRingsWith(rings, Kept);
    forall k | 0 <= k < |r| ensures WellFormed(r[k]) {
      assert kept[k] in kept;
      CleanedKeptRingIsWellFormed(kept[k]);
    }
  }

  /**
   * The exclusion polygons with the numeric check made to agree with the
   * conversion the cleaning applies: a malformed ring is dropped, every
   * emitted ring has at least three vertices, only rounded finite
   * numbers, and ends on its first vertex.
   */
  function ExcludePolygons(gs: seq<Geometry>): (r: Result<seq<seq<Position>>, Fault>)
    ensures r.Failure? <==> exists i :: 0 <= i < |gs| && !HasPolygon(gs[i])
    ensures r.Success? ==> |r.value| <= |gs|
    ensures r.Success? ==> forall k :: 0 <= k < |r.value| ==> WellFormed(r.value[k])
  {
    match ExteriorRings(gs)
    case Failure(e) => Failure(e)
    case Success(rings) =>
      CorrectedRingsAreWellFormed(rings);
      Success(ExcludeRingsWith(rings, Kept))
  }

  lemma CleanedKeptRingIsWellFormed(ring: Option<RawRing>)
    requires Kept(ring)
    ensures KeptAsWritten(ring) && WellFormed(CleanRing(ring))
  {
    var r := CleanRing(ring);
    var n := |ring.value|;
    forall j | 0 <= j < |r| ensures r[j].lon.Finite? && r[j].lat.Finite?
    {
      var i := if j < n then j else 0;
      assert r[j] == CleanPoint(ring.value[i]);
    }
  }

  /** The ring pass distributes over concatenation: surviving rings keep their relative order. */
  lemma ExcludeRingsAppend(ra: seq<Option<RawRing>>, rb: seq<Option<RawRing>>, keep: Option<RawRing> -> bool)
    requires Admissible(keep)
    ensures ExcludeRingsWith(ra + rb, keep) == ExcludeRingsWith(ra, keep) + ExcludeRingsWith(rb, keep)
  {
    Seqs.FilterAppend(ra, rb, keep);
    var ka, kb := Seqs.Filter(ra, keep), Seqs.Filter(rb, keep);
    assert forall i :: 0 <= i < |ka| ==> ka[i] in ka;
    assert forall i :: 0 <= i < |kb| ==> kb[i] in kb;
    Seqs.MapAppend(ka, kb, CleanRing);
  }

  /**
   * Concatenating geometry lists concatenates their exclusion rings:
   * survivors keep their relative order.
   */
  lemma ExcludePolygonsAppend(a: seq<Geometry>, b: seq<Geometry>, keep: Option<RawRing> -> bool)
    requires Admissible(keep)
    requires ExcludePolygonsWith(a, keep).Success? && ExcludePolygonsWith(b, keep).Success?
    ensures ExcludePolygonsWith(a + b, keep) ==
      Success(ExcludePolygonsWith(a, keep).value + ExcludePolygonsWith(b, keep).value)
  {
    var ra, rb := ExteriorRings(a).value, ExteriorRings(b).value;
    assert ExteriorRings(a + b) == Success(ra + rb) by {
      Seqs.MapAppend(a, b, FirstExteriorRing);
    }
    ExcludeRingsAppend(ra, rb, keep);
  }

  /** A single geometry contributes its cleaned first exterior ring when that ring is kept, and nothing otherwise. */
  lemma ExcludePolygonsOfOne(g: Geometry, keep: Option<RawRing> -> bool)
    requires Admissible(keep) && HasPolygon(g)
    ensures ExcludePolygonsWith([g], keep) ==
      Success(if keep(FirstExteriorRing(g)) then [CleanRing(FirstExteriorRing(g))] else [])
  {
    var ring := FirstExteriorRing(g);
    assert ExteriorRings([g]).Success?;
    assert ExteriorRings([g]).value == [ring];
    assert [ring][..0] == [];
    var kept := Seqs.Filter([ring], keep);
    assert kept == if keep(ring) then [ring] else [];
    if keep(ring) {
      assert Seqs.Map(kept, CleanRing) == [CleanRing(ring)];
    }
  }

  /** A geometry whose ring fails the filter is dropped without affecting any other ring. */
  lemma MalformedRingIsDropped(a: seq<Geometry>, g: Geometry, b: seq<Geometry>, keep: Option<RawRing> -> bool)
    requires Admissible(keep) && HasPolygon(g) && !keep(FirstExteriorRing(g))
    ensures ExcludePolygonsWith(a + [g] + b, keep) == ExcludePolygonsWith(a + b, keep)
  {
    if ExcludePolygonsWith(a, keep).Success? && ExcludePolygonsWith(b, keep).Success? {
      ExcludePolygonsOfOne(g, keep);
      ExcludePolygonsAppend(a, [g], keep);
      assert ExcludePolygonsWith(a, keep).value + [] == ExcludePolygonsWith(a, keep).value;
      ExcludePolygonsAppend(a + [g], b, keep);
      ExcludePolygonsAppend(a, b, keep);
    } else {
      FaultIsKept(a, g, b, keep);
    }
  }

  /** A geometry without a polygon on either side of `g` makes both lists fail. */
  lemma FaultIsKept(a: seq<Geometry>, g: Geometry, b: seq<Geometry>, keep: Option<RawRing> -> bool)
    requires Admissible(keep)
    requires ExcludePolygonsWith(a, keep).Failure? || ExcludePolygonsWith(b, keep).Failure?
    ensures ExcludePolygonsWith(a + [g] + b, keep) == ExcludePolygonsWith(a + b, keep) == Failure(TypeError)
  {
    var i: int, j: int;
    if ExteriorRings(a).Failure? {
      var k :| 0 <= k < |a| && !HasPolygon(a[k]);
      i, j := k, k;
    } else {
      var k :| 0 <= k < |b| && !HasPolygon(b[k]);
      i, j := |a| + 1 + k, |a| + k;
    }
    assert !HasPolygon((a + [g] + b)[i]);
    assert !HasPolygon((a + b)[j]);
    assert ExteriorRings(a + [g] + b).Failure?;
    assert ExteriorRings(a + b).Failure?;
  }

  /**
   * Only `coordinates[0][0]` is read: geometries that agree on whether
   * they have a polygon and on their first polygon's exterior ring give
   * the same exclusion rings, whatever their other polygons and holes.
   */
  lemma OnlyFirstExteriorRingMatters(gs: seq<Geometry>, hs: seq<Geometry>, keep: Option<RawRing> -> bool)
    requires Admissible(keep)
    requires |gs| == |hs|
    requires forall i :: 0 <= i < |gs| ==>
      HasPolygon(gs[i]) == HasPolygon(hs[i]) &&
      (HasPolygon(gs[i]) ==> FirstExteriorRing(gs[i]) == FirstExteriorRing(hs[i]))
    ensures ExcludePolygonsWith(gs, keep) == ExcludePolygonsWith(hs, keep)
  {
    if ExteriorRings(gs).Success? {
      assert ExteriorRings(gs).value == ExteriorRings(hs).value;
    } else {
      var i :| 0 <= i < |gs| && !HasPolygon(gs[i]);
      assert !HasPolygon(hs[i]);
    }
  }

  /** Both the filter as written and the corrected one qualify, so every lemma above holds for each. */
  lemma BothFiltersAdmissible()
    ensures Admissible(KeptAsWritten) && Admissible(Kept)
  {
  }

  /** The corrected pipeline is the pipeline as written with the intended filter. */
  lemma CorrectedIsPipelineWithIntendedFilter(gs: seq<Geometry>)
    ensures ExcludePolygons(gs) == ExcludePolygonsWith(gs, Kept)
  {
  }

  /**
   * On input where every ring the source keeps is also a ring of
   * numbers, the correction changes nothing: the two pipelines differ
   * only on slots holding a numeral followed by other text.
   */
  lemma CorrectionAgreesOnNumericRings(gs: seq<Geometry>)
    requires forall i :: 0 <= i < |gs| && HasPolygon(gs[i]) && KeptAsWritten(FirstExteriorRing(gs[i])) ==>
      Kept(FirstExteriorRing(gs[i]))
    ensures ExcludePolygonsAsWritten(gs) == ExcludePolygons(gs)
  {
    if ExteriorRings(gs).Success? {
      var rings := ExteriorRings(gs).value;
      forall i | 0 <= i < |rings| ensures KeptAsWritten(rings[i]) == Kept(rings[i]) {
        assert rings[i] == FirstExteriorRing(gs[i]);
      }
      Seqs.FilterAgrees(rings, KeptAsWritten, Kept);
    }
  }

  /** A ring whose first slot reads "1.5x": it passes `parseFloat`, but `Number` makes it NaN. */
  const PrefixedGeometry: Geometry := Geometry("MultiPolygon", [[Some([
    Tuple([NumeralPrefix(1.5), Numeric(0.0)]),
    Tuple([Numeric(1.0), Numeric(1.0)]),
    Tuple([Numeric(2.0), Numeric(0.0)])])]])

  /**
   * As written, that ring is kept and sent with a NaN component (which
   * `JSON.stringify` turns into null), and its ends no longer compare
   * equal; with the corrected check it is dropped.
   */
  lemma NumeralPrefixKeptAsNaN()
    ensures ExcludePolygonsAsWritten([PrefixedGeometry]).Success?
    ensures var out := ExcludePolygonsAsWritten([PrefixedGeometry]).value;
      && |out| == 1 && out[0][0].lon == NaN
      && !SamePosition(out[0][|out[0]| - 1], out[0][0])
    ensures ExcludePolygons([PrefixedGeometry]) == Success([])
  {
    var g := PrefixedGeometry;
    var ring := FirstExteriorRing(g);
    assert KeptAsWritten(ring);
    assert !IsNumberPair(ring.value[0]);
    ExcludePolygonsOfOne(g, KeptAsWritten);
    ExcludePolygonsOfOne(g, Kept);
  }
}
