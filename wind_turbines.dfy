/** Power output of a wind turbine for a vector of wind speeds, two ways:
    `GeneralWindTurbine` from the rated parameters alone (a cubic ramp from
    cut-in to rated speed, then flat rated power up to cut-out), and
    `WindTurbine` from a measured speed-to-power table, interpolated
    linearly inside the cut-in/cut-out envelope. Speeds and powers are
    exact reals. */
module WindTurbines {
  import opened Interpolation

  datatype Option<T> = None | Some(value: T)

  /** The measured power curve: the "Wind Speed [m/s]" and "Power [kW]"
      columns of the table, row by row. */
  datatype PowerCurve = PowerCurve(windSpeed: seq<real>, power: seq<real>)

  function Cube(x: real): real { x * x * x }

  /** On non-negative arguments cubing keeps order. */
  lemma CubeMonotone(x: real, y: real)
    requires 0.0 <= x <= y
    ensures 0.0 <= Cube(x) <= Cube(y)
  {
    assert 0.0 <= x * x <= y * y;
    assert x * x * x <= y * y * x <= y * y * y;
  }

  /** The cubic ramp grows with the wind speed. */
  lemma RampMonotone(ratedPower: real, vRated: real, v: real, w: real)
    requires 0.0 <= ratedPower && 0.0 <= v <= w && 0.0 < vRated
    ensures ratedPower * Cube(v / vRated) <= ratedPower * Cube(w / vRated)
  {
    var x, y := v / vRated, w / vRated;
    assert x <= y by {
      assert y - x == (w - v) / vRated;
    }
    CubeMonotone(x, y);
    assert ratedPower * Cube(x) <= ratedPower * Cube(y);
  }

  /** A turbine described only by its nameplate parameters. */
  class GeneralWindTurbine {
    const rotorDiameter: real
    const hubHeight: real
    const ratedPower: real
    const vIn: real
    const vRated: real
    const vOut: real
    const name: Option<string>

    constructor (rotorDiameter: real, hubHeight: real, ratedPower: real,
                 vIn: real, vRated: real, vOut: real, name: Option<string> := None)
      ensures this.rotorDiameter == rotorDiameter && this.hubHeight == hubHeight
      ensures this.ratedPower == ratedPower
      ensures this.vIn == vIn && this.vRated == vRated && this.vOut == vOut
      ensures this.name == name
    {
      this.rotorDiameter := rotorDiameter;
      this.hubHeight := hubHeight;
      this.ratedPower := ratedPower;
      this.vIn := vIn;
      this.vRated := vRated;
      this.vOut := vOut;
      this.name := name;
    }

    /** The ramp divides by the rated speed, so a speed that falls in the
        ramp needs a non-zero rated speed. */
    predicate Computable(v: real) {
      vIn <= v < vRated ==> vRated != 0.0
    }

    /** The three-region rule for one wind speed. */
    function PowerAt(v: real): real
      requires Computable(v)
    {
      if vIn <= v && v < vRated then ratedPower * Cube(v / vRated)
      else if vRated <= v && v <= vOut then ratedPower
      else 0.0
    }

    /** One output slot per input speed, each filled by the three-region rule. */
    method GetPower(speed: seq<real>) returns (P: array<real>)
      requires forall i | 0 <= i < |speed| :: Computable(speed[i])
      ensures fresh(P)
      ensures P.Length == |speed|
      ensures forall i | 0 <= i < |speed| :: P[i] == PowerAt(speed[i])
    {
      P := new real[|speed|](_ => 0.0);
      for i := 0 to |speed|
        invariant forall k | 0 <= k < i :: P[k] == PowerAt(speed[k])
      {
        var v := speed[i];
        if vIn <= v && v < vRated {
          P[i] := ratedPower * Cube(v / vRated);
        } else if vRated <= v && v <= vOut {
          P[i] := ratedPower;
        } else {
          P[i] := 0.0;
        }
      }
    }

    /** From cut-in (inclusive) to rated speed (exclusive) the power is the
        rated power scaled by the cube of the speed's fraction of rated
        speed; cut-in itself (v == vIn) belongs to the ramp. */
    lemma RampRegion(v: real)
      requires vIn <= v < vRated && vRated != 0.0
      ensures PowerAt(v) == ratedPower * Cube(v / vRated)
    {
    }

    /** From rated speed to cut-out speed, both inclusive, the power is
        exactly the rated power; rated speed is not part of the ramp. */
    lemma FlatRegion(v: real)
      requires vRated <= v <= vOut
      ensures PowerAt(v) == ratedPower
      ensures PowerAt(vRated) == ratedPower && PowerAt(vOut) == ratedPower
    {
    }

    /** With cut-in at or below rated speed, the turbine produces nothing
        below cut-in: such a speed is in neither the ramp nor the flat region. */
    lemma ZeroBelowCutIn(v: real)
      requires vIn <= vRated && v < vIn
      ensures PowerAt(v) == 0.0
    {
    }

    /** With rated speed at or below cut-out, the turbine produces nothing
        above cut-out: the ramp, which is tested first, ends before it. */
    lemma ZeroAboveCutOut(v: real)
      requires vRated <= vOut && vOut < v
      ensures PowerAt(v) == 0.0
    {
    }

    /** With a non-negative cut-in speed and rated power, every output lies
        between zero and the rated power. */
    lemma PowerBounded(v: real)
      requires 0.0 <= vIn && 0.0 <= ratedPower
      ensures 0.0 <= PowerAt(v) <= ratedPower
    {
      if vIn <= v < vRated {
        assert v / vRated * vRated == v;
        CubeMonotone(v / vRated, 1.0);
        assert 0.0 <= Cube(v / vRated) <= 1.0;
        assert ratedPower * Cube(v / vRated) <= ratedPower * 1.0;
      }
    }

    /** Inside the operating envelope the power never drops as the wind
        speed rises. */
    lemma PowerMonotone(v: real, w: real)
      requires 0.0 <= vIn && 0.0 <= ratedPower
      requires vIn <= v <= w <= vOut
      ensures PowerAt(v) <= PowerAt(w)
    {
      if w < vRated {
        RampPowerMonotone(v, w);
      } else if v < vRated {
        FlatRegion(w);
        PowerBounded(v);
      } else {
        FlatRegion(v);
        FlatRegion(w);
      }
    }

    /** Inside the ramp the power grows with the wind speed. */
    lemma RampPowerMonotone(v: real, w: real)
      requires 0.0 <= vIn && 0.0 <= ratedPower
      requires vIn <= v <= w < vRated
      ensures PowerAt(v) <= PowerAt(w)
    {
      RampMonotone(ratedPower, vRated, v, w);
      calc {
        PowerAt(v);
        ratedPower * Cube(v / vRated);
      <= ratedPower * Cube(w / vRated);
        PowerAt(w);
      }
    }
  }

  /** A turbine with a measured power curve; it carries the same nameplate
      parameters as `GeneralWindTurbine`. */
  class WindTurbine {
    const powerCurveData: PowerCurve
    const rotorDiameter: real
    const hubHeight: real
    const ratedPower: real
    const vIn: real
    const vRated: real
    const vOut: real
    const name: Option<string>

    constructor (powerCurveData: PowerCurve, rotorDiameter: real, hubHeight: real,
                 ratedPower: real, vIn: real, vRated: real, vOut: real,
                 name: Option<string> := None)
      ensures this.powerCurveData == powerCurveData
      ensures this.rotorDiameter == rotorDiameter && this.hubHeight == hubHeight
      ensures this.ratedPower == ratedPower
      ensures this.vIn == vIn && this.vRated == vRated && this.vOut == vOut
      ensures this.name == name
    {
      this.powerCurveData := powerCurveData;
      this.rotorDiameter := rotorDiameter;
      this.hubHeight := hubHeight;
      this.ratedPower := ratedPower;
      this.vIn := vIn;
      this.vRated := vRated;
      this.vOut := vOut;
      this.name := name;
    }

    /** The table can be interpolated: non-empty, equal-length columns,
        strictly increasing speeds. */
    predicate CurveUsable() {
      IsTable(powerCurveData.windSpeed, powerCurveData.power)
    }

    /** Only speeds inside the envelope consult the table. */
    predicate Computable(v: real) {
      !(v < vIn || v > vOut) ==> CurveUsable()
    }

    /** The measured rule for one wind speed. */
    function PowerAt(v: real): real
      requires Computable(v)
    {
      if v < vIn || v > vOut then 0.0
      else Interp(v, powerCurveData.windSpeed, powerCurveData.power)
    }

    /** One output slot per input speed, each filled by the measured rule. */
    method GetPower(speed: seq<real>) returns (P: array<real>)
      requires forall i | 0 <= i < |speed| :: Computable(speed[i])
      ensures fresh(P)
      ensures P.Length == |speed|
      ensures forall i | 0 <= i < |speed| :: P[i] == PowerAt(speed[i])
    {
      var vData := powerCurveData.windSpeed;
      var pData := powerCurveData.power;
      P := new real[|speed|](_ => 0.0);
      for i := 0 to |speed|
        invariant forall k | 0 <= k < i :: P[k] == PowerAt(speed[k])
      {
        var v := speed[i];
        if v < vIn || v > vOut {
          P[i] := 0.0;
        } else {
          P[i] := Interp(v, vData, pData);
        }
      }
    }

    /** Below cut-in or above cut-out the output is zero, whatever the
        table holds. */
    lemma ZeroOutsideEnvelope(v: real)
      requires v < vIn || v > vOut
      ensures PowerAt(v) == 0.0
    {
    }

    /** At a measured speed inside the envelope the measured power is
        returned exactly. */
    lemma MatchesTable(k: nat)
      requires CurveUsable() && k < |powerCurveData.windSpeed|
      requires vIn <= powerCurveData.windSpeed[k] <= vOut
      ensures PowerAt(powerCurveData.windSpeed[k]) == powerCurveData.power[k]
    {
      InterpAtSample(powerCurveData.windSpeed, powerCurveData.power, k);
    }

    /** Inside the envelope but at or below the first measured speed, the
        first measured power is returned. */
    lemma ClampBelowTable(v: real)
      requires CurveUsable() && vIn <= v <= vOut
      requires v <= powerCurveData.windSpeed[0]
      ensures PowerAt(v) == powerCurveData.power[0]
    {
      InterpBelow(v, powerCurveData.windSpeed, powerCurveData.power);
    }

    /** Inside the envelope but at or above the last measured speed, the
        last measured power is returned. */
    lemma ClampAboveTable(v: real)
      requires CurveUsable() && vIn <= v <= vOut
      requires powerCurveData.windSpeed[|powerCurveData.windSpeed| - 1] <= v
      ensures PowerAt(v) == powerCurveData.power[|powerCurveData.power| - 1]
    {
      InterpAbove(v, powerCurveData.windSpeed, powerCurveData.power);
    }

    /** Inside the envelope and between measured speeds j and j + 1, the
        output is the straight line between the two measured powers. */
    lemma LinearBetweenSamples(v: real, j: nat)
      requires CurveUsable() && vIn <= v <= vOut
      requires j + 1 < |powerCurveData.windSpeed|
      requires powerCurveData.windSpeed[j] <= v < powerCurveData.windSpeed[j + 1]
      ensures PowerAt(v) == Lerp(powerCurveData.windSpeed[j], powerCurveData.power[j],
                                 powerCurveData.windSpeed[j + 1], powerCurveData.power[j + 1], v)
    {
      InterpOnSegment(v, powerCurveData.windSpeed, powerCurveData.power, j);
    }

    /** Inside the envelope and between measured speeds j and j + 1, the
        output lies between the two measured powers. */
    lemma BetweenBracketingPowers(v: real, j: nat)
      requires CurveUsable() && vIn <= v <= vOut
      requires j + 1 < |powerCurveData.windSpeed|
      requires powerCurveData.windSpeed[j] <= v <= powerCurveData.windSpeed[j + 1]
      ensures Min(powerCurveData.power[j], powerCurveData.power[j + 1]) <= PowerAt(v)
      ensures PowerAt(v) <= Max(powerCurveData.power[j], powerCurveData.power[j + 1])
    {
      InterpBetween(v, powerCurveData.windSpeed, powerCurveData.power, j);
    }

    /** Between measured speeds j and j + 1 with non-falling powers, the
        output inside the envelope never drops as the speed rises. */
    lemma MonotoneBetweenSamples(v: real, w: real, j: nat)
      requires CurveUsable() && vIn <= v <= w <= vOut
      requires j + 1 < |powerCurveData.windSpeed|
      requires powerCurveData.windSpeed[j] <= v && w <= powerCurveData.windSpeed[j + 1]
      requires powerCurveData.power[j] <= powerCurveData.power[j + 1]
      ensures PowerAt(v) <= PowerAt(w)
    {
      InterpSegmentMonotone(v, w, powerCurveData.windSpeed, powerCurveData.power, j);
    }

    /** With measured powers that never fall, the output never drops inside
        the envelope. */
    lemma PowerMonotone(v: real, w: real)
      requires CurveUsable() && NonDecreasing(powerCurveData.power)
      requires vIn <= v <= w <= vOut
      ensures PowerAt(v) <= PowerAt(w)
    {
      InterpMonotone(v, w, powerCurveData.windSpeed, powerCurveData.power);
    }

    /** With every measured power between zero and the rated power, every
        output is too. */
    lemma PowerBounded(v: real)
      requires CurveUsable()
      requires forall k | 0 <= k < |powerCurveData.power| :: 0.0 <= powerCurveData.power[k] <= ratedPower
      ensures 0.0 <= PowerAt(v) <= ratedPower
    {
      if !(v < vIn || v > vOut) {
        InterpWithin(v, powerCurveData.windSpeed, powerCurveData.power, 0.0, ratedPower);
      } else {
        assert 0.0 <= powerCurveData.power[0] <= ratedPower;
      }
    }
  }

  /** The worked scenarios for both rules: a 2000 kW turbine with cut-in 3,
      rated 12 and cut-out 25 m/s, and a four-row measured curve. */
  method Scenarios() {
    var general := new GeneralWindTurbine(90.0, 80.0, 2000.0, 3.0, 12.0, 25.0, Some("GENERAL"));
    var p := general.GetPower([2.0, 3.0, 6.0, 12.0, 20.0, 26.0]);
    assert p[..] == [0.0, 31.25, 250.0, 2000.0, 2000.0, 0.0];

    var curve := PowerCurve([3.0, 6.0, 12.0, 25.0], [0.0, 300.0, 2000.0, 2000.0]);
    var measured := new WindTurbine(curve, 90.0, 80.0, 2000.0, 3.0, 12.0, 25.0, Some("SPECIFIC"));
    assert measured.CurveUsable();
    var q := measured.GetPower([2.0, 4.0, 6.0, 25.0, 26.0]);
    assert q[..] == [0.0, 100.0, 300.0, 2000.0, 0.0];
  }
}
