# Wind turbine power curves

A model of the power computation in `week09_classes_inheritance_and_OOP/class_test.py`.
Two turbine classes turn a vector of wind speeds into a vector of power values:

- `GeneralWindTurbine` uses its nameplate parameters (rated power; cut-in, rated and cut-out speeds).
  Between cut-in (inclusive) and rated speed (exclusive) the power rises with the cube of the speed's fraction of rated speed.
  Between rated and cut-out speed, both inclusive, it is the rated power.
  Everywhere else it is zero.
- `WindTurbine` carries the same parameters plus a measured power curve (wind speed and power columns).
  Below cut-in or above cut-out it gives zero.
  Inside that envelope it gives numpy's `interp` of the measured curve.
  That is piecewise-linear interpolation that clamps to the first or last measured power beyond the ends of the table.

Layout:

- `interpolation.dfy`, module `Interpolation`: numpy's `interp` as a recursive function `Interp` over a table of points `xp` and values `fp`, plus its properties.
  These are the indexed characterisation (`InterpOnSegment`), exactness at samples, clamping at both ends, range and monotonicity.
- `wind_turbines.dfy`, module `WindTurbines`: the two classes.
  Their fields are `const`, because the constructors set them once and nothing changes them afterwards.
  Each class has a per-speed rule `PowerAt` and a method `GetPower`.
  `GetPower` allocates a zero-filled array, fills it slot by slot in a loop, and is proved equal to `PowerAt` at every index.
  The lemmas beside each class state the properties of the rule.
  `Scenarios` checks two worked examples: a 2000 kW turbine at speeds 2, 3, 6, 12, 20 and 26 gives 0, 31.25, 250, 2000, 2000 and 0; a four-row measured curve gives 0, 100, 300, 2000 and 0.

Speeds and powers are exact `real`s.
The DataFrame holding the measured curve is the datatype `PowerCurve`, with two sequences for its "Wind Speed [m/s]" and "Power [kW]" columns.
The optional `name` is an `Option<string>`.

Preconditions are per speed, and only where the code would otherwise be undefined:

- The general rule divides by the rated speed only for a speed in the ramp, so only such a speed needs `vRated != 0` (`GeneralWindTurbine.Computable`).
- The measured rule consults the table only for a speed inside `[vIn, vOut]`, so only such a speed needs a usable table (`WindTurbine.Computable`).
  A usable table is non-empty, has equal-length columns and has strictly increasing speeds.

For `GeneralWindTurbine` the ramp branch is tested first and the flat branch second, so "zero outside `[v_in, v_out]`" depends on the order of the three speeds:

- Zero below cut-in needs `v_in <= v_rated` (`GeneralWindTurbine.ZeroBelowCutIn`). With `v_rated < v_in`, speeds in `[v_rated, v_in)` that are also at most `v_out` get rated power.
- Zero above cut-out needs `v_rated <= v_out` (`GeneralWindTurbine.ZeroAboveCutOut`). With `v_out < v_rated`, speeds in `(v_out, v_rated)` at or above cut-in fall in the ramp branch.

`WindTurbine` tests the envelope first, so it gives zero outside `[v_in, v_out]` whatever the other parameters are.

## Model

| member | source | states |
|---|---|---|
| `WindTurbines.GeneralWindTurbine.constructor` | week09_classes_inheritance_and_OOP/class_test.py:11-19 | the new turbine holds exactly the seven given parameters; the name defaults to none |
| `WindTurbines.GeneralWindTurbine.GetPower` | week09_classes_inheritance_and_OOP/class_test.py:21-34 | returns a new array as long as the speed vector whose every slot is the three-region power of the speed at that index |
| `WindTurbines.GeneralWindTurbine.RampRegion` | week09_classes_inheritance_and_OOP/class_test.py:27-28 | for cut-in <= v < rated speed the power is rated power times (v / rated speed) cubed; v == cut-in is in the ramp |
| `WindTurbines.GeneralWindTurbine.FlatRegion` | week09_classes_inheritance_and_OOP/class_test.py:29-30 | for rated speed <= v <= cut-out the power is exactly rated power; both v == rated speed and v == cut-out give rated power |
| `WindTurbines.GeneralWindTurbine.ZeroBelowCutIn` | week09_classes_inheritance_and_OOP/class_test.py:27-32 | with cut-in <= rated speed, every speed below cut-in gives 0 |
| `WindTurbines.GeneralWindTurbine.ZeroAboveCutOut` | week09_classes_inheritance_and_OOP/class_test.py:27-32 | with rated speed <= cut-out, every speed above cut-out gives 0 |
| `WindTurbines.GeneralWindTurbine.PowerBounded` | week09_classes_inheritance_and_OOP/class_test.py:27-32 | with non-negative cut-in speed and rated power, every output lies in [0, rated power] |
| `WindTurbines.GeneralWindTurbine.PowerMonotone` | week09_classes_inheritance_and_OOP/class_test.py:27-32 | with non-negative cut-in speed and rated power, power is non-decreasing in speed on [cut-in, cut-out] |
| `WindTurbines.GeneralWindTurbine.RampPowerMonotone` | week09_classes_inheritance_and_OOP/class_test.py:27-28 | with non-negative cut-in speed and rated power, the ramp power is non-decreasing in speed on [cut-in, rated speed) |
| `WindTurbines.RampMonotone` | week09_classes_inheritance_and_OOP/class_test.py:28 | rated power times the cubed fraction of rated speed grows with a non-negative speed |
| `WindTurbines.CubeMonotone` | week09_classes_inheritance_and_OOP/class_test.py:28 | the cube in the ramp is non-negative and order-preserving on non-negative fractions |
| `WindTurbines.WindTurbine.constructor` | week09_classes_inheritance_and_OOP/class_test.py:40-45 | the new turbine holds exactly the given power curve and seven parameters; the name defaults to none |
| `WindTurbines.WindTurbine.GetPower` | week09_classes_inheritance_and_OOP/class_test.py:47-59 | returns a new array as long as the speed vector whose every slot is the measured-rule power of the speed at that index |
| `WindTurbines.WindTurbine.ZeroOutsideEnvelope` | week09_classes_inheritance_and_OOP/class_test.py:54-55 | any speed below cut-in or above cut-out gives 0, whatever the table holds |
| `WindTurbines.WindTurbine.MatchesTable` | week09_classes_inheritance_and_OOP/class_test.py:57 | at a measured speed inside the envelope the output is exactly the measured power |
| `WindTurbines.WindTurbine.ClampBelowTable` | week09_classes_inheritance_and_OOP/class_test.py:57 | inside the envelope, at or below the first measured speed, the output is the first measured power |
| `WindTurbines.WindTurbine.ClampAboveTable` | week09_classes_inheritance_and_OOP/class_test.py:57 | inside the envelope, at or above the last measured speed, the output is the last measured power |
| `WindTurbines.WindTurbine.LinearBetweenSamples` | week09_classes_inheritance_and_OOP/class_test.py:57 | inside the envelope and between measured speeds j and j+1, the output is the straight line through rows j and j+1 |
| `WindTurbines.WindTurbine.BetweenBracketingPowers` | week09_classes_inheritance_and_OOP/class_test.py:57 | inside the envelope and between measured speeds j and j+1, the output lies between the two bracketing measured powers |
| `WindTurbines.WindTurbine.MonotoneBetweenSamples` | week09_classes_inheritance_and_OOP/class_test.py:57 | between two measured speeds whose powers do not fall, the output is non-decreasing in speed |
| `WindTurbines.WindTurbine.PowerMonotone` | week09_classes_inheritance_and_OOP/class_test.py:54-57 | with measured powers that never fall, the output is non-decreasing in speed on [cut-in, cut-out] |
| `WindTurbines.WindTurbine.PowerBounded` | week09_classes_inheritance_and_OOP/class_test.py:54-57 | if every measured power lies in [0, rated power], every output does too |
| `Interpolation.LerpEnds` | week09_classes_inheritance_and_OOP/class_test.py:57 | the line between two samples passes through both of them |
| `Interpolation.LerpBetween` | week09_classes_inheritance_and_OOP/class_test.py:57 | between its end points the line stays between its two end values |
| `Interpolation.LerpMonotone` | week09_classes_inheritance_and_OOP/class_test.py:57 | a line with non-falling end values is non-decreasing between its end points |
| `Interpolation.InterpBelow` | week09_classes_inheritance_and_OOP/class_test.py:57 | interp at or below the first point gives the first value |
| `Interpolation.InterpAbove` | week09_classes_inheritance_and_OOP/class_test.py:57 | interp at or above the last point gives the last value |
| `Interpolation.InterpAtSample` | week09_classes_inheritance_and_OOP/class_test.py:57 | interp at the k-th point gives exactly the k-th value |
| `Interpolation.InterpOnSegment` | week09_classes_inheritance_and_OOP/class_test.py:57 | for xp[j] <= x < xp[j+1], interp equals the line through samples j and j+1, so the recursive walk agrees with the indexed definition |
| `Interpolation.InterpBetween` | week09_classes_inheritance_and_OOP/class_test.py:57 | for xp[j] <= x <= xp[j+1], interp lies between fp[j] and fp[j+1] |
| `Interpolation.InterpSegmentMonotone` | week09_classes_inheritance_and_OOP/class_test.py:57 | on a segment with fp[j] <= fp[j+1], interp is non-decreasing in x |
| `Interpolation.InterpWithin` | week09_classes_inheritance_and_OOP/class_test.py:57 | interp lies within any range that holds every sample value |
| `Interpolation.InterpMonotone` | week09_classes_inheritance_and_OOP/class_test.py:57 | with non-decreasing sample values, interp is non-decreasing in x over the whole real line |

## Left out

- `read_specs` (YAML loading) is not modelled; its result appears only as the six numeric constructor arguments.
- `read_power_curve` (CSV loading through pandas) is not modelled; the loaded table appears only as the two columns of `PowerCurve`.
- The `__main__` block (file paths, `np.arange` sampling, matplotlib plotting) is orchestration and display, so it is not modelled.
- `rotor_diameter`, `hub_height` and `name` are stored as fields but no computation uses them, and none does in the code either.
- IEEE double rounding, NaN and infinities are not modelled; all arithmetic is exact over `real`.
- Division by a zero rated speed inside the ramp is excluded by precondition. With a numpy speed array the code would produce an infinity or NaN there; with a plain Python list of speeds it would raise `ZeroDivisionError`.
- numpy's `interp` on an empty table raises an error, and on unsorted points its result is unspecified; both are excluded by precondition.
  Its optional `left`, `right` and `period` arguments are not used by the code and are not modelled.
- The subclass relationship is not modelled: the two classes carry the same fields and each has its own rule, which is all the inheritance provides here.
- The input `speed` is modelled as a `seq<real>`; numpy arrays, lists and other iterables accepted by `enumerate` are not distinguished.
