# Quadratic Bezier trajectory to teleport commands

A Dafny model of the core of `ast_courbe.py`: the form handler that turns a
start point, an end point, a control point, an entity selector (`uuid`), a
speed and a tick interval into a script of `minecraft:tp` lines, each
followed by a `delay 2.8` line, moving the entity along the quadratic Bezier
curve from start to end. A division by zero anywhere in that arithmetic is
caught by the handler's broad `except` and becomes an error page instead of
a script.

The model has three modules:

- `Wrappers` — a `Result` type (success or failure) usable with `:-`.
- `Geometry` — `Point3`, the squared Euclidean distance, and `Bezier`, the
  Bernstein-form point `(1-t)^2 p0 + 2(1-t)t p1 + t^2 p2` computed axis by
  axis, with its endpoint, constant-curve, per-axis and De Casteljau
  properties.
- `Trajectory` — the handler's arithmetic: the tick duration
  (`tick_interval * 0.05` seconds), the step count (`int()` of the travel
  time over the tick duration, truncating toward zero), the sample
  parameters `i / steps` for `i` in `0..steps`, and the emitted commands.
  `Plan` is the handler as a function; `Handle` and `Discretise` are the
  handler's straight-line code and its sampling loop.

Commands are a datatype, `Tp(selector, point) | Delay`; the outcome is
`Result<seq<Command>, Error>`, where `Error` names which of the three
divisions had a zero divisor: the speed (`BySpeed`), the tick duration
(`ByTickDuration`) or the step count (`BySteps`).

Coordinates, speeds and distances are exact reals. The handler takes the
distance as a square root; here it is an input of the request, and
`Request.WellFormed` states what the square root guarantees: it is
non-negative and its square is the sum of the squared coordinate
differences.

The code puts no lower bound of one on the step count. When the ratio of
travel time to tick duration lies strictly between -1 and 1, `int()` gives
zero steps, the first sample computes `0 / 0`, and the request ends in the
error outcome; coinciding end points always do (`SameEndsFail`,
`ZeroLengthExample`). The code does not reject a non-positive speed either. A
zero speed is a division by zero. A negative speed or tick interval is
accepted: the script is empty exactly when the ratio is -1 or less, which
needs exactly one of the speed and the tick interval to be negative
(`Plan`, `NegativeStepsNeedOneNegativeInput`). A negative speed over a short
distance still fails on `0 / 0` (`NegativeSpeedShortFails`), and a negative
speed with a negative tick interval gives an ordinary script
(`TwoNegativesExample`).

## Model

| member | source | states |
|---|---|---|
| Geometry.Bezier | ast_courbe.py:6-11 | at t = 0 the curve point is the start point, at t = 1 it is the end point, and when all three points coincide the curve is that point for every t |
| Geometry.WeightsSumToOne | ast_courbe.py:9 | the three Bernstein weights add up to 1 for every real t |
| Geometry.AxisIndependence | ast_courbe.py:8-10 | inputs that agree on axis i give curve points that agree on axis i, whatever their other axes |
| Geometry.DeCasteljau | ast_courbe.py:6-11 | the Bernstein form equals linear interpolation between the two interpolated control legs (an independent definition of the same curve) |
| Geometry.SquaredDistance | ast_courbe.py:25 | the sum of squared coordinate differences is never negative |
| Geometry.ZeroDistanceIffSamePoint | ast_courbe.py:25 | the squared distance is zero exactly when the two points are equal |
| Trajectory.ZeroDistanceIffSameEnds | ast_courbe.py:25 | a distance that is the square root of the squared distance is zero exactly when start equals end |
| Trajectory.TickDuration | ast_courbe.py:23 | the tick duration is zero exactly for a zero tick interval and positive exactly for a positive one |
| Trajectory.Trunc | ast_courbe.py:27 | `int()` of a real gives the integer part rounded toward zero: within one below a non-negative input, within one above a negative input |
| Trajectory.TruncZeroIff | ast_courbe.py:27 | truncation gives 0 exactly on the open interval (-1, 1) |
| Trajectory.TruncNegativeIff | ast_courbe.py:27 | truncation gives a negative integer exactly for inputs at or below -1 |
| Trajectory.TruncOfNonNegative | ast_courbe.py:27 | on non-negative inputs truncation is the floor |
| Trajectory.StepCount | ast_courbe.py:23-27 | a zero speed fails exactly with the division by the speed; a non-zero speed with a zero tick interval fails exactly with the division by the tick duration; otherwise the step count exists and is the truncated travel-time ratio |
| Trajectory.StepCountOfPositiveInputs | ast_courbe.py:23-27 | with positive speed and tick interval the step count exists, equals the floor of distance over (speed times tick duration), and is never negative |
| Trajectory.NegativeStepsNeedOneNegativeInput | ast_courbe.py:23-27 | a negative step count needs exactly one of the speed and the tick interval to be negative |
| Trajectory.ParamInUnitInterval | ast_courbe.py:30-31 | for i in 0..steps the sample parameter `Param(i, steps)` = i/steps lies in [0, 1], is 0 at i = 0 and 1 at i = steps |
| Trajectory.ParamStrictlyIncreasing | ast_courbe.py:30-31 | the sample parameter `Param(i, steps)` strictly increases with i |
| Trajectory.Pairs | ast_courbe.py:29-34 | n loop iterations produce 2n commands: position 2k is `Move(req, steps, k)`, the `tp` of the selector to the curve point (start, control, end) at parameter k/steps, and position 2k+1 is the delay |
| Trajectory.Emit | ast_courbe.py:29-34 | a negative step count gives exactly the empty list, zero steps give exactly the `0 / 0` error, and s >= 1 steps give 2(s+1) commands: position 2k is the move to the curve point at k/s and position 2k+1 the delay |
| Trajectory.PairsShape | ast_courbe.py:29-34 | a run of s >= 1 steps alternates moves and delays in whole pairs, first moves to the start point and last moves to the end point |
| Trajectory.Plan | ast_courbe.py:23-39 | every outcome of the handler: a zero speed fails on the speed, then a zero tick interval on the tick duration; otherwise the `0 / 0` error exactly when the ratio is strictly between -1 and 1, the empty list exactly when it is at most -1, and for a ratio of at least 1 exactly the closed-form list of `Pairs` for steps+1 samples, 2(steps+1) commands; a successful list alternates moves and delays and runs from the start point to the end point |
| Trajectory.PlanOfPositiveInputs | ast_courbe.py:23-34 | with positive speed and tick interval, zero steps end in the error and s >= 1 steps give exactly 2(s+1) commands |
| Trajectory.SameEndsFail | ast_courbe.py:25-31 | coinciding start and end points always end in the `0 / 0` error once speed and tick interval are non-zero |
| Trajectory.TenStepExample | ast_courbe.py:23-34 | ten units at speed 1 with a 20-tick interval give 22 commands, first moving to the start and last moving to the end |
| Trajectory.NegativeSpeedShortFails | ast_courbe.py:26-31 | half a unit at speed -1 with a 20-tick interval truncates to zero steps and ends in the `0 / 0` error |
| Trajectory.TwoNegativesExample | ast_courbe.py:26-34 | ten units at speed -1 with a -20-tick interval give an ordinary 22-command script |
| Trajectory.ZeroLengthExample | ast_courbe.py:25-39 | a zero-length segment ends in the error outcome instead of a script |
| Trajectory.Discretise | ast_courbe.py:29-34 | the sampling loop over i in 0..s, appending the move to the curve point at i/s and then the delay, builds exactly the closed-form list of `Pairs` for s+1 samples |
| Trajectory.Handle | ast_courbe.py:23-39 | the handler's straight-line code fails on the speed when it is zero, then on the tick duration when the interval is zero; otherwise it fails on `0 / 0` exactly when the ratio is strictly between -1 and 1, returns the empty list exactly when the ratio is at most -1, and for a ratio of at least 1 returns the closed-form list of `Pairs` for steps+1 samples; its result equals `Plan`'s on every request |

## Left out

- Flask application setup, routing, reading `request.form` and rendering the
  result or form templates: web I/O around the computation.
- Parsing the form fields with `split(',')`, `float` and `int`, and the errors
  that parsing raises: the model takes already-parsed values and three-component
  points, so a missing field, a malformed number, or a start or end point with
  fewer than three coordinates (all of which end in the error page) are not
  modelled. A control point with fewer than three coordinates is read only
  inside the sampling loop, so the code fails on it only when the loop runs; with
  a step count of -1 or less it yields an empty script and no error. That case is
  not modelled either.
- The `:.2f` formatting of coordinates in the `tp` line and the text of the
  error message: commands are kept as a datatype with exact coordinates, and
  the error records only which division failed.
- IEEE-754 floating point: all arithmetic is over exact reals, so rounding,
  infinities, NaN and three `OverflowError`s are not modelled: the one from
  `tick_interval * 0.05` at line 23 when the Python integer is too large to
  convert to a float (magnitude about 1.8e308, 2**1024, or more), the one from
  `**` at line 25 when a squared coordinate difference overflows (a difference
  above about 1.3e154), and the one from `int()` on an infinite ratio. All three
  end in the error page where the model, with an unbounded `tickInterval` and
  exact products, returns a result.
- `math.sqrt`: the distance is an input constrained by `Request.WellFormed`.
- Trajectory.StepCount: computed over exact reals; with floating point, a
  ratio that is mathematically an integer can round to just below it and
  truncate to one step fewer.
