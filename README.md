# Dynamics Visualizer timeline scan and scene-path helpers

This project models the two parts of the PyDy Dynamics Visualizer control
object (`pydy/viz/static/js/dyviz/dv.js`) that compute something:

- **The time-slider scan.** The slider gives an integer position from 0 to
  100 (step 1). Its `'slide'` handler walks the simulation's timestamp array
  from left to right. It measures each timestamp as a percentage of the *last*
  timestamp, `t[i] / t[len-1] * 100`, and stops at the first index whose
  percentage is at least the slider value. That timestamp goes to the
  renderer. Module `Timeline` has the handler's loop as the method
  `Scan`. Its reference function is `ScrubIndex`, specified by the
  first-match predicate `IsScrubOutcome`. The lemmas are about `ScrubIndex`.
- **The scene-file path helpers.** `getBasePath` turns every `\` into `/`,
  splits on `/`, drops the last piece, joins with `/` and appends `/`.
  `getFileExtenstion` splits on `.`, takes the last piece and lower-cases it.
  Module `ScenePath` writes each of these as the same chain of string
  functions (`ReplaceAll`, `Split`, `Join`, `ToLower`). Its lemmas prove what
  the chain computes in closed form.

Exact arithmetic is used: timestamps are `real` and the slider value is an
`int`. The handler reads `self._timeArray` and the helpers read
`self.sceneFilePath`. Here the array is a parameter of `Scan` and the path is
a parameter of `BasePath` and `FileExtension`. `BasePath` and `FileExtension`
are Dafny functions, so they cannot change anything. This is how the model
shows that the helpers leave the scene file path unchanged.

The scan has three outcomes:

- `Found(index, time)`: the first index that passes the test, and its timestamp.
- `NoMatch`: no index passes, or the array is empty. The JavaScript loop then
  ends with `i == len` and passes `t[len]`, which is `undefined`. The model
  reports this outcome and does not clamp to the last timestamp.
- `DegenerateTimeRange`: the last timestamp is zero. In JavaScript the
  percentages are then NaN or ±Infinity.

A negative last timestamp is not an error. The division is well defined, and
the last entry is still exactly 100 percent.

The handler checks neither that the array is non-empty nor that it is
non-decreasing, so `Scan` accepts any sequence; only the lemmas that need
order assume `NonDecreasing`.

## Model

| member | source | states |
|---|---|---|
| Timeline.Scan | pydy/viz/static/js/dyviz/dv.js:59-69 | The handler's loop with its `gotValue` flag and early `break`. It returns `DegenerateTimeRange` when the last timestamp is 0. It returns `NoMatch` for an empty array or when no index passes, and otherwise `Found(i, t[i])` for the first index `i` with `val <= t[i]/t[len-1]*100` (every earlier index fails). This outcome is the one `ScrubIndex` gives. |
| Timeline.ScrubIndex | pydy/viz/static/js/dyviz/dv.js:61-67 | For every timestamp sequence and slider value, the result satisfies the first-match specification `IsScrubOutcome`: empty means no match, a last timestamp of 0 is degenerate, and otherwise the result is the first qualifying index with its timestamp, or no match when every index fails. |
| Timeline.FirstQualifyingFrom | pydy/viz/static/js/dyviz/dv.js:64-66 | Started at index `from`, the scan either finds an index `>= from` that passes the test while every index between `from` and it fails, or reports no match when every index from `from` on fails. It is never degenerate. |
| Timeline.MatchUpToHundred | pydy/viz/static/js/dyviz/dv.js:58-68 | With a non-empty array, a non-zero last timestamp and a slider value of at most 100, there is always a match, because the last entry is exactly 100 percent. The index is in range and the timestamp handed on is an element of the array. |
| Timeline.NoMatchAboveHundred | pydy/viz/static/js/dyviz/dv.js:64-68 | On a non-decreasing array whose last timestamp is positive, a slider value above 100 qualifies nowhere. The loop runs off the end, so the outcome is `NoMatch` and not a timestamp. |
| Timeline.ScrubIndexMonotone | pydy/viz/static/js/dyviz/dv.js:64-66 | If `val1 <= val2` and `val2` finds an index, then `val1` finds one too, and that index is `<=` the index for `val2` (first match wins). |
| Timeline.ScrubTimeMonotone | pydy/viz/static/js/dyviz/dv.js:64-68 | On a non-decreasing array, the timestamp handed on for `val1 <= val2` is at most the one for `val2`. |
| Timeline.ZeroSelectsFirst | pydy/viz/static/js/dyviz/dv.js:65-66 | Slider value 0 selects index 0 when the first timestamp is non-negative and the last is positive. |
| Timeline.HundredSelectsLast | pydy/viz/static/js/dyviz/dv.js:58-68 | Slider value 100 on a non-decreasing array with a positive last timestamp selects a timestamp equal to the last one. |
| Timeline.ScenarioQuarter | pydy/viz/static/js/dyviz/dv.js:64-67 | For timestamps 0, 2, 4, 10 and slider value 25, index 2 (timestamp 4) is chosen: 20 percent fails and 40 percent passes. |
| ScenePath.ReplaceAll | pydy/viz/static/js/dyviz/dv.js:162 | A global single-character replace keeps the length, changes every occurrence of `from` to `to`, and leaves every other character alone. |
| ScenePath.Split | pydy/viz/static/js/dyviz/dv.js:163 | Splitting always gives at least one piece, and no piece contains the separator. |
| ScenePath.NormalizeSlashes | pydy/viz/static/js/dyviz/dv.js:162 | `.replace(/\\/g, "/")`. It has no contract of its own; its meaning comes from `ReplaceAll`'s contract, applied with `\` and `/`. |
| ScenePath.Join | pydy/viz/static/js/dyviz/dv.js:163 | `.join("/")`. It has no contract of its own; `JoinSplit` gives its meaning as the inverse of `Split`. |
| ScenePath.BasePath | pydy/viz/static/js/dyviz/dv.js:155-164 | `getBasePath` as the same replace, split, slice and join chain. It has no contract of its own; `BasePathIsDirectoryPrefix` and `BasePathShape` state what it computes. |
| ScenePath.FileExtension | pydy/viz/static/js/dyviz/dv.js:166-174 | `getFileExtenstion` as the same split, last-piece and lower-case chain. It has no contract of its own; `FileExtensionIsLowerSuffix` and `FileExtensionShape` state what it computes. |
| ScenePath.JoinSplit | pydy/viz/static/js/dyviz/dv.js:163 | Joining the pieces of a split with the same separator gives back the original string. |
| ScenePath.SplitWithoutSep | pydy/viz/static/js/dyviz/dv.js:163 | A string without the separator splits into exactly one piece, itself. |
| ScenePath.SplitAtLast | pydy/viz/static/js/dyviz/dv.js:163 | Splitting at the last separator gives the pieces of the text before it, followed by the whole text after it. This is what `slice(0,-1)` and `slice(-1)` select. |
| ScenePath.BasePathIsDirectoryPrefix | pydy/viz/static/js/dyviz/dv.js:155-164 | `getBasePath` equals the slash-normalised path up to and including its last `/`, or `"/"` when the path has no separator. |
| ScenePath.BasePathShape | pydy/viz/static/js/dyviz/dv.js:162-163 | The base path contains no backslash, is non-empty and ends with `/`. |
| ScenePath.ScenarioWindowsBasePath | pydy/viz/static/js/dyviz/dv.js:162-163 | The base path of `C:\sim\out\scene.json` is `C:/sim/out/`. |
| ScenePath.ScenarioBareFileName | pydy/viz/static/js/dyviz/dv.js:163 | The base path of `scene.json`, which has no separator, is `/`. |
| ScenePath.ToLower | pydy/viz/static/js/dyviz/dv.js:172 | Lower-casing keeps the length and maps each character through ASCII lower-casing. |
| ScenePath.FileExtensionIsLowerSuffix | pydy/viz/static/js/dyviz/dv.js:166-174 | `getFileExtenstion` is the lower-cased text after the last `.`, or the whole lower-cased path when the path has no `.`. |
| ScenePath.FileExtensionShape | pydy/viz/static/js/dyviz/dv.js:172 | The extension contains no `.` and no upper-case ASCII letter. |
| ScenePath.ScenarioUpperExtension | pydy/viz/static/js/dyviz/dv.js:172 | The extension of `scene.JSON` is `json`. |

## Left out

- `init` and `isWebGLCompatible` (dv.js:12-39): browser capability checks through Modernizr, plus `alert` and `console.log`. These are foreign calls and I/O.
- The button wiring in `activateUIControls` (dv.js:52-56, 72-100). The load, reset, play and stop handlers (dv.js:52-56, 72-83) forward to the parser and scene objects, whose code is not part of this model; this includes the assignment of `sceneFilePath` from the text input (dv.js:53), and the path is a parameter of the helpers here. The dialog handlers (dv.js:84-100) only show and hide DOM elements.
- The slider widget itself (dv.js:58). It enters the model only as the integer slider value. `Scan` and the lemmas take any integer; only `MatchUpToHundred` needs the upper bound `val <= 100`, and no member requires `0 <= val`.
- `loadUIElements` (dv.js:107-152): DOM construction, the CodeMirror editor and `JSON.stringify`.
- `Scene.setAnimationTime` (dv.js:68): an external renderer call. `Scan` returns the chosen index and timestamp instead.
- Floating-point behaviour of the percentage: rounding, and NaN or Infinity when the last timestamp is 0. Arithmetic is exact, and a zero last timestamp is the explicit `DegenerateTimeRange` outcome. That outcome is not the first-positive-timestamp choice that IEEE comparisons would happen to make.
- ScenePath.ToLower: models ASCII lower-casing only. JavaScript's `toLowerCase` also maps non-ASCII letters, and that is not modelled.
- Timeline.Scan: assumes a scene has been loaded. The code never assigns `self._timeArray` itself, so a `'slide'` event before loading throws a TypeError at dv.js:61 (`length` of `undefined`); a `seq<real>` cannot be absent, so that error is not modelled.
- ScenePath.BasePath: assumes a scene file path has been set. `self.sceneFilePath` is assigned only by the load button (dv.js:53), so calling `getBasePath` before that throws a TypeError at dv.js:162; a `string` cannot be absent, so that error is not modelled.
- ScenePath.FileExtension: assumes a scene file path has been set, as for `BasePath`; before that `getFileExtenstion` throws a TypeError at dv.js:172, which is not modelled.
