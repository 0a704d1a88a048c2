# Canyon fly-through: fog shading, cyclic clock and fog presets

This project models the logic of a three.js showcase: a camera flies along a
closed path through a canyon, looks at a target that moves along a second
closed path, and the canyon is painted with a depth-based fog colour. It
models three things, over Dafny `real`s instead of floats.

- **Fog shader** (`FogShader`, `fog_shader.dfy`). The fragment shader picks a
  band from the fragment's depth: below `fogMid` it is the near band, from
  `fogMid` on the far band. It then blends the band's two colours with GLSL
  `mix`, using the weight that GLSL `smoothstep` gives on the band's two
  distances. Both built-ins follow section 8.3 of the OpenGL ES Shading
  Language 1.00 specification. `smoothstep` is undefined there when
  `edge0 >= edge1`, so the model requires `edge0 < edge1` for the band that
  is taken (`BandDefined`). Ordered distances `near < mid < far` make every
  depth defined. The output is `vec4(fogColor, 1.0)`.
- **Cyclic clock and camera tick** (`Animation`, `animation.dfy`). Each frame
  computes `cameraTime = (time % loopDuration) / loopDuration` and
  `targetTime = (cameraTime + targetOffset) % 1`. The camera moves to the
  camera path's point at `cameraTime`. The target ball moves to the target
  path's point at `targetTime`, and the camera faces that point. JavaScript's
  `%` is modelled as the ECMA-262 Number remainder (`JsRem`): the quotient is
  truncated toward zero and the result takes the sign of the dividend. The
  two paths are parameters of `CameraRig`. The live-tunable `parameters`
  record is the `Parameters` class, and `Tick` reads it as it stands.
- **Fog uniforms and presets** (`Canyon`, `canyon.dfy`, and `Presets`,
  `presets.dfy`). `CanyonUniforms` is the mutable uniforms record. Each
  preset method overwrites its fields in place. `darkFog` writes only the
  three distances. `AfterPreset` and `AfterDarkFog` give the resulting
  values, and the properties are proved about them: every preset assigns all
  six fields, so it ignores what was there before; presets are idempotent;
  distances stay ordered; `default` restores the initial uniforms.
  Colours are kept abstract as their hex literals (`Hex("#080041")`).

Three behaviours of the code that the model keeps as written:

- The target offset is a fraction of the loop added to `cameraTime`
  (`src/main.ts:162`). `NormalisedOffsetIsTimeShift` proves that this is the
  same as shifting the time by `targetOffset · loopDuration`.
- The shader does not guard `smoothstep` against equal or reversed band
  distances. The model requires the taken band's distances to be increasing.
  The GUI sliders (`src/main.ts:127-129`) can still set them out of order.
- Choosing a preset does not update the scene background. `applyPreset` is
  passed the scene but does not take it as a parameter. After a non-default
  preset the background keeps the initial far colour and no longer matches
  `fogColorFar` (`Presets.StartThenSelect`, `Presets.ApplyPreset`).

## Model

| member | source | states |
|---|---|---|
| FogShader.Clamp | src/vertexShader.ts:22-25 | the clamp inside `smoothstep` gives a value in [lo, hi]: `x` itself when it is in range, otherwise the nearer bound |
| FogShader.HermiteBounds | src/vertexShader.ts:22-25 | the ease `3u² − 2u³` maps [0, 1] into [0, 1] |
| FogShader.HermiteMonotone | src/vertexShader.ts:22-25 | the ease never decreases on [0, 1] |
| FogShader.Smoothstep | src/vertexShader.ts:22-25 | for `edge0 < edge1`, `smoothstep` is in [0, 1]; it is 0 for `x <= edge0` and 1 for `x >= edge1` |
| FogShader.SmoothstepMonotone | src/vertexShader.ts:22-25 | `smoothstep` never decreases as its argument grows |
| FogShader.SmoothstepMidpoint | src/vertexShader.ts:22 | halfway between the edges `smoothstep` is exactly 1/2 |
| FogShader.Mix | src/vertexShader.ts:23-26 | `mix` gives `x` at weight 0 and `y` at weight 1; for a weight in [0, 1] the result lies between `x` and `y` |
| FogShader.MixBetween | src/vertexShader.ts:23-26 | for a weight in [0, 1], `x·(1 − a) + y·a` is between `x` and `y`, whichever order they are in |
| FogShader.MixMonotone | src/vertexShader.ts:23-26 | as the weight grows, `mix` moves monotonically from `x` towards `y` |
| FogShader.MixRgb | src/vertexShader.ts:23-26 | componentwise `mix` on colours: the first colour at 0, the second at 1, each component between the ends for weights in [0, 1] |
| FogShader.OrderedDefined | src/vertexShader.ts:21-26 | with `near < mid < far` the `smoothstep` of the taken branch is defined at every depth |
| FogShader.BandWeight | src/vertexShader.ts:21-25 | the blend weight of the taken branch is in [0, 1] |
| FogShader.FogColor | src/vertexShader.ts:20-27 | the fog colour lies componentwise between the near and mid colours below `fogMid`, and between the mid and far colours from `fogMid` on: no overshoot |
| FogShader.FragColor | src/vertexShader.ts:17-30 | the fragment's alpha is 1 and its colour is the fog colour, inside the taken band's two colours |
| FogShader.NearColorUpToNear | src/vertexShader.ts:21-23 | a depth at or below `fogNear` gives exactly the opaque near colour |
| FogShader.BandsAgreeAtMid | src/vertexShader.ts:21-26 | depth `fogMid` takes the else branch and gives exactly the mid colour; the near-band formula at `fogMid` also gives the mid colour, so the bands meet with no jump |
| FogShader.FarColorFromFar | src/vertexShader.ts:24-26 | a depth at or beyond `fogFar` gives exactly the opaque far colour |
| FogShader.WeightMonotoneInBand | src/vertexShader.ts:21-26 | within one band the blend weight does not decrease as depth grows |
| FogShader.ColorMonotoneInBand | src/vertexShader.ts:21-27 | within one band each colour component moves monotonically with depth from the band's first colour towards its second |
| FogShader.HalfwayIsAverage | src/vertexShader.ts:21-23 | the depth `(fogNear + fogMid) / 2` gives weight 1/2 and the componentwise average of the near and mid colours |
| Animation.Trunc | src/main.ts:161-162 | the quotient that JavaScript `%` uses is rounded toward zero: within 1 below a non-negative argument, within 1 above a non-positive one |
| Animation.JsRem | src/main.ts:161-162 | JavaScript `x % d` has the sign of `x`, is smaller than `d` in magnitude, and differs from `x` by a whole multiple of `d` |
| Animation.RemIsFraction | src/main.ts:161 | for `x >= 0` and `d > 0`, `(x % d) / d` is the fractional part of `x / d` |
| Animation.CameraTime | src/main.ts:159-161 | for `time >= 0` and `loopDuration > 0`, `cameraTime` is in [0, 1) |
| Animation.TargetTime | src/main.ts:162 | when `cameraTime + targetOffset >= 0`, `targetTime` is in [0, 1) |
| Animation.CameraTimePeriodic | src/main.ts:161 | `time` and `time + loopDuration` give the same `cameraTime` |
| Animation.TargetTimeWraps | src/main.ts:162 | `targetTime` is `cameraTime + targetOffset`, minus 1 exactly when that sum is at least 1 |
| Animation.NoOffsetMeansLevel | src/main.ts:162 | a `targetOffset` of 0 gives `targetTime == cameraTime` |
| Animation.NormalisedOffsetIsTimeShift | src/main.ts:161-162 | the target parameter equals the camera parameter of the time `targetOffset · loopDuration` later |
| Animation.QuarterOffsetScenario | src/main.ts:161-162 | a loop of 1000 at time 900 gives `cameraTime` 0.9; a quarter-loop offset then gives `targetTime` 0.15 |
| Animation.ParametersInUnitInterval | src/main.ts:159-162 | with `time >= 0` and both parameters in their GUI ranges, both curve parameters are in [0, 1) |
| Animation.Parameters.constructor | src/main.ts:22-26 | the defaults are `loopDuration` 240e3 and `targetOffset` 0.06, inside the GUI ranges [10e3, 480e3] and [0, 0.1] |
| Animation.TickState | src/main.ts:159-169 | after a tick the camera faces the point where the target ball is |
| Animation.TickStatePeriodic | src/main.ts:159-169 | ticks one `loopDuration` apart produce the same camera, ball and facing |
| Animation.CameraRig.constructor | src/main.ts:28-33 | before the first tick the camera, and the target ball created at src/main.ts:81-84, are at the origin and the camera has its initial orientation |
| Animation.CameraRig.Tick | src/main.ts:156-170 | the camera is at `cameraPath(cameraTime)`; the ball is at `targetPath(targetTime)`, where the camera faces; nothing else changes |
| Canyon.InitialUniforms | src/main.ts:43-50 | the initial fog distances are 666 < 3000 < 10000 |
| Canyon.CanyonUniforms.constructor | src/main.ts:43-50 | the uniforms record starts with the initial colours and distances |
| Canyon.Scene.constructor | src/main.ts:104 | the scene background is set to the current far fog colour |
| Canyon.ShaderParams | src/main.ts:55-59 | the shader's parameters are ordered exactly when the uniforms are, and then the shader is defined at every depth |
| Presets.AfterDarkFog | src/presets.ts:4-8 | `darkFog` leaves the three colours unchanged and the distances ordered |
| Presets.AfterPreset | src/presets.ts:10-31 | every preset leaves `fogNear < fogMid < fogFar` |
| Presets.PresetIgnoresPrior | src/presets.ts:11-30 | every preset assigns all six fields, so its result does not depend on the prior uniforms |
| Presets.PresetIdempotent | src/presets.ts:11-30 | applying a preset twice equals applying it once |
| Presets.DefaultRestoresInitial | src/presets.ts:11-18 | `default` sets all six uniforms to the initial values of `src/main.ts:44-49` |
| Presets.DarkPresetsShareDistances | src/presets.ts:19-30 | `nightlight` and `wine` both set the distances to 1000/5500/8000 through `darkFog`, and differ in colour |
| Presets.PresetShaderDefined | src/presets.ts:4-30 | after any preset the fog shader is defined at every depth |
| Presets.DarkFog | src/presets.ts:4-8 | the distances become 1000, 5500 and 8000 in place; the colours are untouched |
| Presets.ApplyDefault | src/presets.ts:11-18 | the uniforms are overwritten in place with the default preset |
| Presets.ApplyNightlight | src/presets.ts:19-24 | the uniforms are overwritten in place with the nightlight colours and the dark distances |
| Presets.ApplyWine | src/presets.ts:25-30 | the uniforms are overwritten in place with the wine colours and the dark distances |
| Presets.ApplyPreset | src/presets.ts:35-37 | `applyPreset(name, u)` has exactly the effect of `presets[name](u)`; the scene passed along keeps its background |
| Presets.StartThenSelect | src/main.ts:104-116 | after start-up and a preset choice, the uniforms hold the preset's values, the background still holds the initial far colour, and after a non-default preset it differs from `fogColorFar` |

## Left out

- Catmull-Rom curves: `THREE.CatmullRomCurve3` and `getPointAt` belong to three.js and are not in the repository. The two paths are arbitrary functions `real -> Point3`, so closure and smoothness of the curves are not modelled.
- Spline extraction: `gltfSplineToVector3ArrayVeryCool`, `debugLine` and `DangColor` are imported from `src/util.ts`, but that file does not define them. Its error cases (missing path, malformed geometry, too few points) have no code to model.
- `DangColor`: colours are their hex literals. Their conversion to RGB is a parameter (`toRgb` in `Canyon.ShaderParams`).
- `ss` in `src/util.ts`: a sessionStorage and JSON wrapper, which is I/O.
- The distance `depth = distance(vWorldPosition, cameraPosition)` needs a square root. The depth is an input to `FogShader.FragColor`, and the vertex shader's matrix transforms are not modelled.
- `camera.lookAt`: the orientation is recorded as the point the camera faces (`Towards`). The rotation itself and the near-vertical case are not modelled.
- `Date.now()`: the time is the parameter of `CameraRig.Tick`.
- Floating point: JavaScript numbers and GLSL floats are modelled as exact reals, so rounding is not captured.
- Rendering and browser plumbing: GLTF loading, the effect composer and its passes, antialiasing, resizing, `Stats`, GUI wiring, field of view and the `disableShader` material swap.
- Object identity: the camera and the target ball are two fields of one `CameraRig` object, while the source keeps them in two three.js objects. Aliasing between them is not modelled.
- Colour object sharing: `src/main.ts:104` makes `scene.background` the same `DangColor` object as `fogColorFar`'s value, while `Canyon.Scene.constructor` copies the colour value. An in-place edit of that object, such as the GUI colour picker at `src/main.ts:132-137` may make, would change both in the source but only the uniform in the model. The presets always assign new colours, so they are not affected.
- Start pose: the origin position and the initial orientation in `Animation.CameraRig.constructor` are three.js's defaults for a new camera and mesh, which are not in the repository.
- The `presets` table is a function of the `Preset` datatype, not a record of closures. A name outside the table cannot be expressed, matching the TypeScript type `Preset`.
