# Dot-matrix webcam grid: geometry and frame step

This project is a Dafny model of the core of a webcam "halftone dots" effect. Each frame, the effect samples the video at a grid of points and draws one shaded dot per point. The model covers the two parts of that pipeline that are plain logic rather than browser or GPU plumbing.

- **The grid geometry builders.** The `Shader` component builds a `rows × cols` grid. The `DotShader` component builds a square `size × size` grid and stretches x by the viewport aspect ratio `width / height`. Both walk the cells in row-major order. For cell `(r, c)` they compute the texture coordinate `u = (c + 0.5)/cols` and `v = (r + 0.5)/rows`. From it they derive the position `x = (2u − 1)·aspect`, `y = −(2v − 1)`, `z = 0`. They append three numbers per point to a flat position buffer and two per point to a flat texture-coordinate buffer.
- **The per-frame callback.** It does nothing until the shader material exists. After that, each frame it:
  - flags the video texture (if there is one) for re-upload;
  - binds the texture to the `uTex` uniform;
  - sets `uEase = clamp(easingFactor · dt · 60, 0, 1)`.

Modules:

- `RealArith`: a few facts about dividing by a positive real.
- `GridCell`: the cell centre, the mapping to device coordinates, and x and y for one cell, with their ordering, sign, mirror and bound lemmas.
- `GridLayout`: what it means for a flat buffer to be the grid's position or texture-coordinate buffer. It proves that the row-major numbering is a bijection, that the buffers are unique, that they are bounded, and that they are point-symmetric about the origin.
- `ShaderGrid`: the `rows × cols` builder, written as the source's nested loops.
- `DotShaderGrid`: the aspect ratio and the square, aspect-corrected builder. It also relates this builder to `ShaderGrid`.
- `Easing`: the library clamp and the easing value.
- `FrameDriver`: the scene state and the frame step.

Coordinates are exact `real`s.

Two details of the code shape the model:

- **Frame guard.** The frame callback returns early only when the material is absent (src/Shader.jsx:77, src/DotShader/index.jsx:64). With no texture, it still writes `uTex` (to nothing) and `uEase`, and `FrameDriver.Step` does the same.
- **Aspect correction.** Only the square builder applies the aspect ratio (src/DotShader/index.jsx:27). The `rows × cols` builder uses `x = 2u − 1` (src/Shader.jsx:27).

## Model

| member | source | states |
|---|---|---|
| GridCell.CellCentre | src/Shader.jsx:25-26 | the sample coordinate of cell i of n lies strictly inside that cell, i/n < t < (i+1)/n, and so strictly inside (0, 1) |
| GridCell.Ndc | src/Shader.jsx:27-28 | t ↦ 2t − 1 maps (0, 1) into (−1, 1) and is undone by s ↦ (s + 1)/2 |
| GridCell.CentreStrictlyIncreasing | src/Shader.jsx:25-26 | a higher cell index gives a strictly larger texture coordinate |
| GridCell.CentreMirror | src/Shader.jsx:25-26 | the centre of cell n−1−i is 1 minus the centre of cell i |
| GridCell.XStrictlyIncreasing | src/Shader.jsx:25-27 | for a positive aspect ratio, x strictly increases with the column |
| GridCell.YStrictlyDecreasing | src/Shader.jsx:26-28 | the y axis is flipped: y strictly decreases as the row index grows |
| GridCell.YSign | src/Shader.jsx:26-28 | row r lies above the axis iff 2r+1 < rows, on it iff 2r+1 = rows, below it iff 2r+1 > rows (so row 0 is above the axis exactly when rows ≥ 2) |
| GridCell.XMirror | src/Shader.jsx:25-27 | column cols−1−c has the negated x of column c |
| GridCell.YMirror | src/Shader.jsx:26-28 | row rows−1−r has the negated y of row r |
| GridCell.X | src/DotShader/index.jsx:27 | the x of a column lies within the aspect ratio: abs(x) ≤ aspect for aspect ≥ 0, and abs(x) < aspect for aspect > 0; for a non-zero aspect, the column's texture coordinate u is recovered as (x/aspect + 1)/2 |
| GridCell.Y | src/Shader.jsx:28 | the y of a row lies strictly inside (−1, 1), and the row's texture coordinate v is recovered as (1 − y)/2 (the flip of v) |
| GridCell.XRatio | src/DotShader/index.jsx:27 | the x values of one column under two aspect ratios a1 and a2 satisfy x1·a2 = x2·a1: the stretch is a pure scaling |
| GridLayout.IsUvBuffer | src/Shader.jsx:23-31 | the texture-coordinate buffer of a rows × cols grid: 2·rows·cols entries, with cell (r, c) holding ((c+0.5)/cols, (r+0.5)/rows) at slot r·cols + c |
| GridLayout.IsPositionBuffer | src/Shader.jsx:23-31 | the position buffer of a rows × cols grid: 3·rows·cols entries, with cell (r, c) holding (x, y, 0) at slot r·cols + c |
| GridLayout.CellOf | src/Shader.jsx:23-31 | every point number below rows·cols is the row-major slot r·cols + c of some cell (r, c) of the grid |
| GridLayout.PointIndexInjective | src/Shader.jsx:23-31 | distinct cells occupy distinct row-major slots |
| GridLayout.SlotBelowCount | src/Shader.jsx:23-31 | every cell's slot is below rows·cols |
| GridLayout.UvBufferUnique | src/Shader.jsx:21-34 | the texture-coordinate buffer is fully determined by the grid dimensions (no entry is unaccounted for) |
| GridLayout.PositionBufferUnique | src/Shader.jsx:21-34 | the position buffer is fully determined by the grid dimensions and aspect ratio |
| GridLayout.UvsInsideUnitSquare | src/Shader.jsx:25-30 | every entry of the texture-coordinate buffer lies strictly inside (0, 1) |
| GridLayout.PositionsBounded | src/DotShader/index.jsx:27-30 | every point has z = 0, y strictly inside (−1, 1) and abs(x) within the aspect ratio (strictly when it is positive) |
| GridLayout.PositionsPointSymmetric | src/Shader.jsx:25-29 | cell (rows−1−r, cols−1−c) sits at the mirrored slot rows·cols−1−k and holds (−x, −y, 0) where cell (r, c) holds (x, y, 0) |
| ShaderGrid.BuildGrid | src/Shader.jsx:20-35 | the buffers have exactly 3·rows·cols and 2·rows·cols entries (empty for zero rows or columns), and cell (r, c) is stored at slot r·cols + c with uv ((c+0.5)/cols, (r+0.5)/rows) and position (2u−1, −(2v−1), 0) |
| ShaderGrid.TwoByTwo | src/Shader.jsx:23-30 | a 2 × 2 grid is exactly the four points (±1/2, ±1/2, 0), top row first, with texture coordinates at 1/4 and 3/4 |
| DotShaderGrid.Aspect | src/DotShader/index.jsx:17 | the aspect ratio times the height is the width; it is above 1 iff the viewport is wide, 1 iff square, below 1 iff tall, and non-negative for a non-negative width |
| DotShaderGrid.BuildGrid | src/DotShader/index.jsx:16-37 | the buffers have exactly 3·size² and 2·size² entries in row-major order, with uv ((c+0.5)/size, (r+0.5)/size) and position ((2u−1)·width/height, −(2v−1), 0) |
| DotShaderGrid.ViewportAffectsOnlyX | src/DotShader/index.jsx:17-31 | two square grids of the same size built for two viewports have identical texture coordinates and identical y and z; their x values are in the ratio of the two aspect ratios |
| DotShaderGrid.AspectScalesOnlyX | src/DotShader/index.jsx:27-28 | compared with the unstretched grid, every x is multiplied by the aspect ratio while every y and z is unchanged |
| DotShaderGrid.SquareViewportMatchesShader | src/DotShader/index.jsx:23-28 | on a square viewport the square grid's buffers are identical to the rows × cols grid's with rows = cols = size |
| Easing.Clamp | src/Shader.jsx:81 | the result is at least lo and, for lo ≤ hi, at most hi; it is x itself inside the range and the nearer bound outside it |
| Easing.Ease | src/Shader.jsx:81 | the easing value always lies in [0, 1] and equals easingFactor·dt·60 whenever that product lies in [0, 1] (1 above, 0 below) |
| Easing.ClampIdempotent | src/Shader.jsx:81 | clamping a clamped value changes nothing |
| Easing.ClampMonotone | src/Shader.jsx:81 | clamping preserves order |
| Easing.LongFrameSaturates | src/DotShader/index.jsx:71 | easing factor 1 with a 10-second frame gives exactly 1, not more |
| Easing.EaseMonotoneInFrameTime | src/DotShader/index.jsx:71 | for a non-negative easing factor, a longer frame never gives a smaller easing value |
| Easing.SixtyHertzGivesFactor | src/DotShader/index.jsx:71 | at dt = 1/60 the easing value is the easing factor itself, for every factor in [0, 1], which contains the controls' range 0.01 to 1 (src/App.jsx:28) |
| FrameDriver.Step | src/Shader.jsx:76-82 | with no material the scene is unchanged; otherwise only `uTex` (bound to the current texture) and `uEase` (set to the clamped value) change among the uniforms, the texture is flagged for re-upload, and the easing factor is untouched |
| FrameDriver.StepIdempotent | src/DotShader/index.jsx:63-72 | running the frame callback twice with the same frame time gives the same scene as running it once |
| FrameDriver.EaseHasNoHistory | src/DotShader/index.jsx:69-71 | the new `uEase` does not depend on the previous one: scenes that differ only in it are equal after a frame |

## Left out

- Webcam capture (`getUserMedia`, `play`), the video event listeners and stream teardown (src/App.jsx). This is browser I/O.
- The commented-out fullscreen request in src/App.jsx:40-47. It is dead code.
- React scheduling. The model does not cover `useEffect` dependency re-runs, `useRef` cells, `useState`, or the material `key` string. The builders are plain methods. The frame step takes the scene and the frame time `dt` as arguments, and the latest easing factor is a field of the scene (`Scene.easingFactor`) instead of a ref cell.
- The effects that copy slider values and the video size into the uniforms, and the initial uniform values. These are assignments on mount or on change in the rendering library, not part of the frame step.
- The rendering library's objects. `BufferAttribute`, `Color` parsing of hex and `rgb()` strings, and `VideoTexture` are not modelled. `MathUtils.clamp` is modelled only by its clamp semantics (`Easing.Clamp`).
- Float32 rounding of the buffers, and JavaScript doubles in general. Coordinates are exact reals, so NaN and infinities are not modelled.
- Grid dimensions (`rows`, `cols`, `size`) are natural numbers. In JavaScript the `r < rows` loops accept any number: a negative count gives empty buffers, and a fractional count such as 2.5 runs 3 rows and puts the last row at v = 1 and y = −1, outside the open intervals stated here. The controls only supply whole numbers (src/App.jsx:22 has `min: 4` and `step: 1`).
- DotShaderGrid.Aspect: requires a positive viewport height. A zero height gives a non-finite ratio in JavaScript, which reals cannot express.
- The GLSL vertex and fragment shaders (brightness sampling, gamma, size and colour interpolation). They are not part of this model.
- The control ranges in src/App.jsx:20-30. They are not behaviour of the core and are not preconditions of any member.
- vite.config.js. It is build configuration.
