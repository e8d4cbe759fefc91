# Constellation canvas: a verified model

This project models the interactive starfield of the portfolio page's
"Connect the constellations" section (`HorizonAndReflection`). A fixed list
of stars is generated once per mount, with normalised coordinates and a
radius. A click on the canvas snaps to the nearest star: the scan keeps the
first star of least distance. If that star lies closer than 40 CSS pixels,
its rendered position is appended to the ordered selection. Once six points
are selected the constellation is complete. The reset button clears the
selection and the flag. Each frame draws a disc per star, the polyline
through the selection and a horizon band over the bottom 18% of the canvas.

Modules, one per part of the component:

- `Wrappers`: `Option`, for the scan's `nearest = null`.
- `Starfield`: stars, points and the canvas rectangle; `randomRange` and
  `useStarfield`; the normalised-to-pixel mapping; viewport-to-canvas
  conversion; squared distance.
- `NearestStar`: the nearest-star scan. `NearestAmong` is a reference
  definition of what the scan holds after `n` stars. `IsFirstNearest` states
  the intended result declaratively. `FindNearest` is the handler's loop,
  proved equal to the reference.
- `Selection`: the state `(selected, complete)`, the click and reset
  transitions as functions, runs of events from mount, and the class
  `Constellation` whose methods update the state in place.
- `Render`: one frame as a display list (discs, path segments, horizon band).

Modelling choices:

- Coordinates are `real`. `Math.hypot(dx, dy) < minD` and `minD < 40` are
  compared as squared distances. `SquaresPreserveOrder` and
  `SnapTestMatchesDistance` show that each comparison `d < minD` and
  `minD < 40` has the same outcome on squares, so the scan makes the same
  choices.
- The initial `minD = Infinity` is modelled as "no candidate yet": every
  finite distance is below it, so the first star always becomes the candidate.
- `Math.random()` draws, the canvas bounding rectangle and the click
  coordinates are parameters. Each draw is a value in [0, 1).
- The source's radius range is half-open, [0.3, 1.6), because
  `Math.random()` never returns 1. The model follows that.
- The click handler has no guard against an unmounted canvas: it reads
  `canvasRef.current` directly. The model follows the code, so every click
  comes with a measured rectangle. No "not yet measured" no-op path is
  modelled.

## Model

| member | source | states |
|---|---|---|
| `Starfield.RandomRange` | src/components/HorizonAndReflection.jsx:4-6 | for a draw in [0, 1) the result lies in [min, max) when min < max, equals min when they are equal, and lies in (max, min] otherwise |
| `Starfield.MakeStar` | src/components/HorizonAndReflection.jsx:10-14 | a star built from three draws has x, y in [0, 1) equal to the first two draws and radius in [0.3, 1.6) |
| `Starfield.UseStarfield` | src/components/HorizonAndReflection.jsx:8-17 | the hook yields one star per sample, so `count` samples give `count` stars, each in the unit square with radius in [0.3, 1.6) |
| `Starfield.ScreenPosInBand` | src/components/HorizonAndReflection.jsx:99-100 | on a non-empty canvas a generated star's position `(x * width, y * height * 0.8)` lies in [0, width) by [0, 0.8 * height) |
| `Starfield.ScreenPos` | src/components/HorizonAndReflection.jsx:99-100 | a star's rendered position `(x * width, y * height * 0.8)`, the same mapping the frame draws at line 53; its bounds are stated by `ScreenPosInBand` and its use in a click by `ClickAppendsFirstNearest` |
| `Starfield.ToLocal` | src/components/HorizonAndReflection.jsx:91-93 | the click point in canvas-local coordinates `(clientX - rect.left, clientY - rect.top)`; `ClickAppendsFirstNearest` and `ClickOnStar` state the click in these coordinates |
| `Starfield.Dist2` | src/components/HorizonAndReflection.jsx:101 | the squared distance is non-negative and zero exactly when the two points coincide |
| `Starfield.SquaresPreserveOrder` | src/components/HorizonAndReflection.jsx:101-108 | on non-negative distances, `a < b` holds iff `a * a < b * b`, so comparing squared distances gives the same decisions as comparing hypotenuses |
| `NearestStar.NearestAmong` | src/components/HorizonAndReflection.jsx:96-106 | after `n` stars the scan holds no candidate iff `n == 0`, and otherwise an index below `n` |
| `NearestStar.NearestAmongIsFirstNearest` | src/components/HorizonAndReflection.jsx:96-106 | for `n > 0` the candidate has least distance among the first `n` stars, and every earlier star is strictly farther (the strict `<` keeps the first of a tie) |
| `NearestStar.FirstNearestUnique` | src/components/HorizonAndReflection.jsx:102-105 | at most one index is the first star of least distance |
| `NearestStar.NearestCharacterized` | src/components/HorizonAndReflection.jsx:96-106 | the whole scan finds nothing iff the star list is empty, and finds `k` iff `k` is the first star of least distance |
| `NearestStar.Nearest` | src/components/HorizonAndReflection.jsx:96-106 | the whole scan finds no star iff the list is empty, and otherwise an index into it; `NearestCharacterized` shows it is the first star of least distance |
| `NearestStar.FindNearest` | src/components/HorizonAndReflection.jsx:96-106 | the loop ends with the rendered position of the first nearest star (none for an empty list) and `minD` equal to that star's squared distance |
| `Selection.SnapTestMatchesDistance` | src/components/HorizonAndReflection.jsx:108 | for a distance `h >= 0` with square `d2`, `h < 40` iff `d2 < 1600` |
| `Selection.SnapTarget` | src/components/HorizonAndReflection.jsx:91-108 | a point to append is always some star's rendered position strictly within the snap radius of the canvas-local click point; `ClickAppendsFirstNearest` says which star |
| `Selection.ClickStep` | src/components/HorizonAndReflection.jsx:90-112 | a click leaves the state unchanged or appends exactly one point, keeping the earlier ones in order, and never clears the flag; `ClickAppendsFirstNearest` gives the full transition |
| `Selection.ResetStep` | src/components/HorizonAndReflection.jsx:115-118 | reset yields an empty selection and `complete == false` from any state |
| `Selection.ClickAppendsFirstNearest` | src/components/HorizonAndReflection.jsx:90-112 | with `k` the first nearest star to the canvas-local click point: if its squared distance is below 1600 the click appends exactly `(stars[k].x * width, stars[k].y * height * 0.8)` and sets the flag once the length reaches 6; otherwise the state is unchanged |
| `Selection.ClickAppendsIff` | src/components/HorizonAndReflection.jsx:108-112 | a click appends one point, keeping all earlier ones in order, iff some star is within the snap radius; if every star is at 40 px or farther the state is unchanged |
| `Selection.ClickWithoutStars` | src/components/HorizonAndReflection.jsx:96-108 | with an empty star list a click changes nothing |
| `Selection.ClickOnStar` | src/components/HorizonAndReflection.jsx:98-110 | a click exactly on star `j`'s rendered position appends that position, even if an earlier star shares it |
| `Selection.ClickCompletion` | src/components/HorizonAndReflection.jsx:111 | after a click the flag is the old flag, or else true exactly when the click appended and the new length is at least 6; a click never clears it |
| `Selection.ClickPreservesConsistent` | src/components/HorizonAndReflection.jsx:109-111 | if `complete == (length >= 6)` before a click, it holds afterwards |
| `Selection.ResetIdempotent` | src/components/HorizonAndReflection.jsx:115-118 | reset gives the mount state, resetting twice equals resetting once, and the result is consistent |
| `Selection.RunConsistent` | src/components/HorizonAndReflection.jsx:22-23 | from the mount state `([], false)`, after any sequence of clicks and resets, `complete` holds iff at least 6 points are selected |
| `Selection.ClickAppendsSnapped` | src/components/HorizonAndReflection.jsx:98-110 | a click either leaves the selection as it was or appends one point that is a star's rendered position within 40 px of that click |
| `Selection.RunSelectsSnappedStars` | src/components/HorizonAndReflection.jsx:108-110 | from mount, every selected point is a star's rendered position that lay within the snap radius of one of the clicks so far |
| `Selection.Constellation.constructor` | src/components/HorizonAndReflection.jsx:19-23 | the component starts with its star list, an empty selection and `complete == false` |
| `Selection.Constellation.HandleClick` | src/components/HorizonAndReflection.jsx:90-113 | the handler moves the state exactly as `ClickStep` says and keeps `complete == (length >= 6)` |
| `Selection.Constellation.Reset` | src/components/HorizonAndReflection.jsx:115-118 | the reset button leaves `selected == []`, `complete == false` |
| `Render.Path` | src/components/HorizonAndReflection.jsx:58-66 | the stroked path has `length - 1` segments, none when at most one point is selected, and segment `i` joins points `i` and `i + 1` |
| `Render.PathExtends` | src/components/HorizonAndReflection.jsx:58-66 | appending a point to a non-empty selection adds exactly one segment, from the previous last point to the new one |
| `Render.HorizonBand` | src/components/HorizonAndReflection.jsx:70-72 | the horizon band spans the full width, ends at the bottom edge and is `(1 - 0.82) * height` tall |
| `Render.RenderFrame` | src/components/HorizonAndReflection.jsx:38-75 | a frame draws one disc per star at its rendered position with the star's radius, the polyline `Path(selected)` through the selection in order (non-empty iff at least two points are selected), and the horizon band |
| `Render.StarsAboveHorizon` | src/components/HorizonAndReflection.jsx:53-72 | on a non-empty canvas every generated star's centre is drawn within the width and above the top of the horizon band (the disc's radius is not accounted for) |

## Left out

- Canvas painting: `clearRect`, the background gradient, colours, line width and `arc`. A frame is modelled as a display list, not as pixels.
- The `requestAnimationFrame` loop and its cancellation, the effect re-running on changes to `stars` or `selected`, and the resize listener. These are browser scheduling and event registration.
- Resize and `devicePixelRatio` backing-buffer scaling. All coordinates are in CSS pixels, as the transform set at line 35 makes them.
- `Math.random`: replaced by draws given as parameters.
- Floating point: `Math.hypot` rounding, `Infinity` and `NaN` are not modelled. Reals are exact, and distances are compared squared.
- React's state scheduling: each click is assumed to see the state left by the previous click or reset. The handler's closure over `selected` is not modelled.
- The `framer-motion` overlay: it is shown iff `complete` holds. The rest of the JSX markup is static.
- `HeroScene.jsx`, `ChapterAscent.jsx`, `ProjectGlove.jsx` and `App.jsx`: presentational components with no logic in this model.
