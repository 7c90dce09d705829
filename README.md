# Live bus map and favourites — a Dafny model

This project models the two pieces of logic in a transit-tracking mobile app.

- **The bus position simulator of the live map** (`components/LiveMap.tsx`).
  For every active line whose route has at least two points, the map places two
  synthetic buses: one a quarter of the way along the route and one three
  quarters of the way along. Whenever the active lines change, it rebuilds the
  whole fleet. Once a second it moves every bus to the next point of its route,
  and goes back to the first point after the last one. It draws one polyline per
  active line with a non-empty route, and one marker per bus. Both are coloured
  from a fixed table of sixteen line colours. An unlisted line gets a green
  polyline and a blue marker.
- **The favourites store** (`context/FavouritesContext.tsx`). It keeps the
  favourite line ids and the ids unfavourited since the favourites tab was last
  left. Toggling a line moves it between the two lists. Clearing empties the
  second list.

Files and modules:

- `sequences.dfy`, module `Sequences`: the predicate that no id occurs twice,
  shared by the simulator and the favourites store.
- `route_colors.dfy`, module `RouteColors`: the colour table, the two fallbacks
  and the colour lookups.
- `simulation.dfy`, module `Simulation`: bus positions as values. It holds the
  seeding of one line, the re-seeding of all active lines, the per-bus step of a
  tick and the tick over the fleet.
- `render.dfy`, module `Render`: what the map draws. This is the projection of
  positions onto route points, the markers and the route polylines.
- `live_map.dfy`, module `LiveMapState`: class `LiveMap`. It holds the catalogue,
  the active lines and the bus positions. Its methods `Seed` (the effect that
  runs when the active lines change) and `Tick` (the interval callback) replace
  the positions. Three client methods replay a catalogue that holds only line
  "20", which has eight points, with lines "20" and "99" active. The first runs
  seeding, three ticks and a re-seed. The second checks that only line "20" gets
  a polyline. The third checks the two buses and markers of line "20".
- `favourites.dfy`, module `Favourites`: class `FavouritesProvider`, with its two
  list fields and the methods `ToggleFavouriteLine` and
  `ClearRecentlyUnfavorited`, specified by the pure function `Toggled`.

The route catalogue is a bundled JSON asset that is not part of this model. It
enters as a `map<string, seq<P>>`. Points are only ever copied, so `P` is an
opaque type parameter.

The map draws every polyline with the same stroke width (7), always opens on the
same fixed initial region, and has exactly one fallback colour for each kind of
drawing. It has no camera fitting and no line selection or highlighting.

## Model

| member | source | states |
|---|---|---|
| `RouteColors.ListedLines` | components/LiveMap.tsx:23-40 | A two-digit line id has a table colour exactly when its number is from 15 to 30 |
| `RouteColors.TableKeysAreNumerals` | components/LiveMap.tsx:23-40 | Every key of the colour table is the two-digit numeral of a number from 15 to 30 |
| `RouteColors.SameColourIffListed` | components/LiveMap.tsx:135-148 | A line's polyline colour and marker colour agree exactly when the line is listed. The fallbacks `#00FF00` and `#2196F3` differ |
| `RouteColors.ColoursDistinguishLines` | components/LiveMap.tsx:23-40 | Listed lines have pairwise different polyline colours. The polyline fallback is no listed colour. The marker fallback equals line 17's colour |
| `Simulation.SeedLine` | components/LiveMap.tsx:43-65 | A missing route, or one with fewer than 2 points, gets no bus. Otherwise there are exactly two buses: `<line>-bus1` and `<line>-bus2`, numbered "1" and "2", on that line. Their indices are floor(n/4) and floor(3n/4), characterised without division, and satisfy 0 ≤ first ≤ second < n |
| `Simulation.SeedAll` | components/LiveMap.tsx:79-82 | Re-seeding yields 2 × (number of active lines whose route has ≥ 2 points) buses. Every bus is on an active line that can host buses, and on a point of its route |
| `Simulation.SeedAllAppend` | components/LiveMap.tsx:80 | Re-seeding from two lists of lines concatenated is the concatenation of their re-seeds, in active-line order |
| `Simulation.SeededLine` | components/LiveMap.tsx:79-82 | With duplicate-free active lines, a line's buses after a re-seed are exactly its fresh seed if it is active, and none if it is not. No earlier progress survives |
| `Simulation.SeededIdShape` | components/LiveMap.tsx:51-64 | Every seeded id is `<line>-bus<number>`, and the number is "1" or "2" |
| `Simulation.SeededIdsUnique` | components/LiveMap.tsx:51-64 | Re-seeding duplicate-free active lines gives every bus a different id (the marker key) |
| `Simulation.Step` | components/LiveMap.tsx:88-103 | A step keeps id, line and number. A bus whose route is missing is unchanged. A bus on its route stays on it, and its index becomes (index + 1) mod the route length |
| `Simulation.TickAll` | components/LiveMap.tsx:87-105 | A tick keeps the fleet's length, order, ids, lines and numbers. It leaves a bus whose route is missing as it was, and keeps every bus on a point of its route |
| `Simulation.TicksAdvance` | components/LiveMap.tsx:85-106 | After N ticks, each bus that stood on its route has index (seed index + N) mod the route length, and its other fields are unchanged |
| `Render.InBoundsReadable` | components/LiveMap.tsx:116 | When every bus stands on its route, the read `route[bus.routeIndex]` is in range for every bus whose route exists |
| `Render.ProjectionKeepsRouted` | components/LiveMap.tsx:112-124 | The projection keeps exactly the positions whose route exists, in order. Each gets its id, line and number, and the point `route[routeIndex]`. So output length ≤ input length |
| `Render.MarkersOfPositions` | components/LiveMap.tsx:147-163 | There is exactly one marker per position whose route exists, in the order of the positions. Each marker carries that position's id, line and number, sits on the point `route[routeIndex]`, and has its line's marker colour. So there are at most as many markers as positions |
| `Render.PolylinePerDrawnLine` | components/LiveMap.tsx:132-146 | There is one polyline per active line with a non-empty route, in order. It carries the whole route and the line's polyline colour |
| `Render.OnePointRoute` | components/LiveMap.tsx:134 | An active line with a one-point route gets a polyline (length > 0) but no marker after re-seeding (length < 2 at line 45) |
| `LiveMapState.LiveMap.constructor` | components/LiveMap.tsx:69 | The map starts with no bus positions, and every bus stands on its route |
| `LiveMapState.LiveMap.Seed` | components/LiveMap.tsx:79-82 | The positions become the re-seed of the new active lines, whatever they were before. The invariant that every bus stands on its route holds |
| `LiveMapState.LiveMap.Tick` | components/LiveMap.tsx:85-106 | The positions become one tick of the old positions, with the same length. The active lines are not touched, and the invariant is preserved |
| `Favourites.Without` | context/FavouritesContext.tsx:20 | Filtering removes every occurrence of the id, keeps every other id's membership, and never lengthens the list |
| `Favourites.ToggleFlips` | context/FavouritesContext.tsx:16-26 | A toggle flips the id's membership of the favourites. Afterwards the id is recently unfavourited exactly when it was a favourite |
| `Favourites.ToggleLeavesOthers` | context/FavouritesContext.tsx:19-24 | With the toggled id filtered out, both lists equal their old versions with it filtered out: other ids keep membership and relative order |
| `Favourites.ToggleKeepsConsistent` | context/FavouritesContext.tsx:16-26 | A toggle preserves three facts: neither list has repetitions, and no id is in both lists. So duplicate-free favourites stay duplicate-free |
| `Favourites.ToggleTwice` | context/FavouritesContext.tsx:16-26 | Toggling an absent id twice restores the favourites, and leaves the recently unfavourited as old-without-id plus id. Toggling a present id twice moves it to the end of the favourites, out of the recently unfavourited |
| `Favourites.FavouritesProvider.constructor` | context/FavouritesContext.tsx:13-14 | Both lists start empty, and the store is consistent |
| `Favourites.FavouritesProvider.ToggleFavouriteLine` | context/FavouritesContext.tsx:16-26 | The new lists are `Toggled` of the old ones: a favourite is filtered out and appended to the recently unfavourited, and otherwise the reverse. Consistency is preserved |
| `Favourites.FavouritesProvider.ClearRecentlyUnfavorited` | context/FavouritesContext.tsx:28-30 | The recently unfavourited becomes empty, the favourites are unchanged, and consistency is preserved |

## Left out

- Rendering of `MapView`, `Polyline` and `Marker` is not modelled: icons, styles, stroke width and the marker's `onPress` callback. Only which polylines and markers are drawn, where, and in which colour is modelled.
- The one-second `setInterval` timer, its `clearInterval` cleanup and React's effect scheduling are not modelled. A tick is a call of `LiveMap.Tick`, and a change of active lines is a call of `LiveMap.Seed`.
- The contents of the route catalogue (`routes.json`) are not modelled. The catalogue is a parameter fixed at construction. An entry that is not an array (the `Array.isArray` checks) cannot be represented. In the model every entry is a sequence.
- Latitude and longitude are floats that are only copied. They stay inside the opaque point type.
- JavaScript property lookup on plain objects is not modelled. The catalogue and the colour table are maps, so ids such as `"toString"` that hit the object prototype are not modelled.
- `Render.Project`: it demands that a bus whose route exists has its index in range. The source reads `route[bus.routeIndex].latitude` and would throw otherwise. `LiveMap.Valid` ensures that this never happens.
- `safeActiveLines` (the fallback to `[]` when the prop is not an array) is not modelled, because active lines are typed as a sequence of ids. `context/ActiveLinesContext.tsx` is a plain state holder and is not part of this model.
- Camera fitting, line selection and highlighting are not modelled: `components/LiveMap.tsx` has only a fixed initial region.
- `Favourites.FavouritesProvider.ToggleFavouriteLine`: toggles are taken to run one after another. React's batched updates are not modelled. Two toggles in one render both read the same stale `favouriteLines` from the closure, and that case is not modelled.
- The provider hooks' "must be used within a provider" errors and the other screens (bus detail sheet, schedules, navigation layout) are not part of this model.
