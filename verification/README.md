# Circuit mini-game: a Dafny model

This project models the engine of the circuit mini-game in `game.js`. The
player places batteries, LEDs and switches on a canvas. They drag them
around and draw wires between component terminals. Pressing a switch's
toggle opens or closes it. After every wiring or switch change the game
runs a simulation pass. For each battery, a depth-first search with
backtracking looks for a path from the battery's right (positive) terminal
back to its own left (negative) terminal. The pass then energises the wires
and LEDs on every path found.

The model is functional. A session is a `State` record with four parts:

- the component list;
- the wire list;
- the id counter;
- the pending wiring start.

Each event handler is a function from state to state. Wires are named by
their index in the wire list. The `visited` set of game.js relies on object
identity; here it is a set of wire indices.

Modules, one per concern:

- `Circuit` (circuit.dfy): the data model, lookup by id, and the store
  invariant `Valid`. The invariant says ids are unique and below the
  counter, wire ends name existing components, there are no self-wires,
  and there is at most one wire per unordered pair of components.
- `Placement` (placement.dfy): the state part of each editing handler:
  - placing a component;
  - toggling a switch;
  - the drag clamp;
  - the two halves of the wiring gesture;
  - the reset to the default layout.
- `Tracer` (tracer.dfy): the path search.
  - `Trace`/`TryEach` are a functional form of `tracePath`.
  - `TracePath`/`TryWire` are its imperative push/pop form, proved equal
    to the functional form.
  - `IsTrail` is an independent definition of what a found path is. The
    search succeeds exactly when a trail exists.
- `Simulation` (simulation.dfy): `simulateCircuit`, as the union of the
  paths found for the batteries. It shows that the pass reads only the
  circuit's topology, which makes it idempotent.
- `Game` (game.dfy): the handlers as the user triggers them: each state change,
  followed by a simulation pass where the game runs one. It also holds the
  invariants the handlers keep and the switch-gating monotonicity.
- `Scenarios` (scenarios.dfy): three worked circuits, each evaluated step
  by step:
  - the default layout wired into a loop, whose switch gates the LED;
  - the same loop missing a wire;
  - two batteries sharing one LED, where one battery's path runs through
    the other battery.

Decisions game.js forces:

- **Dangling ids are excluded by preconditions.** `resetGame` keeps the id
  counter and the pending wiring start. A wire completed after a reset
  could therefore name a component that no longer exists, and the search
  reads the far component of every wire without a guard. The search and
  the simulation require `Resolves`: every wire end names an existing
  component. The release handler requires `PendingResolves`: the pending
  start names an existing component. `Game.ResetLeavesStalePending` shows
  that a reset breaks the second property and that completing a wire
  afterwards breaks the first.
- **Creation does not clamp.** Only a drag clamps positions.
- **Creation and reset do not simulate.** Only a switch press and a release
  that adds a wire re-simulate.
- **There is no operation that removes a component or a wire.**

## Model

| member | source | states |
|---|---|---|
| Circuit.Opposite | game.js:295 | A component is left by the side other than the one it was entered at. |
| Circuit.FindIndex | game.js:70 | Lookup by id finds nothing exactly when no component carries the id. Otherwise it finds the first position carrying it, like `components.find`. |
| Circuit.Find | game.js:282 | The component found is in the list and carries the id asked for. |
| Placement.CreateComponent | game.js:94-101 | Exactly one component is appended. It carries the counter as its id, sits at the given position unclamped, and has `closed` and `on` false. Earlier components, the wires and the pending start are untouched, and the counter goes up by one. |
| Placement.CreatePreservesValid | game.js:45-46 | Placing a component keeps the store invariant, and the new id was carried by no earlier component. |
| Placement.ToggleSwitch | game.js:68-74 | The wires, the counter, the pending start and the number of components are unchanged. An id that names nothing changes nothing. |
| Placement.ToggleFlipsOnlyThatSwitch | game.js:70-71 | With unique ids, `closed` flips on exactly the component carrying the id. Every other field of every component is unchanged. |
| Placement.ToggleTwice | game.js:71 | Toggling the same switch twice restores the state. |
| Placement.Clamp | game.js:121-122 | The result is within `[0, hi]` when `hi >= 0`. It equals the input inside that range, 0 below it and `hi` above it. |
| Placement.Drag | game.js:114-125 | Only components change, and none is added or removed. A drag with nothing dragged changes nothing. |
| Placement.DragStaysOnCanvas | game.js:121-125 | On a canvas at least 60 wide and high, the dragged component ends in `0..W-60` x `0..H-60`. It lands on the pointer when the pointer is inside that range. Only its `x` and `y` change, and all other components are unchanged. |
| Placement.DragIdempotent | game.js:117-125 | A second drag step to the same pointer position changes nothing. |
| Placement.StartWiring | game.js:138-139 | The pressed terminal becomes the pending start, replacing any earlier one. Nothing else changes. |
| Placement.HasLink | game.js:185-188 | True exactly when some wire joins the two components, in either direction and on any sides. |
| Placement.FinishWiring | game.js:180-200 | With no pending start, or when releasing on the start's own component, nothing changes, the pending start included. Otherwise the pending start is cleared and the components are unchanged. The wires are unchanged if the pair is already joined; otherwise one inactive wire from the start to the released terminal is appended. |
| Placement.FinishPreservesValid | game.js:180-199 | Completing a wire between existing components keeps the store invariant. In particular there is never a self-wire and at most one wire per unordered pair. |
| Placement.WireOncePerPair | game.js:184-199 | On an unjoined pair the gesture appends the single wire a-b and clears the pending start. Repeating it, in either direction and on any sides, adds no wire. |
| Placement.ResetGame | game.js:314-327 | Exactly three components remain: a battery at (50,50), an LED at (200,50) and a switch at (125,150), with the next three counter values as ids. There are no wires. The counter runs on by three, and the pending start is kept. |
| Placement.ResetValidAndFresh | game.js:314-327 | A reset yields a valid store, and none of its ids was carried by a component before the reset. |
| Tracer.Far | game.js:281 | The far end is one of the wire's two ends. It is the end terminal when the wire starts on the current component, and the start terminal otherwise. |
| Tracer.ConnectedBelow | game.js:272-275 | The indices below `n` of the wires touching the terminal, each exactly once and in list order. |
| Tracer.ConnectedWires | game.js:272-275 | Exactly the wires touching the terminal, in strictly increasing index order, as `wires.filter` yields them. |
| Tracer.ConnectedWiresExactly | game.js:272-275 | Any strictly increasing list of exactly the wires touching a terminal is the filter's result. |
| Tracer.UnvisitedShrinks | game.js:297 | Marking an unvisited wire strictly shrinks the set of unvisited wires. This is the search's termination measure. |
| Tracer.TraceSound | game.js:277-311 | Whatever the search appends on success is a trail in the sense of `IsTrail`. |
| Tracer.TryEachSound | game.js:277-309 | The same from any position of the loop over the connected wires. |
| Tracer.TraceComplete | game.js:277-311 | If any trail exists, the search succeeds. |
| Tracer.TryEachComplete | game.js:277-309 | If a trail starts with a wire at or after the loop position, the loop succeeds. |
| Tracer.TraceCorrect | game.js:270-312 | The search succeeds if and only if a trail exists, and on success it returns one. |
| Tracer.TrailShape | game.js:288-299 | A trail has odd length, with wires at even positions and components at odd ones. No wire is repeated or already visited. No component passed is an open switch. The last wire touches the target terminal. |
| Tracer.TracePath | game.js:270-312 | The push/pop search returns true exactly when the functional search succeeds. On success the path has grown by exactly the found trail. On failure `visited` and `path` are exactly as on entry. |
| Tracer.TryWire | game.js:277-309 | One loop turn. On success the path grows by the search result from that position. On failure `visited` and `path` come back unchanged, and the loop's result is the next position's. |
| Simulation.Collect | game.js:240-265 | The wires and ids energised by the first `n` components are exactly those on the found path of some battery among them. |
| Simulation.Simulate | game.js:229-268 | An LED is on exactly when its id lies on some battery's found path. A wire is active exactly when it lies on one. Nothing else changes: not switch states, positions, wire ends, or `on` of non-LEDs. |
| Simulation.ConnectedReadsEndpoints | game.js:272-275 | The wires touching a terminal depend only on the wire ends. |
| Simulation.TraceReadsTopology | game.js:270-312 | The search's result depends only on ids, kinds, switch states and wire ends. Positions and energy flags play no part. |
| Simulation.TryEachReadsTopology | game.js:277-309 | The same for the loop over the connected wires. |
| Simulation.CarriesReadsTopology | game.js:242-265 | Two states with the same topology energise the same items. |
| Simulation.EnergyKeepsTopology | game.js:231-237 | Changing only LED and wire flags keeps every wire end resolvable and the topology unchanged. |
| Simulation.SimulateIgnoresFlags | game.js:229-237 | Two states that differ only in LED and wire flags simulate to the same state. |
| Simulation.NoCircuitIsDark | game.js:229-265 | When no battery's search succeeds, nothing is lit or live, and the pass switches every LED off and deactivates every wire. |
| Simulation.SimulateFixedPoint | game.js:229-265 | A pass leaves a state unchanged if and only if its LED flags already match the found paths and its wire flags do too. |
| Simulation.SimulateIdempotent | game.js:229-268 | Simulating twice in a row gives the same state as simulating once. |
| Simulation.SimulatePreservesValid | game.js:229-268 | A simulation pass keeps the store invariant. |
| Game.OnSwitchPress | game.js:68-74 | Pressing a toggle flips the switch and re-simulates. Only energy flags differ from the toggled state. Each LED is on, and each wire active, exactly when it lies on a path found in the toggled state; other components keep their `on` flag. |
| Game.SwitchPressTwice | game.js:68-74 | Pressing the same switch twice gives what one simulation pass over the original state gives. |
| Game.OnTerminalRelease | game.js:180-200 | Releasing on a terminal completes the wire. It re-simulates only when a wire was added, and then every LED is on, and every wire active, exactly when it lies on a found path; otherwise the result is the completed state itself. |
| Game.FinishKeepsResolves | game.js:190-195 | A wire between existing components keeps every wire end resolvable. |
| Game.SwitchPressKeepsValid | game.js:68-74 | A switch press keeps the store invariant. |
| Game.DragKeepsValid | game.js:114-125 | A drag step keeps the store invariant. |
| Game.ReleaseKeepsValid | game.js:180-200 | Releasing on a terminal keeps the store invariant when the pending start and the released component exist. |
| Game.HandlersPreserveValid | game.js:45-327 | Every handler keeps the store invariant: create, switch press, drag, terminal press, terminal release (given existing ends) and reset. |
| Game.HandlersPreservePending | game.js:138-199 | Every handler except the reset keeps the pending start pointing at an existing component. |
| Game.ResetLeavesStalePending | game.js:314-327 | Reset keeps a pending start whose component is gone. Completing a wire afterwards yields a wire naming a missing component. |
| Game.TrailSurvivesClosing | game.js:285 | A trail stays a trail when switches are closed. |
| Game.CircuitSurvivesClosing | game.js:285 | A battery whose search succeeds still succeeds after more switches are closed. |
| Game.ToggleKeepsResolves | game.js:71 | Toggling keeps every wire end resolvable. |
| Game.ClosingSwitchKeepsCircuits | game.js:284-285 | Closing a switch never makes a battery's search fail, and opening one never makes it succeed. |
| Scenarios.TraceNoWire | game.js:277-311 | A terminal no wire touches makes the search fail. |
| Scenarios.TraceHit | game.js:288-291 | The only wire reaches the target: the path is that wire alone. |
| Scenarios.TraceBlocked | game.js:285 | The only wire leads into an open switch: the search fails, even if that switch is the target. |
| Scenarios.TracePass | game.js:295-308 | The only wire leads into another component. The result is the wire, the component, then what the search from its opposite side finds; the search fails if that one does. |
| Scenarios.TracePassFirst | game.js:297-303 | With two wires, a successful descent through the first ends the loop. |
| Scenarios.TraceSkipThenPass | game.js:278 | A wire already on the path is skipped, and the next wire is tried. |
| Scenarios.LoopIsBuiltByHandlers | game.js:180-200 | The state parts of reset plus three wiring gestures, without their simulation passes, produce exactly the battery-switch-LED loop. |
| Scenarios.LoopOpenSearch | game.js:285 | With the switch open, the battery's search fails. |
| Scenarios.LoopClosedSearch | game.js:270-312 | With the switch closed, the battery's search returns wire 0, the switch, wire 1, the LED, wire 2. |
| Scenarios.LoopOpenIsDark | game.js:229-265 | The open loop with everything off is left unchanged by a pass. |
| Scenarios.LoopClosedIsLit | game.js:252-263 | The closed loop's pass lights the LED and all three wires. |
| Scenarios.LoopToggle | game.js:70-71 | Toggling the loop's switch gives the loop with the other switch state. |
| Scenarios.PressClosesLoop | game.js:68-74 | Pressing the open loop's toggle closes the switch and lights the LED and every wire. |
| Scenarios.PressReopensLoop | game.js:68-74 | Pressing the toggle twice returns the dark loop exactly. |
| Scenarios.ScenarioSwitchGatesLoop | game.js:68-74 | The switch gates the loop: one press lights it, a second press restores the dark original. |
| Scenarios.BrokenIsBuiltByHandlers | game.js:180-200 | The state parts of reset, two wiring gestures and a toggle, without their simulation passes, produce the closed loop with its switch-to-LED wire missing. |
| Scenarios.BrokenSearch | game.js:305-311 | The search passes through the closed switch, finds no wire there, backtracks and fails. |
| Scenarios.BrokenIsDark | game.js:229-265 | With no path found, the pass leaves the LED off and every wire inactive. |
| Scenarios.ScenarioMissingWire | game.js:242-265 | In the loop with a missing wire, the LED stays off and no wire is active, even with the switch closed. |
| Scenarios.TwinSearchA | game.js:270-312 | Battery 0's search returns its own loop through the LED and switch 3. |
| Scenarios.TwinBLedAgain | game.js:278 | Back in the LED with wire 1 on the path, the search skips it and takes wire 4. |
| Scenarios.TwinBThroughA | game.js:295-301 | Battery 1's search passes through battery 0 like any other conductor. |
| Scenarios.TwinSearchB | game.js:270-312 | Battery 1's search returns the 11-item path around battery 0's loop and then its own. |
| Scenarios.TwinCarries | game.js:242-265 | Both batteries' paths carry the LED. Battery 1's path carries battery 0, and between them the paths carry all six wires. |
| Scenarios.TwinIsLit | game.js:252-263 | When the paths carry the LED and the six wires, a pass lights the LED and every wire. |
| Scenarios.ScenarioTwoBatteries | game.js:240-265 | In the two-battery circuit the LED is on and every wire is active. Battery 1's path passes through battery 0. |

## Left out

- The DOM and event plumbing is not modelled: element creation, `innerHTML`, `classList`, listeners, `getBoundingClientRect`, the temporary dashed wire, and `renderWires`/`updateWires` with their SVG path strings. These are rendering side effects only.
- The terminal anchor arithmetic (`x + 0|60`, `y + 30`) is not modelled. Only rendering uses it.
- Positions and the canvas size are integers, not floats. The pointer offset kept by `startDrag` is folded into the pointer position passed to a drag step.
- The dragged component is named by id. An id that names nothing stands for game.js's "nothing is being dragged" case.
- `startDrag`/`stopDrag` and the open/close/start buttons are not modelled. The start button only hides the start screen and calls `resetGame`, which is modelled.
- Component kinds are limited to the palette's three types. `createComponent` with any other type string is not modelled.
- A switch toggle on an id that names nothing leaves the state unchanged. In game.js the handler exists only on a switch's own element, so this case does not arise there.
- The LED marking looks a path's component ids up by membership, not by the first match of `components.find`. The two agree whenever ids are unique, which the store invariant keeps.
- The search and the simulation are only defined when every wire end names an existing component. On a dangling id game.js would fault reading the missing component's fields; the model does not.
- The `visited` and `path` structures are values threaded through the search, not shared mutable objects.
- Tracer.TracePath: on success the contract says nothing about the returned `visited`. In game.js every wire of the successful path except the last stays marked (the wire that reaches the target is pushed but never marked); callers never read them.
- gh-pages-temp/script.js is not part of this model. It is browser UI (menus, scrolling, observers) and a network `fetch`.
- backend/routes/contact.js and backend/server.js are not part of this model. They are an Express mail route and server setup: process and network I/O.
