# Microbiota resistome viewer: playback engine and view bookkeeping

This project models the core of the microbiota resistome viewer, an Electron
application that replays an agent-based hospital/town simulation. It
models, in Dafny, the **playback engine** and the **bookkeeping of the
diagram views it drives**.

The playback engine is a single tick counter driving an ordered list of
views through `tick(n)` and `reset()`, with play, pause, step and reset:

- `playbackController.js` is the current engine. It is modelled in
  `playback_controller.dfy`.
- `player.js` is the older variant. It is modelled in `player.dfy`.

In both, a view is its position in the registration list. What the engine
does to the views is the ordered trace of calls it makes
(`view_calls.dfy`). Interval timers are handles that are live or stopped
(`timers.dfy`), and a timer firing is an explicit operation.

The diagram views are the states view (`src/views/statesView.js`), the
edges view (`views/edgesView.js`) and the agents view
(`views/agentsView.js`). Each keeps:

- a state table of seven records, shared between an ordered list and a
  by-name map (`state_counts.dfy`);
- for the states and edges views, also a transition-frequency book: one
  list of per-tick counts per ordered pair of distinct states
  (`transition_frequencies.dfy`).

`views.dfy` puts these together into the three view classes.

`data.js` turns the parsed transition log into the per-tick event slots
the views read, and the abundance table into series. It is modelled in
`data.dfy`.

The code is modelled in the form it has. For each operation:

- a function on a snapshot of the state specifies it, and lemmas state its
  properties;
- a class with the source's fields performs it in place, and its method
  is proved to agree with the function.

Loops over the views, the nested loops of `_createTransitionsMap`, the
counting loop of `_tickTransitions` and the per-event count loop of
`_animateStates` are `while` loops with invariants.

The model follows the code as written; in particular:

- `play` has no guard against a running timer.
- `groupEvents` makes one group per distinct tick value present, not one
  per tick index.
- The log filter drops only rows whose from-class is `"NA"`; it keeps
  self-transitions.
- A view's `reset` rebuilds the transition lists but does not restore the
  state counts to their tick-0 values.
- The agents view has no `reset` at all.

## Model

| member | source | states |
|---|---|---|
| Timers.Start | playbackController.js:35-37 | `d3.interval` hands out a handle that was not live and is live afterwards |
| Timers.Stop | playbackController.js:55-57 | after `timer.stop()` the handle is no longer live and no other timer is affected |
| ViewCalls.TicksToAppend | playbackController.js:47-49 | the ticks a view receives over two call sequences are those of the first followed by those of the second |
| ViewCalls.ResetsToAppend | playbackController.js:65-67 | reset counts add up over concatenated call sequences |
| ViewCalls.TicksToTickAll | playbackController.js:47-49 | one `forEach` tick fan-out gives each registered view exactly tick `n` and gives unregistered positions nothing |
| ViewCalls.ResetsToTickAll | playbackController.js:47-49 | a tick fan-out resets no view |
| ViewCalls.ResetAllCalls | playbackController.js:65-67 | a reset fan-out gives each registered view one reset and no tick |
| ViewCalls.TickAllShape | playbackController.js:47-49 | the tick fan-out calls the views in list order, one call each |
| ViewCalls.ResetAllShape | playbackController.js:65-67 | the reset fan-out calls the views in list order, one call each |
| ViewCalls.RoundsPerView | playbackController.js:40-51 | after the fan-outs for ticks 0..n-1, each view has received exactly 0, 1, ..., n-1 in order |
| ViewCalls.RoundsOfNoViews | playbackController.js:47-49 | with no views, no fan-out makes a call |
| ViewCalls.SinceResetNoResets | playbackController.js:40-51 | appending calls with no reset extends the calls made since the last reset |
| ViewCalls.SinceResetAll | playbackController.js:61-68 | after a reset fan-out over at least one view, nothing has happened since the last reset |
| ViewCalls.TickAllHasNoResets | playbackController.js:47-49 | a tick fan-out contains no reset call |
| ViewCalls.CallsWithinTickAll | playbackController.js:42-49 | ticking below the bound keeps every tick sent to a registered view below `maxTicks` |
| ViewCalls.CallsWithinResetAll | playbackController.js:65-67 | resets keep every call addressed to a registered view |
| PlaybackController.InitialInv | playbackController.js:4-10 | a new controller has counter 0, no timer, no running timer and satisfies the invariant |
| PlaybackController.PlayInv | playbackController.js:33-38 | `play` shows Playing and holds a new live timer; it adds that timer to the running ones without stopping any and leaves the counter and views untouched |
| PlaybackController.PauseInv | playbackController.js:53-59 | `pause` shows Stopped, stops the held timer if any, holds none, and changes nothing else; safe with no timer |
| PlaybackController.StepBelowBound | playbackController.js:40-51 | below the bound `step` shows the counter, ticks every registered view once with the counter and resets none, then increments the counter by exactly 1 |
| PlaybackController.StepAtBound | playbackController.js:41-45 | at the bound `step` shows the counter, pauses and calls no view; the counter stays and the timer is stopped and dropped |
| PlaybackController.StepInv | playbackController.js:40-51 | `step` preserves the invariant, including `0 <= nTick <= maxTicks` |
| PlaybackController.ResetEffect | playbackController.js:61-68 | `reset` leaves counter 0, surface "0" and Stopped, no timer, the held timer stopped, and each registered view reset once with no tick |
| PlaybackController.ResetTwice | playbackController.js:61-68 | two resets give the same controller state as one, apart from the second round of view resets |
| PlaybackController.ViewsSeeSequentialTicks | playbackController.js:40-51 | since the last reset each view has received tick(0) .. tick(nTick-1) once each, in increasing order |
| PlaybackController.StepsFromReset | playbackController.js:40-68 | from a reset controller, `n <= maxTicks` steps leave `nTick == n` and each view has received 0..n-1 in order |
| PlaybackController.StepsCount | playbackController.js:40-51 | `n` steps that stay within the bound raise the counter by `n` and keep the invariant |
| PlaybackController.StepsReachBound | playbackController.js:40-51 | `maxTicks + 1` steps from a reset end Stopped, with no timer and the counter and surface at `maxTicks` |
| PlaybackController.StepsSplit | playbackController.js:40-51 | n + 1 steps are n steps followed by one |
| PlaybackController.PauseThenPlayResumes | playbackController.js:33-59 | pause then play resumes from the paused tick: the next firing ticks the views at that counter, not at 0 |
| PlaybackController.DoublePlayLeaksTimer | playbackController.js:33-38 | two plays leave two timers running; pause stops only the second, and the first still steps the views while the surface shows Stopped |
| PlaybackController.UnguardedPlayOwnsTwo | playbackController.js:33-38 | with a timer held, the unguarded `play` leaves a running timer the controller no longer holds |
| PlaybackController.GuardedKeepsOneTimer | playbackController.js:33-38 | with a guard on `play`, every operation keeps at most one running timer, and it is the one held |
| PlaybackController.ThreeTickSession | playbackController.js:33-59 | with one view and `maxTicks` 3, play and four firings tick 0, 1, 2, then pause, show 3 and stop the timer |
| PlaybackController.Controller.constructor | playbackController.js:4-10 | the new object's state is the initial snapshot, and it satisfies the invariant |
| PlaybackController.Controller.Play | playbackController.js:33-38 | the new state is `AfterPlay` of the old one |
| PlaybackController.Controller.Pause | playbackController.js:53-59 | the new state is `AfterPause` of the old one |
| PlaybackController.Controller.Step | playbackController.js:40-51 | the `forEach` loop makes the state `AfterStep` of the old one and keeps the invariant |
| PlaybackController.Controller.Reset | playbackController.js:61-68 | pause, zero, show 0, and the reset loop make the state `AfterReset` of the old one |
| PlaybackController.Controller.Fire | playbackController.js:35-37 | a firing of a live timer is one `step` |
| Player.InitialInv | player.js:4-10 | a new player has `nTick == 0` and no timer |
| Player.InvPreserved | player.js:12-31 | every operation, throwing or not, keeps the counter within the bound, never ticks a view at `maxTicks` and never resets a view |
| Player.FireBelowBound | player.js:13-21 | below the bound a firing ticks every view with the same counter in list order, throws nothing, and increments the counter |
| Player.FireAtBoundThrows | player.js:14-17 | at the bound the callback throws a ReferenceError; no view is ticked, the counter stays at `maxTicks` and the timer is still live |
| Player.PauseAndResetNeedATimer | player.js:24-31 | before any `play`, `pause` and `reset` throw a TypeError and change nothing |
| Player.ResetKeepsHandleAndViews | player.js:28-31 | `reset` stops the timer and zeroes the counter but keeps the handle and resets no view |
| Player.ReplayAfterResetRepeatsTicks | player.js:12-37 | after reset and play, views receive tick 0 again with no reset in between |
| Player.DoublePlayLeaksTimer | player.js:12-26 | `play` overwrites the handle unguarded; `pause` then stops only the second timer and the first keeps ticking the views |
| Player.Player.constructor | player.js:4-10 | the new object's state is the initial snapshot |
| Player.Player.Play | player.js:12-22 | the new state is `AfterPlay` of the old one |
| Player.Player.Fire | player.js:13-21 | the state and thrown error are `AfterFire` of the old state |
| Player.Player.Pause | player.js:24-26 | the state and thrown error are `AfterPause` of the old state |
| Player.Player.Reset | player.js:28-31 | the state and thrown error are `AfterReset` of the old state |
| Player.Player.UpdateViews | player.js:33-37 | the loop appends one tick call per view, in list order, and changes nothing else |
| Data.KeptEvents | src/views/data.js:84-91 | an event is kept exactly when some row maps to it and its from-class is not "NA"; fields copied unchanged, self-transitions kept |
| Data.KeptIndices | src/views/data.js:91 | the positions of the rows the filter keeps: increasing, in range, each with a from-class other than "NA", and every such row's position included |
| Data.KeptEventsInRowOrder | src/views/data.js:84-91 | the kept events are exactly the events of the kept positions, one per row, in row order, so duplicate rows give duplicate events |
| Data.KeptEventsKeepsDuplicates | src/views/data.js:84-91 | two equal rows with a from-class other than "NA" give two equal events |
| Data.NestShape | src/views/data.js:27-31 | the nesting has distinct keys, one per tick present; under each key are exactly that tick's events in input order, never an empty group |
| Data.GroupEventsByTick | src/views/data.js:26-35 | one non-empty group per distinct tick value, each that tick's events in input order; ticks without events get no group |
| Data.OfTickHas | src/views/data.js:27-31 | every event is in the group of its own tick |
| Data.OfTickSource | src/views/data.js:27-31 | a non-empty group comes from an event with that tick |
| Data.NestKeysInFirstAppearanceOrder | src/views/data.js:27-31 | groups appear in order of their tick's first appearance |
| Data.FlattenAppendTo | src/views/data.js:26-35 | filing one more event into a group adds exactly that event to the flattened events |
| Data.GroupEventsSnoc | src/views/data.js:27-31 | nesting one more event adds exactly that event to the groups, wherever it is filed |
| Data.GroupEventsIsPermutation | src/views/data.js:26-35 | flattening the groups gives a permutation of the input events |
| Data.LoadTransitions | src/views/data.js:72-96 | with no path the result is absent and nothing is read; otherwise the groups are a permutation of the kept events |
| Data.GetColumn | src/views/data.js:97-99 | the column has one entry per row, entry i being row i's value (absent if missing) |
| Data.GetSeries | src/views/data.js:100-106 | one series per requested column, in order, named after it and holding that column's values; with no columns, and a well-formed first row, one series per key of that row, each key once |
| Data.SeriesOf | src/views/data.js:105 | one series per column, each named after and holding its column |
| Data.SlotsByTick | src/views/statesView.js:168 | the corrected grouping has one slot per tick index |
| Data.SlotsByTickAgreesWithNest | src/views/data.js:26-35 | slot i of the corrected grouping is the nest group of tick i, or empty |
| Data.SlotIsNotTick | src/views/data.js:26-35 | with events only at ticks 0 and 2, `groupEvents` puts tick 2's events in slot 1, which the views read at tick 1 |
| StateCounts.StateNamesDistinct | src/views/statesView.js:96-104 | the table has seven states with distinct names |
| StateCounts.StateInfosDistinct | src/views/statesView.js:29 | a table with the seven state names has no name twice, so `_.object` keeps every record |
| StateCounts.ConvertColumns | views/agentsView.js:43-60 | succeeds exactly when every column is in the first row; then state i is named by the mapping and counts its column |
| StateCounts.ConvertAbundance | views/agentsView.js:26-61 | throws exactly when there is no row or a state column is missing; otherwise the seven states in order, each counting its first-row column |
| StateCounts.ConvertAbundanceDefaulting | views/agentsView.js:46-49 | the corrected table: a missing column counts 0, and it fails only without a row |
| StateCounts.DefaultingAgreesWhenComplete | views/agentsView.js:46-49 | where the table as written succeeds, the corrected one gives the same table |
| StateCounts.MissingColumnThrows | views/agentsView.js:46-49 | a row lacking a column makes the table as written throw, while the corrected one counts 0 |
| StateCounts.ApplyEvent | views/agentsView.js:123-126 | one event keeps the set of states |
| StateCounts.ApplyEvents | views/agentsView.js:123-126 | the count loop keeps the set of states |
| StateCounts.ApplyEventsThrowsIff | views/agentsView.js:123-126 | the count loop throws exactly when some event names a state outside the table |
| StateCounts.ApplyEventsNonNegative | src/views/statesView.js:272-275 | counts that start non-negative stay non-negative, thrown or not |
| StateCounts.TotalUpdate | views/agentsView.js:123-126 | changing one state's count changes the total by the difference |
| StateCounts.ApplyEventTotal | views/agentsView.js:123-126 | an event between known states never lowers the total, and keeps it when the source count was positive |
| StateCounts.ApplyEventsTotal | views/agentsView.js:123-126 | a tick whose events name known states never throws and never lowers the total |
| StateCounts.PartialEventLowersTotal | views/agentsView.js:123-126 | an event to an unknown state throws after decrementing the source, lowering the total by 1 |
| StateCounts.StateRecord.constructor | views/agentsView.js:53-58 | a record holds the given name and count |
| StateCounts.StateTable.Listed | views/agentsView.js:8-14 | the list shows, at each position, the count reachable by that state's name: both reach the same record |
| StateCounts.StateTable.constructor | views/agentsView.js:8-14 | the records are listed in table order and the map reaches each by name with its initial count |
| StateCounts.StateTable.SetCount | views/agentsView.js:124-125 | assigning through the map changes that state's count and no other |
| StateCounts.StateTable.ApplyOne | views/agentsView.js:123-126 | one turn of the loop is `ApplyEvent` on the counts |
| StateCounts.StateTable.Apply | views/agentsView.js:122-126 | the loop makes the counts `ApplyEvents` of the old counts and reports whether it threw |
| TransitionFrequencies.PairNameInjective | src/views/statesView.js:71-73 | for colon-free names, the pair is recovered from its key |
| TransitionFrequencies.PairKeysIff | src/views/statesView.js:76-93 | there is an entry for from:to exactly when both are state names and differ; no self-pair entry |
| TransitionFrequencies.Count | src/views/statesView.js:191-196 | a tick's count for a key is at most the number of its events |
| TransitionFrequencies.CountIsPairCount | src/views/statesView.js:191-200 | for colon-free names the number appended to `from:to` is the number of the tick's events from `from` to `to` |
| TransitionFrequencies.CountPositiveIff | src/views/statesView.js:193-200 | the number appended for a key is positive exactly when some event of the tick has that pair |
| TransitionFrequencies.StrayEventIgnored | src/views/statesView.js:194-200 | a self-transition or an event with an unknown state changes no entry's count |
| TransitionFrequencies.Recorded | src/views/statesView.js:198-201 | the expected history has an entry per key, each list as long as the number of ticks |
| TransitionFrequencies.RecordExtends | src/views/statesView.js:198-201 | recording a tick extends each entry's history by that tick's count |
| TransitionFrequencies.RecordAllFromFresh | src/views/statesView.js:66-69 | after a rebuild and k ticks, each list has length k and entry i is the pair's count in tick i |
| TransitionFrequencies.SumAppend | src/views/statesView.js:7-9 | the sum of a concatenation is the sum of the sums |
| TransitionFrequencies.SumNonNegative | src/views/statesView.js:7-9 | the sum of non-negative counts is non-negative |
| TransitionFrequencies.Window | src/views/statesView.js:266-267 | `slice(-10)` is the last `min(10, len)` entries |
| TransitionFrequencies.WindowSumBound | src/views/statesView.js:266-267 | the edge weight input is between 0 and the sum of the whole list |
| TransitionFrequencies.WindowSlide | views/edgesView.js:212-213 | after a tick the weight gains the new count and loses the count from ten ticks back |
| TransitionFrequencies.MadeStep | src/views/statesView.js:79-91 | one inner-loop turn adds the key of a distinct pair and nothing for a self-pair |
| TransitionFrequencies.MadeRow | src/views/statesView.js:78-92 | finishing the inner loop is one full outer turn |
| TransitionFrequencies.MadeAll | src/views/statesView.js:76-93 | the finished loops have made every pair key |
| TransitionFrequencies.TransitionBook.constructor | src/views/statesView.js:29-31 | a new book holds an empty list for every ordered pair of distinct names |
| TransitionFrequencies.TransitionBook.Rebuild | views/edgesView.js:59-76 | the nested loops leave exactly one empty list per ordered pair of distinct state names |
| TransitionFrequencies.TransitionBook.Record | views/edgesView.js:163-175 | every entry gets exactly one number appended, the tick's count for its pair or 0 |
| Views.StateNamesColonFree | src/views/statesView.js:96-104 | no state name contains a colon, so pair keys never clash |
| Views.AfterTick | src/views/statesView.js:167-178 | `tick` past the last slot throws and changes nothing; otherwise it throws exactly when an event names an unknown state, and keeps the state and pair sets |
| Views.AfterReset | src/views/statesView.js:66-69 | `reset` leaves the counts as they were and makes an empty list for every pair key |
| Views.RunFromReset | views/edgesView.js:145-175 | after a reset and n ticks over known states, nothing throws and every list is exactly the per-slot counts of slots 0..n-1 |
| Views.RunNonNegative | views/edgesView.js:253-257 | counts that start non-negative stay so over any run of ticks |
| Views.ResetDoesNotRestoreCounts | views/edgesView.js:51-53 | replaying slot 0 after a reset reproduces the lists but moves the counts a second time |
| Views.AgentsAfterTick | views/agentsView.js:84-88 | past the last slot `tick` throws and changes nothing; otherwise it throws exactly when an event names an unknown state |
| Views.AgentsTickTotal | views/agentsView.js:122-126 | a tick over known states keeps counts non-negative and never lowers their total |
| Views.NewTable | views/agentsView.js:8-14 | the table holds the seven states in order with the converted counts |
| Views.StatesView.constructor | src/views/statesView.js:12-31 | the view starts with the converted counts and an empty list per pair |
| Views.StatesView.Create | src/views/statesView.js:20 | construction throws exactly when the state table cannot be built, with that error |
| Views.StatesView.Tick | src/views/statesView.js:167-178 | the lists and then the counts change as `AfterTick` says, whatever the animation flags |
| Views.StatesView.Reset | src/views/statesView.js:66-69 | only the transition map is rebuilt; counts are unchanged |
| Views.EdgesView.constructor | views/edgesView.js:12-22 | the view starts with the converted counts and an empty list per pair |
| Views.EdgesView.Create | views/edgesView.js:14 | construction throws exactly when the state table cannot be built |
| Views.EdgesView.Tick | views/edgesView.js:145-151 | list update, then the counts, as `AfterTick` says |
| Views.EdgesView.Reset | views/edgesView.js:51-53 | only the transition map is rebuilt |
| Views.AgentsView.constructor | views/agentsView.js:7-14 | the view starts with the converted counts |
| Views.AgentsView.Create | views/agentsView.js:8 | construction throws exactly when the state table cannot be built |
| Views.AgentsView.Tick | views/agentsView.js:84-88 | the counts change as `AgentsAfterTick` says |

## Left out

- All d3/SVG drawing is left out: selections, transitions, markers, tooltips, the state circles and texts, `_animateTransitions` path geometry, `_animateEvents` dots and resize listeners. They produce only visual output.
- Scales, `_calcControlPoint`, `_calcEdgePoints` and the cos/sin state positions are floating-point drawing arithmetic. A record's `x`/`y` and a transition entry's `source`/`target` feed only the drawing.
- `parseInt` of abundance cells is left out. Counts are taken as integers, so `NaN` is not modelled.
- `loadTicks`' `parseFloat` is left out. Abundance cells are a type parameter of the series functions.
- The callback that can run twice on a read error (the missing `return`s in `loadStates`, `loadTicks` and `loadTransitions`) is left out. File reading and TSV parsing are I/O, and a parsed table is an input.
- `loadStates` and `generateEvents` are left out. The first is I/O with floating-point positions; the second is driven by `Math.random`.
- `views/lineChartView.js` is not part of this model. It wraps a charting library.
- The control surface is reduced to the two values the controller writes: the shown tick and the playing flag. Its event wiring (playbackController.js:12-30) is not modelled. `playerView.js` is not part of this model.
- `main.js`, `index.js` and `src/index.js` are assembly glue and are not modelled. The controller takes `maxTicks` and the number of views as parameters. Where `maxTicks` comes from (`abundance.length` in one entry point, the number of slots in the other) and whether the states views are registered at all are left to the caller.
- The root `index.js` registers the agents view first (index.js:71-77). The agents view defines no `reset`, so `controller.reset()` throws "view.reset is not a function" at the first view. The two line charts and the edges view are then never reset. This is an instance of the view throws left out above.
- PlaybackController.Controller.Step: a view that throws during `tick` or `reset` is not modelled at the controller. Views are an abstract call trace there; the view models in `views.dfy` report their own throws.
- PlaybackController.Controller.Step: what happens after a view throws is not modelled. The throw aborts `step` before `this.nTick++`, and `d3.interval` keeps firing. Each later firing issues `tick(n)` again to every view up to and including the one that throws. Each retry appends another count to every transition list and moves the state counts again. `Views.Run` models only a run that stops at the first throw.
- Views.AgentsAfterTick: `_animateEvents` may throw for an entering agent whose state is not in the table, before the counts change. This depends on d3's enter selection and is not modelled, so an unknown state is modelled as throwing in the count loop only.
- Views.StatesView.Tick: when `animateAgents` is set, `_animateEvents` runs between the list update and the count loop and may throw the same way. It is not modelled.
- PlaybackController.Controller.Pause: `pause` is safe on any controller whose timers are consistent. It is not proved to keep the invariant on its own, because `step` calls it mid-update; `PauseInv` states that.
- JavaScript object-key quirks are not modelled. A state or tick named `__proto__` would change an object's prototype instead of storing an entry; the model treats it as an ordinary key.
- The exact iteration order of `for ... in` is not modelled. It does not affect what is stored, since every entry is updated independently.
- Data.Text: a missing log column is the value `undefined`, which every later use turns into the text "undefined". The model uses that text directly.

## Findings

| source | as written | input that shows it | evidently intended | confidence | as-written member | corrected member |
|---|---|---|---|---|---|---|
| player.js:14-17 | at the bound the interval callback calls `timer.stop()` on an undeclared `timer`, which throws a ReferenceError; the interval is never stopped and keeps firing and throwing | `maxTicks` 0, `play`, one firing | stop this interval and stay at the bound, as the newer controller's `step` does by pausing | high, not executed | Player.FireAtBoundThrows | PlaybackController.StepAtBound |
| views/agentsView.js:46-49 | a missing abundance column makes `count = 0` assign to a `const`, a TypeError, so the view cannot be built; the same lines are in src/views/statesView.js:115-119 and views/edgesView.js:98-102 | an abundance row with only `HealthyPersonsInTown` | warn and count 0 for the missing state | high, not executed | StateCounts.MissingColumnThrows | StateCounts.DefaultingAgreesWhenComplete |
| src/views/data.js:26-35 | `groupEvents` makes one slot per distinct tick present, while the views read slot `n` at tick `n` (src/views/statesView.js:168), so after a tick with no events every later slot is shown one tick early | events only at ticks 0 and 2 | one slot per tick index, empty where a tick has no events | medium, not executed | Data.SlotIsNotTick | Data.SlotsByTickAgreesWithNest |
| playbackController.js:33-38 | `play` starts a new interval without stopping a running one, so two plays leave an orphaned timer that `pause` cannot stop | `play`, `play`, `pause`, then the first timer fires | ignore `play` while a timer runs | low (the control surface hides its play button while playing), not executed | PlaybackController.UnguardedPlayOwnsTwo | PlaybackController.GuardedKeepsOneTimer |
