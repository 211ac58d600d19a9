# Double progress bar: the lock engine, in Dafny

`DoubleProgressBar` (double-progress-bar.js) drives two overlapping bars, front and back, in one container. Both bars use a scale of 0 to 100 ticks. Each bar object carries `currentTicks` and an integer `lock`. Every command on a bar bumps its lock: set, fill and stop. A fill runs as a chain of `setTimeout` steps (`doFillBarTo`). Each step first compares the lock it captured with the bar's current lock. A mismatch means a newer command has taken over, and the step does nothing. Otherwise the step moves the bar's width one pixel toward the target, re-derives `currentTicks` from the new width, calls `onTick` and schedules itself again. A step that finds the bar at its target calls `onFillComplete` and stops instead.

The project has four modules:

- `Conversions` (conversions.dfy): the pure helpers. These are `checkBounds`, `ticksToPx`, `pxToTicks`, `fillSpeedToDelay` and the truncation `parseInt` performs. Ticks and pixels are exact reals.
- `Engine` (engine.dfy): the controller as a pure state machine. A `Model` holds:
  - the container's width;
  - the two bars, each with its element's width, `currentTicks` and `lock`;
  - the timers scheduled and not yet fired, each a `Task` of bar, clamped target, delay and lock;
  - a log of callback invocations.

  Every command is a function, and so is the firing of the *i*-th pending timer (`Fire`). `Apply` and `Run` play any sequence of commands and firings. The host fires timers in any order, so every interleaving of the two bars' chains is covered.
- `EngineProperties` (properties.dfy): the lemmas. They cover:
  - lock bookkeeping;
  - what one step does;
  - the invariant every operation keeps, including at most one live chain per bar;
  - that stale chains never act again;
  - that a chain with a whole-pixel target completes after exactly as many steps as it has pixels to go;
  - that a chain with a fractional target oscillates forever.
- `Controller` (controller.dfy): `DoubleProgressBar` as a class, with fields updated in place and one method per public or internal method of the controller object. The helpers `checkBounds`, `ticksToPx`, `pxToTicks` and `fillSpeedToDelay` carry no state, so they are module functions in `Conversions` rather than methods of the class. Each method that stands for a method of the source and changes state ensures `State() == Engine.F(old(State()), …)` and keeps `Valid()`, so the lemmas of `EngineProperties` hold of the object. `PutBar` is only the helper that writes one bar field and promises no more than that write.

Behaviour of the code that the model reproduces:

- **Callbacks are always no-ops.** `fillFrontBarTo` and `fillBackBarTo` test `typeof(a)`, and the file never defines `a`. So, unless the page defines a global `a`, they always replace the caller's `onTick` and `onFillComplete` with empty functions (double-progress-bar.js:59-60, 67-68). The fill methods therefore take no callbacks. The log records each invocation of those no-ops as (callback, bar, lock of the chain).
- **The first step runs synchronously.** A fill calls `doFillBarTo` directly. Only the continuations go through `setTimeout`.
- **The delay is truncated, not rounded.** The code uses `parseInt`, which truncates (double-progress-bar.js:171). `EngineProperties.DelayTruncates` shows a delay where truncating and rounding give different results.
- **A fill speed of 0 gives NaN.** `1000 / 0` is an infinity, and `parseInt` of it is `NaN`. The model keeps this as `Delay.NotANumber` rather than forbidding the input.
- **Widths are read back as integers.** A width is read through `parseInt`, so it is a whole number. The target `ticksToPx(ticks)` need not be. When it is fractional, the chain never completes (`FractionalTargetNeverCompletes`, `FractionalTargetOscillates`).
- **`currentTicks` can leave [0, 100].** It is guaranteed to stay inside while both bars stay inside their container (`Contained`). A bar the page starts wider than its container can push `currentTicks` past 100 during a fill.

## Model

| member | source | states |
|---|---|---|
| `Conversions.CheckBounds` | double-progress-bar.js:178-185 | the result lies in [0, 100]; values already in [0, 100] come back unchanged; negative values give 0 and values above 100 give 100 |
| `Conversions.CheckBoundsIdempotent` | double-progress-bar.js:178-185 | clamping twice is clamping once |
| `Conversions.CheckBoundsMonotone` | double-progress-bar.js:178-185 | clamping preserves order |
| `Conversions.TicksToPx` | double-progress-bar.js:152-156 | 0 ticks is 0 px and 100 ticks is the container width; ticks in [0, 100] map into [0, container width]; fewer than 100 ticks is narrower than the container |
| `Conversions.PxToTicks` | double-progress-bar.js:163-167 | it is the inverse of `TicksToPx` (converting its result back gives the pixels again), and it maps [0, container width] into [0, 100] |
| `Conversions.TicksPxRoundTrip` | double-progress-bar.js:152-167 | for a container of positive width, `pxToTicks(ticksToPx(t)) == t` |
| `Conversions.Truncate` | double-progress-bar.js:171 | the integer `parseInt` gives for a number: the integer part, truncated toward zero, within one of the number and on its side of zero |
| `Conversions.FillSpeedToDelay` | double-progress-bar.js:169-173 | speed 0 gives NaN; for a positive speed s px/s, the delay d is the largest whole number of ms with d·s ≤ 1000; a negative speed s px/s gives a delay d ≤ 0 with d·s ≤ 1000 < d·s − s, that is the smallest whole number not below 1000/s, as truncation toward zero gives |
| `Engine.SetBarTo` | double-progress-bar.js:38-42 | afterwards `currentTicks == checkBounds(t)` and the width is `ticksToPx` of it; the lock, the other bar, the container, the timers and the log are unchanged |
| `Engine.ReadWidthPx` | double-progress-bar.js:80 | the `parseInt` of a bar's CSS width (also at double-progress-bar.js:113): for a non-negative width, the whole number of pixels not above it and within one of it |
| `Engine.BumpLock` | double-progress-bar.js:45 | `++bar.lock` (also at lines 50, 58, 66 and 133): that bar's lock goes up by one; its width and ticks, the other bar, the timers and the log stay as they were |
| `Engine.SetCommand` | double-progress-bar.js:44-52 | `setFrontBarTo` / `setBackBarTo`: a lock bump, then `setBarTo`; its properties are stated by `CommandLocks`, `SetCommandInStep`, `SetFullIff` and `BumpPreservesInv` |
| `Engine.FillCommand` | double-progress-bar.js:57-71 | `fillFrontBarTo` / `fillBackBarTo`: a lock bump, then the first step under the new lock; its properties are stated by `CommandLocks`, `FillAtTargetCompletesAtOnce`, `FillRunsToCompletion` and `HalfFillScenario` |
| `Engine.DoFillBarTo` | double-progress-bar.js:76-106 | one fill step; its properties are stated by `StaleStepIsInert`, `LiveStepMoves`, `LiveStepCompletes`, `LiveStepApproaches`, `StepKeepsLocks` and `StepPreservesInv` |
| `Engine.Fire` | double-progress-bar.js:97-98 | the host runs one pending continuation: it leaves the pending list and its step runs; its properties are stated by `StaleFireIsInert`, `WithoutPreservesInv` and `ChainRuns` |
| `Engine.StopBar` | double-progress-bar.js:132-142 | `stopBar`, `stopFrontBar`, `stopBackBar`: one lock bump, nothing else (the contract of `Engine.BumpLock`) |
| `Engine.Stop` | double-progress-bar.js:144-147 | both locks go up by one; widths, ticks, timers and log stay as they were |
| `Engine.IsBarFull` | double-progress-bar.js:111-119 | `isBarFull`: the width the bar reports is at least the container's; its properties are stated by `FullIgnoresTicks` and `SetFullIff` |
| `Engine.Run` | double-progress-bar.js:38-147 | any sequence of commands and firings, in order; the container width never changes; `RunPreservesInv`, `RunFacts` and `StaleChainsStayDead` state what every run keeps |
| `Engine.Apply` | double-progress-bar.js:44-147 | one public command or one timer firing; the container width never changes |
| `EngineProperties.CommandLocks` | double-progress-bar.js:44-71 | set, fill and stop on a bar bump exactly that bar's lock by one and leave the other's alone; `stop` bumps both; a timer firing bumps neither |
| `EngineProperties.StepKeepsLocks` | double-progress-bar.js:76-106 | a fill step changes no lock and never touches the other bar |
| `EngineProperties.StaleStepIsInert` | double-progress-bar.js:77-105 | a step whose lock differs from the bar's changes nothing: no width, no ticks, no timer, no callback |
| `EngineProperties.StaleFireIsInert` | double-progress-bar.js:97-98 | firing a stale timer only removes it from the pending timers |
| `EngineProperties.LiveStepMoves` | double-progress-bar.js:82-98 | a live step away from its target moves the width by +1 if below and −1 if above; sets `currentTicks = pxToTicks(new width)`; logs one `onTick`; schedules exactly one continuation with the same lock, delay and clamped target |
| `EngineProperties.LiveStepCompletes` | double-progress-bar.js:100-104 | a live step at its target logs one `onFillComplete` and changes nothing else |
| `EngineProperties.LiveStepApproaches` | double-progress-bar.js:80-90 | with a whole-pixel target, a moving step lands on a whole pixel and the distance to the target drops by exactly one |
| `EngineProperties.FractionalTargetNeverCompletes` | double-progress-bar.js:80-99 | with a fractional target, every live step moves and reschedules, and none calls `onFillComplete` |
| `EngineProperties.FractionalTargetOscillates` | double-progress-bar.js:80-98 | such a chain returns to the same width, with the same single timer pending, after every two firings |
| `EngineProperties.BumpPreservesInv` | double-progress-bar.js:45 | bumping a lock keeps the invariant and leaves no live timer for that bar |
| `EngineProperties.SetBarToPreservesInv` | double-progress-bar.js:38-42 | setting a bar keeps the invariant |
| `EngineProperties.StepPreservesInv` | double-progress-bar.js:76-106 | a step keeps the invariant, including at most one live chain per bar |
| `EngineProperties.WithoutPreservesInv` | double-progress-bar.js:97-98 | taking a fired timer out of the pending list keeps the invariant; if that timer was live, none of its bar's remaining timers is |
| `EngineProperties.ApplyPreservesInv` | double-progress-bar.js:38-147 | every command and every firing keeps the invariant: positive container, non-negative widths, pending locks no newer than their bar's, targets clamped, at most one live timer per bar |
| `EngineProperties.RunPreservesInv` | double-progress-bar.js:38-147 | every sequence of operations keeps the invariant |
| `EngineProperties.ApplyPreservesContained` | double-progress-bar.js:38-106 | bars that start inside the container stay inside it, and both `currentTicks` stay in [0, 100] |
| `EngineProperties.StepPreservesContained` | double-progress-bar.js:82-90 | a step moves a bar that is inside the container to a width that is still inside it |
| `EngineProperties.SetCommandInStep` | double-progress-bar.js:38-47 | after a set, `currentTicks` is exactly the tick value of the bar's width |
| `EngineProperties.ApplyKeepsInStep` | double-progress-bar.js:38-147 | once `currentTicks` matches the width, no operation breaks that |
| `EngineProperties.StepKeepsInStep` | double-progress-bar.js:89-90 | a step writes the width and the matching `currentTicks` together |
| `EngineProperties.StepFacts` | double-progress-bar.js:76-106 | a step only appends to the log; every callback it logs and every timer it schedules carries the bar's current lock |
| `EngineProperties.ApplyFacts` | double-progress-bar.js:38-147 | locks never decrease; the log only grows; new callbacks and new timers carry the current lock of their bar |
| `EngineProperties.RunFacts` | double-progress-bar.js:38-147 | over any run, locks never decrease and the log only grows; every callback logged and every timer pending at the end carries a lock at least as new as its bar's lock at the start, unless the timer was already pending then |
| `EngineProperties.StaleChainsStayDead` | double-progress-bar.js:77-134 | once a bar's lock has moved past L, whatever happens next: no callback of chain L is logged; no timer of chain L is newly scheduled; firing a leftover timer of chain L writes nothing |
| `EngineProperties.ChainRuns` | double-progress-bar.js:76-106 | a lone live chain d whole pixels from a whole-pixel target completes on its (d+1)-th firing, with d `onTick`, then one `onFillComplete`, the bar at the target and nothing pending |
| `EngineProperties.FirstStepThenChain` | double-progress-bar.js:61-98 | a fill issued with no timer pending, live, with a whole-pixel target n > 0 pixels away, moves on its synchronous first step, then completes after n firings of the first pending timer |
| `EngineProperties.FillRunsToCompletion` | double-progress-bar.js:57-106 | a fill with a whole-pixel target, issued with no timer pending, completes after exactly n = distance firings: n `onTick`, then one `onFillComplete` of the new lock; the bar at the target, showing exactly the clamped target ticks if it moved; the other bar untouched |
| `EngineProperties.HalfFillScenario` | double-progress-bar.js:57-106 | 200 px container, empty front bar, no timer pending, fill to 50 ticks: after 100 firings, 100 `onTick` then one `onFillComplete`; bar at 100 px and 50 ticks |
| `EngineProperties.HalfFillDelay` | double-progress-bar.js:169-173 | at 200 px and 10 ticks/s the delay is 50 ms |
| `EngineProperties.DelayTruncates` | double-progress-bar.js:171 | at 300 px and 7 ticks/s the delay is 47 ms (1000/21 ≈ 47.6 is truncated, not rounded) |
| `EngineProperties.FillAtTargetCompletesAtOnce` | double-progress-bar.js:57-62 | a fill toward the width the bar already reports bumps the lock and logs only `onFillComplete`, with no `onTick` and no timer |
| `EngineProperties.SetBarToIdempotent` | double-progress-bar.js:38-42 | setting a bar to the same ticks twice gives the same state as setting it once |
| `EngineProperties.FullIgnoresTicks` | double-progress-bar.js:111-119 | `isBarFull` does not depend on `currentTicks` |
| `EngineProperties.SetFullIff` | double-progress-bar.js:38-52 | after setting a bar, it is full exactly when the clamped ticks are 100 |
| `Controller.DoubleProgressBar.constructor` | double-progress-bar.js:18-33 | both bars start at 0 ticks and lock 0, with no timers and an empty log; the invariant holds |
| `Controller.DoubleProgressBar.BumpLock` | double-progress-bar.js:45 | `++bar.lock`: the new state is `Engine.BumpLock` of the old one; the invariant is kept and no timer of that bar stays live |
| `Controller.DoubleProgressBar.SetBarTo` | double-progress-bar.js:38-42 | the new state is `Engine.SetBarTo` of the old; the invariant is kept |
| `Controller.DoubleProgressBar.SetFrontBarTo` | double-progress-bar.js:44-47 | bump the front lock, then set the front bar |
| `Controller.DoubleProgressBar.SetBackBarTo` | double-progress-bar.js:49-52 | bump the back lock, then set the back bar |
| `Controller.DoubleProgressBar.DoFillBarTo` | double-progress-bar.js:76-106 | the step in place: the new state is `Engine.DoFillBarTo` of the old; the invariant is kept |
| `Controller.DoubleProgressBar.FillFrontBarTo` | double-progress-bar.js:57-63 | bump the front lock, then run the first step under the new lock |
| `Controller.DoubleProgressBar.FillBackBarTo` | double-progress-bar.js:65-71 | bump the back lock, then run the first step under the new lock |
| `Controller.DoubleProgressBar.Fire` | double-progress-bar.js:97-98 | the host runs one pending `setTimeout` continuation; the new state is `Engine.Fire` of the old |
| `Controller.DoubleProgressBar.IsBarFull` | double-progress-bar.js:111-119 | true exactly when the width the bar reports is at least the container's width |
| `Controller.DoubleProgressBar.IsFrontBarFull` | double-progress-bar.js:121-123 | `isBarFull` of the front bar |
| `Controller.DoubleProgressBar.IsBackBarFull` | double-progress-bar.js:125-127 | `isBarFull` of the back bar |
| `Controller.DoubleProgressBar.StopBar` | double-progress-bar.js:132-134 | only the bar's lock changes, by one |
| `Controller.DoubleProgressBar.StopFrontBar` | double-progress-bar.js:136-138 | `stopBar` of the front bar |
| `Controller.DoubleProgressBar.StopBackBar` | double-progress-bar.js:140-142 | `stopBar` of the back bar |
| `Controller.DoubleProgressBar.Stop` | double-progress-bar.js:144-147 | both locks bump by one and nothing else changes |

## Left out

- jQuery and the DOM: widths are fields of the model. The container width is a positive whole number of pixels, so fractional container widths (and the difference between `parseFloat` and `parseInt` of it) are not modelled. A bar's width is a real exactly as last written, and reading it back is truncation toward zero. Any rounding the browser applies to a stored CSS width is not modelled.
- `ticksToPxStr` (double-progress-bar.js:158-161): it only formats a number with a `px` suffix for CSS.
- Timing: no clock. The delay a task carries is computed and kept but never used, because the host may fire any pending timer at any moment (`Fire(i)`).
- The caller's callbacks: unless the page defines a global `a`, the code never calls them (see above), so the model has no callback parameters. It logs only the no-ops.
- A container of width 0: excluded by precondition, because the tick and pixel conversions divide by it.
- Resizing the container while the bars run: the width is fixed at construction.
- IEEE floating point: conversions use exact reals.
- `parseInt` of a number whose decimal form uses exponent notation (below 1e-6 or from 1e21 up) reads only the leading digits. `Truncate` models the ordinary range only.
- The implicit globals `px`, `ticks` and `pxPerSecond` that `ticksToPx`, `pxToTicks` and `fillSpeedToDelay` assign (double-progress-bar.js:154, 165, 171): they are not part of the controller's state.
- Element names: the code stores each bar's element name as `name` on a function object (double-progress-bar.js:26-29). A function's `name` property cannot be assigned, so as written both names stay empty and every bar lookup (double-progress-bar.js:40, 80, 89, 113) is `$('#')`, which reaches neither bar element. The model gives each bar its own element, as evidently intended, and identifies bars by `Role`.
- Lock overflow: `lock` is an unbounded `nat`. In JavaScript, `++bar.lock` on a Number stops changing at 2^53, after which a stopped chain would stay live; the model does not capture that limit.
- `Contained` (bars inside the container) is a separate invariant. It is not part of `Valid()`, because the page may start a bar wider than its container.
- EngineProperties.FillRunsToCompletion: it states completion only for a fill issued while no timer is pending, with the host then firing the first pending timer each time. `StepKeepsLocks` and `StaleChainsStayDead` show that the other bar's chain and stale leftovers cannot disturb it, but the exact step count under other interleavings is not stated.
- EngineProperties.FirstStepThenChain: like `FillRunsToCompletion`, it is stated only for a first step taken while no timer is pending, with the host then firing the first pending timer each time; other interleavings are not counted step by step.
- EngineProperties.HalfFillScenario: the step count 100 is a parameter so that the verifier does not unroll the firings.
