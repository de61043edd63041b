# hmgui kernel in Dafny

This project models the kernel of hmgui, an immediate-mode GUI library written in TypeScript.
Every frame, the application rebuilds a tree of widgets declaratively. Each widget contributes a
*tick*: a transition function over one shared interaction-state record. A tick answers `Halt`,
`Continue(state)` or `SuspendAndResume(effect)`. The host component drives the root tick to a
fixpoint. It runs effects (user callbacks) as they come and rebuilds the tree after each one.

The modules follow the source files:

| module | source | form |
|---|---|---|
| `HList` | src/lib/hlist.ts | datatype plus two loop methods (`Equals`, `ToArray`) |
| `Next` | lib/data/next.ts (and its earlier copy src/lib/data/next.ts) | datatype, `Fold`, the `Reduce` loop proved against the function `Reduced` |
| `Dsl` | lib/core/dsl.ts | the node datatype |
| `Context` | lib/core/context.ts | builder context and interaction state, pure setters and predicates |
| `Attributes` | lib/core/attributes.ts | `Reader.local` modifiers as builder transformers |
| `Widget` | lib/core/widget.ts | the `makeInteractive` rule chain |
| `Widgets` | lib/widgets.ts | text, button, input, container and list, with the ticks defunctionalised into `Tick` and applied by `Eval` |
| `Renderer` | lib/react/renderer.tsx (the loop in src/lib/react/renderer.tsx is the same) | `AppRunner` class with the `EventLoop` while loop proved against `ConvergeFrom` |
| `PrototypeRunner` | src/lib/react.tsx | the first host's ten-tick loop, as a class and a specification function |
| `DraftNext` | src/lib/next.ts | the four-way result and its `reduce` loop |
| `DraftContext` | src/lib/core/context.ts | the earlier state record |
| `FocusTrapContext` | src/lib/context.ts | the focus-trap variant |
| `DraftAttributes` | src/lib/attributes.ts | State-monad `id` and `enabled` |
| `DraftWidgets` | src/lib/widgets.ts | the inline button and input rule chains |
| `Scenarios` | lib/react/renderer.tsx with lib/widgets.ts and src/lib/widgets.ts | whole-loop consequences |

Modelling choices:

- `reduce` decides between `Continue` and `Halt` by reference identity: it checks `currentState !== initialState`.
  - Every `cont(...)` in the code wraps a freshly built record, so that check is true exactly when some child continued.
  - The model records this as a flag in `Reduce`. In `Reduced` it is the `AfterContinue` step.
- A widget's tick is a closure in the source. Here it is a constructor of `Widgets.Tick`, and `Widgets.Eval` applies it.
  - The test `w.tick === noEventHandler` becomes the tag test `NoEventHandler?`.
- An effect is `Effect(call, resume)`: the deferred IO performs `call` and then returns `resume`.
  - The callbacks stay opaque, as a type parameter `H`.
  - The host runs an effect through a parameter `runEffect(e, m)`. It gives back the state to resume with and the new external model `m`.
  - The host rebuilds the application as `getApp(m)`.
- `AppRunner.state` stands for the published `state$` value, and `AppRunner.dsl` for the React component state.
- `dispatch(f)` and `update(f)` in lib/react/renderer.tsx return an IO thunk that the caller must run (`dispatch(f)()`). `AppRunner.Dispatch` and `AppRunner.Update` model running that thunk.
- A `throw` from the event loop is the outcome `DidNotConverge`. The published state is then left as it was.
- src/lib/widgets.ts and src/lib/attributes.ts read `activeIdIsAlive`, `setActiveIdIsAlive`, `getEnabled` and `setEnabled`.
  - The state file they import (src/lib/core/context.ts) does not have these.
  - So `DraftWidgets` and `DraftAttributes` run over the later `Context` record.
- The source promises that an active ID whose widget is no longer interactive gets cleared.
  - The comment on `activeIdIsAlive` (lib/core/context.ts:26) says the application will forcefully blur it away.
  - The event loop's comment (lib/react/renderer.tsx:324-326) says it will process another frame and forcefully clear the `activeId`.
  - In the code, `isActiveIdStale` needs `activeIdIsAlive` to be set, but `newFrame` clears it at the start of every loop.
  - No tick of lib/widgets.ts marks another widget alive, whether the button runs as written or corrected.
  - So the recovery never fires for widget trees (`Scenarios.TreeAppsNeverRecover`), and a vanished active widget stays active (`Scenarios.RemovedActiveWidgetStaysActive`). The model follows the code.

## Model

| member | source | states |
|---|---|---|
| `HList.Segments` | src/lib/hlist.ts:8-19 | a path's segment list has exactly the cached `length` (0 for `nil`, one more per `cons`) |
| `HList.Pop` | src/lib/hlist.ts:20-21 | `pop` drops the newest segment and shortens the path by one; popping `nil` gives `nil` |
| `HList.GetLast` | src/lib/hlist.ts:41-42 | `getLast` is None exactly for the empty path, and otherwise is the most recently pushed segment |
| `HList.ConsThenPop` | src/lib/hlist.ts:16-21 | `cons` adds one to the length and appends the newest segment; `pop(cons(v, l)) = l`; `getLast(cons(v, l)) = Some(v)`; `nil` has length 0, pops to `nil`, has no last |
| `HList.SegmentsInjective` | src/lib/hlist.ts:23-39 | two paths with the same segments in the same order are the same path |
| `HList.Equals` | src/lib/hlist.ts:23-39 | the two-cursor loop terminates and answers true exactly when both paths hold the same segments in the same order |
| `HList.ToArray` | src/lib/hlist.ts:44-55 | filling a new array of `length` cells from the back lists the segments oldest first |
| `Next.Fold` | lib/data/next.ts:21-40 | each tag goes to its own callback: continue to `onContinue(state)`, suspension to `onSuspendAndResume(effect)`, halt to `onHalt()` |
| `Next.FoldWithConstructors` | src/lib/data/next.ts:20-33 | folding with the three constructors rebuilds the value |
| `Next.Reduce` | lib/data/next.ts:42-63 | the loop computes `Reduced`: skip halts, hand on continued states, return the first suspension, then `Continue(last state)` if any child continued, otherwise `Halt` (empty list: `Halt`) |
| `Next.ReducedHaltsIffAllHalt` | lib/data/next.ts:47-62 | the reduction halts exactly when every child halts on the starting state |
| `Next.ReducedAppend` | lib/data/next.ts:44-61 | reducing `fs + gs`: `gs` starts from the state `fs` left, is never run after a suspension in `fs`, and a halting `fs` is transparent |
| `Next.ReducedHaltingHead` | lib/data/next.ts:50-51 | a halting first child is skipped with the state unchanged |
| `Next.ReducedIgnoresHaltingChild` | lib/data/next.ts:50-62 | inserting an always-halting child anywhere among siblings never changes the result |
| `Next.ReducedSingleContinuer` | src/lib/data/next.ts:39-52 | among halting siblings, the one continuing child's state is the result |
| `Next.ReducedPreserves` | lib/data/next.ts:44-62 | an invariant every child keeps on states and effects is kept by the whole reduction |
| `Context.PushId` | lib/core/context.ts:45-50 | entering a scope puts the segment on the path and changes nothing else |
| `Context.PopId` | lib/core/context.ts:51-56 | leaving a scope pops the path and changes nothing else |
| `Context.PopAfterPush` | lib/core/context.ts:45-56 | pop after push restores the context; push keeps `enabled` and the label |
| `Context.NewFrame` | lib/core/context.ts:76-89 | `newFrame` only clears `activeIdIsAlive`, so its result is never stale |
| `Context.HasRequestedFocusNext` | lib/core/context.ts:91-93 | holds exactly when the widget being built is the one recorded in `focusNextRequestedBy` |
| `Context.SetActiveId` | lib/core/context.ts:101-117 | sets the active and alive IDs to `x`, so the result is never stale; keeps the buffer iff `x` equals the active ID; keeps the pressed-before flag only when `x` is Some and unchanged; nothing else changes |
| `Context.SetActiveIdIdempotent` | lib/core/context.ts:101-117 | setting the same active ID twice equals setting it once |
| `Context.SettersChangeOnlyTheirField` | lib/core/context.ts:95-150 | each simple setter changes exactly its field; `setInputBuffer` also resets the flag to valid; none makes a fresh state stale |
| `Context.CanActivate` | lib/core/context.ts:182-187 | a widget can activate exactly when no ID is active |
| `Context.CanDeactivate` | lib/core/context.ts:188-193 | a widget can deactivate exactly when it is the active one |
| `Context.DoBlur` | lib/core/context.ts:196-201 | afterwards `id` is not focused; the state changes only if `id` had focus, and then focus becomes None |
| `Context.DoFocus` | lib/core/context.ts:202-207 | afterwards `id` is focused; only the focus changes |
| `Context.DoUpdateInputBuffer` | lib/core/context.ts:208-210 | the state changes only when `id` is both active and focused, and then only the buffer (flagged valid) |
| `Attributes.Id` | lib/core/attributes.ts:6-12 | the wrapped builder runs in the caller's context with `seg` pushed on the path |
| `Attributes.Enabled` | lib/core/attributes.ts:14-20 | the wrapped builder runs in the caller's context with only the enabled flag replaced |
| `Attributes.NestedIds` | lib/core/attributes.ts:10-11 | nested `id(a)(id(b)(w))` gives `w` the path `cons(b, cons(a, current))`, i.e. segments `... a, b` |
| `Attributes.InnermostEnabledWins` | lib/core/attributes.ts:6-20 | under nested `enabled` the innermost value is seen, and `id` between them does not disturb it |
| `Widget.NoEventHandler` | lib/core/widget.ts:32-34 | `noEventHandler` always halts |
| `Widget.MakeInteractive` | lib/core/widget.ts:36-116 | the rule chain in priority order: focus-next hand-over (even when disabled), disabled goes to `whenNotActive`, autofocus claim, active (deactivate before keep-alive before `whenActive`), inactive (activate only if nothing is active) |
| `Widgets.ButtonWhenNotActive` | lib/widgets.ts:63-72 | corrected: an inactive button continues exactly when pressed and not yet focused, and then it takes focus (always a real change) |
| `Widgets.ButtonAsWrittenContinuesInPlace` | lib/widgets.ts:63-72 | as written, a pressed, focused button that cannot activate returns `Continue` of the unchanged state, while the corrected one halts |
| `Widgets.ButtonPressFiresOnce` | lib/widgets.ts:22-75 | a press on an unfocused button with nothing active: focus, activate, suspend with `onPress`, then halt |
| `Widgets.ButtonFiresOncePerActivation` | lib/widgets.ts:41-58 | an active button suspends exactly when the pressed-before flag is false, and the resume state makes it halt |
| `Widgets.ButtonSuspendsOnlyWhenActive` | lib/widgets.ts:41-58 | a button suspends only while active, enabled and not yet pressed, with `onPress` and the flag set on resume |
| `Widgets.ButtonReleaseDeactivates` | lib/widgets.ts:35-61 | an active button no longer pressed or no longer focused sets the active ID to None; released, it then halts; blurred while still held, it takes focus back |
| `Widgets.InputCommitThenRelease` | lib/widgets.ts:133-178 | losing focus with an accepted buffer: suspend with `onChange(accepted)`, resume with the buffer cleared, release, halt |
| `Widgets.InputInvalidHolds` | lib/widgets.ts:152-177 | a rejected buffer is flagged invalid with only that flag changed, then the input halts, still active |
| `Widgets.InputChangeOnlyValid` | lib/widgets.ts:122-180 | an input suspends only as the active, enabled, unfocused widget whose buffer is flagged valid and accepted, passing the accepted text and clearing the buffer on resume |
| `Widgets.LeafActivationDiscipline` | lib/core/widget.ts:86-111 | a button (as written or corrected) or an input changes the active ID only by activating itself when none is active, or releasing itself |
| `Widgets.LeafTickProgress` | lib/core/widget.ts:60-115 | every `Continue` from an input, or from a button with the corrected inactive behaviour, changes the state (the button as written can continue in place, see `Widgets.ButtonAsWrittenContinuesInPlace`) |
| `Widgets.TickKeepsFresh` | lib/core/widget.ts:94-99 | from a non-stale state, no tree's tick (buttons as written or corrected) continues or resumes with a stale active ID |
| `Widgets.HandleContainerEvents` | lib/widgets.ts:77-91 | no handler exactly when every child has none, otherwise the children's reduction in declared order |
| `Widgets.EvalContainer` | lib/widgets.ts:88-90 | a container tick is the reduction of its children's ticks |
| `Widgets.HandleContainerEventsSound` | lib/widgets.ts:84-87 | skipping the reduction for non-interactive children gives the same result as reducing them |
| `Widgets.ContainerHaltsIffChildrenHalt` | lib/widgets.ts:88-90 | a container halts exactly when each child halts on the state it is given |
| `Widgets.Sequence` | lib/widgets.ts:97 | every sibling is built from the same context, in declared order |
| `Widgets.Text` | lib/widgets.ts:16-20 | a text node at the current path, never interactive |
| `Widgets.Button` | lib/widgets.ts:22-27 | a button node at the current path, ticking with the button behaviour in that context |
| `Widgets.ButtonAsWritten` | lib/widgets.ts:22-75 | the same button node, ticking with the button behaviour exactly as written |
| `Widgets.Input` | lib/widgets.ts:182-190 | the input node records the value and the context's enabled flag; the tick is the input behaviour with this context, value, validator and `onChange` |
| `Widgets.Container` | lib/widgets.ts:93-105 | the node holds the children's nodes in order and the tick is `handleContainerEvents` of theirs |
| `Widgets.List` | lib/widgets.ts:108-120 | as `container`, drawn as a list |
| `Widgets.AllDigits` | lib/widgets.ts:192 | true exactly when every character is a decimal digit |
| `Widgets.ValidateInteger` | lib/widgets.ts:192 | accepts, unchanged, exactly the non-empty strings of decimal digits, and rejects the others unchanged |
| `Renderer.ConvergeFrom` | lib/react/renderer.tsx:284-342 | the loop from a frame on; the number of ticks it runs is at most 22 |
| `Renderer.ConvergedIsFixpoint` | lib/react/renderer.tsx:324-341 | a returned state is one the final application halts on and is never stale |
| `Renderer.HaltingAppReturnsNewFrame` | lib/react/renderer.tsx:287-290 | the first tick sees `newFrame(input)`; an app halting there returns it after one tick |
| `Renderer.TrappedDiverges` | lib/react/renderer.tsx:316-322 | once the app keeps continuing inside a set of states, the loop throws after 21 ticks with the model unchanged |
| `Renderer.FreshAppsNeverRecover` | lib/react/renderer.tsx:324-333 | when ticks and effects never make the active ID stale, the recovery never fires and at most 21 ticks run |
| `Renderer.AppRunner.constructor` | lib/react/renderer.tsx:262-268 | builds the app, runs a first loop on the initial state and publishes its result |
| `Renderer.AppRunner.EventLoop` | lib/react/renderer.tsx:284-342 | the `keepAlive` while loop (also src/lib/react/renderer.tsx:196-252) computes `Converge` of the input: outcome, model left and frames processed (at most 22) |
| `Renderer.AppRunner.Dispatch` | lib/react/renderer.tsx:344-351 | publishes the loop's result on `f(state)` and the rebuilt tree; a throw publishes nothing |
| `Renderer.AppRunner.Update` | lib/react/renderer.tsx:353-359 | publishes `f(state)` without a loop; model and app unchanged |
| `Renderer.AppRunner.ComponentWillMount` | lib/react/renderer.tsx:361-363 | the IO of a dispatch of the identity is built but never run: model, app, published state and tree are unchanged |
| `PrototypeRunner.LoopFrom` | src/lib/react.tsx:115-137 | the `numLoops` counter, raised only after a tick that did not halt, never passes ten |
| `PrototypeRunner.HaltedOrExhausted` | src/lib/react.tsx:118-136 | the loop ends on a halt exactly when the counter stays below ten, and then returns a state the final app halts on; otherwise ten ticks ran without a halt |
| `PrototypeRunner.HaltingAppReturnsInput` | src/lib/react.tsx:116-124 | no frame reset: an app halting on the input returns the input itself, with the counter at zero |
| `PrototypeRunner.AlwaysContinuingStopsAtCap` | src/lib/react.tsx:118-137 | an always-continuing app returns, without throwing, the state reached after exactly ten ticks |
| `PrototypeRunner.AppRunner.constructor` | src/lib/react.tsx:106-109 | builds the app from the model and holds the initial state |
| `PrototypeRunner.AppRunner.EventLoop` | src/lib/react.tsx:115-137 | the `numLoops` while loop computes `Loop` of the input |
| `PrototypeRunner.AppRunner.ComponentWillMount` | src/lib/react.tsx:139-141 | the component state becomes the loop's result on it |
| `PrototypeRunner.AppRunner.Dispatch` | src/lib/react.tsx:143-145 | the component state becomes the loop's result on `f(state)` |
| `DraftNext.Fold` | src/lib/next.ts:26-42 | each of the four tags goes to its own callback |
| `DraftNext.FoldWithConstructors` | src/lib/next.ts:26-42 | folding with the four constructors rebuilds the value |
| `DraftNext.Walk` | src/lib/next.ts:53-68 | the walk stops only at a halt or a suspension, and renders no more nodes than there are children |
| `DraftNext.Reduce` | src/lib/next.ts:45-71 | the loop with `outDsl` computes `Reduced`: the stopping child's result, `render(agglomerate)` if all rendered, otherwise `cont(final state)` |
| `DraftNext.WalkAppend` | src/lib/next.ts:53-68 | later children start from the state earlier ones left, never run after a stop, and their nodes follow |
| `DraftNext.RenderIffAllRender` | src/lib/next.ts:69-70 | the result is a render exactly when every child renders, and it agglomerates their nodes in child order |
| `DraftNext.AllRenderWalk` | src/lib/next.ts:53-68 | the walk collects one node per child exactly when each child renders on the starting state |
| `DraftNext.StopEndsReduction` | src/lib/next.ts:62-65 | a halting or suspending child's own result ends the reduction; later children do not matter |
| `DraftNext.EmptyRenders` | src/lib/next.ts:69-70 | an empty list renders `agglomerate([])` |
| `DraftContext.PushId` | src/lib/core/context.ts:28-33 | pushing appends the segment to the path |
| `DraftContext.PopId` | src/lib/core/context.ts:34-39 | popping a non-empty path drops its newest segment; popping the empty path changes nothing |
| `DraftContext.PopAfterPush` | src/lib/core/context.ts:28-39 | pop after push restores the context |
| `DraftContext.SetActiveId` | src/lib/core/context.ts:41-54 | an unchanged active ID (None included) leaves the state as it is; otherwise the buffer and the pressed-before flag are cleared |
| `DraftContext.SettersChangeOnlyTheirField` | src/lib/core/context.ts:56-74 | each other setter changes only its field |
| `DraftContext.CanActivate` | src/lib/core/context.ts:103-108 | exactly when no ID is active |
| `DraftContext.CanDeactivate` | src/lib/core/context.ts:109-114 | exactly when the widget is the active one |
| `DraftContext.PredicatesCompareSegments` | src/lib/core/context.ts:76-101 | the predicates depend only on the path's segments |
| `FocusTrapContext.PopAfterPush` | src/lib/context.ts:31-32 | pop after push restores the context |
| `FocusTrapContext.SetActiveId` | src/lib/context.ts:35-37 | only the active ID changes, and the buffer is untouched |
| `FocusTrapContext.SetFocusedId` | src/lib/context.ts:39-41 | only the focus changes |
| `FocusTrapContext.SetInputBuffer` | src/lib/context.ts:43-45 | any new buffer, none included, is flagged dirty; nothing else changes |
| `FocusTrapContext.SetInputBufferState` | src/lib/context.ts:46-48 | only the flag changes |
| `FocusTrapContext.CanActivate` | src/lib/context.ts:64-66 | exactly when there is no trap and no active ID |
| `FocusTrapContext.CanDeactivate` | src/lib/context.ts:67-69 | exactly when there is no trap and the widget is active |
| `FocusTrapContext.TrapFreezesActivation` | src/lib/context.ts:43-69 | with the trap set nothing can activate or deactivate, and the buffer setters keep the trap |
| `DraftAttributes.Id` | src/lib/attributes.ts:6-13 | the widget runs with `seg` pushed and its result is returned; the context it leaves is popped |
| `DraftAttributes.Enabled` | src/lib/attributes.ts:15-27 | the widget runs with the flag set and its result is returned; the caller's flag is always restored |
| `DraftAttributes.ModifiersKeepBalance` | src/lib/attributes.ts:9-26 | a builder that leaves the context as found still does so under `id` or `enabled` |
| `DraftAttributes.Gets` | src/lib/widgets.ts:16-20 | a reading builder leaves the context as found |
| `DraftAttributes.Sequence` | src/lib/widgets.ts:92 | builders run in sequence, one widget each |
| `DraftAttributes.BalancedSiblingsShareContext` | src/lib/widgets.ts:91-97 | balanced siblings each see the caller's context, which comes back unchanged |
| `DraftWidgets.ImmutableWidget` | src/lib/widgets.ts:11-12 | always halts |
| `DraftWidgets.Text` | src/lib/widgets.ts:16-20 | a text node with an always-halting tick; reads only |
| `DraftWidgets.Button` | src/lib/widgets.ts:22-27 | a button node ticking with the inline button in that context; reads only |
| `DraftWidgets.Input` | src/lib/widgets.ts:167-176 | the node records value and enabled flag; the tick is the input with this context, value, `valid` flag, validator and `onChange`; reads only |
| `DraftWidgets.Container` | src/lib/widgets.ts:88-100 | children built in sequence and kept in declared order; the tick reduces them |
| `DraftWidgets.ButtonPressFiresOnce` | src/lib/widgets.ts:28-81 | focus first, then activate, then one `onPress`, then halt |
| `DraftWidgets.ButtonReleaseDeactivates` | src/lib/widgets.ts:55-80 | after its press, a released button deactivates; held and focused, it halts |
| `DraftWidgets.ButtonActivatesOnlyWhenAllowed` | src/lib/widgets.ts:45-53 | activation requires `canActivate`, focus and press |
| `DraftWidgets.DisabledActiveInputAsWrittenContinuesInPlace` | src/lib/widgets.ts:118-126 | as written, a disabled active input marked alive returns `Continue` of the unchanged state |
| `DraftWidgets.DisabledActiveInputReleased` | src/lib/widgets.ts:118-126 | corrected, a disabled active input sets the active ID to None and then halts |
| `DraftWidgets.InputCommitsOnlyAcceptedValue` | src/lib/widgets.ts:138-159 | a suspension only commits, as the active enabled unfocused input, the buffer (or the value) the format accepts, clearing the buffer |
| `DraftWidgets.InputReleasesWithoutBuffer` | src/lib/widgets.ts:140-147 | with no buffer and `valid`, an unfocused active input releases itself |
| `DraftWidgets.ContainerHaltsIffChildrenHalt` | src/lib/widgets.ts:84-86 | a container halts exactly when each child halts |
| `Scenarios.TreeAppsKeepFresh` | lib/react/renderer.tsx:297-314 | apps built from widget trees, with effects that resume as prepared, never make the active ID stale |
| `Scenarios.TreeAppsNeverRecover` | lib/react/renderer.tsx:324-333 | for widget trees, with buttons as written or corrected, the stale recovery is never taken, and at most 21 ticks run |
| `Scenarios.RemovedActiveWidgetStaysActive` | lib/core/context.ts:76-89 | a vanished active widget is not deactivated by the loop |
| `Scenarios.PressedDisabledButtonAsWrittenDiverges` | lib/widgets.ts:63-72 | as written, pressing a disabled button makes the loop throw after 21 ticks |
| `Scenarios.PressedDisabledButtonConverges` | lib/widgets.ts:63-72 | corrected, pressing a button under `enabled(false)` converges after two ticks with it focused |
| `Scenarios.DisabledActiveInputAsWrittenDiverges` | src/lib/widgets.ts:113-126 | as written, an active input that becomes disabled makes the loop throw |
| `Scenarios.DisabledActiveInputConverges` | src/lib/react/renderer.tsx:196-252 | corrected, it is released and the loop returns after three ticks |

## Left out

- React and RxJS rendering: the `Render*` components, hooks, subscriptions and platform focus calls. `state$` and the React component state are plain fields.
- `translate`: it is a stub, and `TranslatableString` is carried as plain data.
- Timing and logging: `Date.getTime`, `console.log`, `console.warn`, `log` and `enableLog`, including the logging in `doBlur`/`doFocus`.
- The `stateList` debugging array in the event loop: it is only reported on a throw.
- `integer` and `number`: they use `toFixed`, `parseInt` and `isNaN`. Only `validateInteger` is modelled.
- The contents of the IO callbacks (`onPress`, `onChange`) and of the external model. They are the parameters `H`, `perform` and `runEffect`.
- `getApp` runs `props.getApp()` and the builder. It is modelled as the function `getApp(model)`.
- The exception value of a throw: it is modelled only as the outcome `DidNotConverge`.
- src/lib/core.tsx, the demo apps and the entry points (lib/sample.tsx, src/lib/sample.tsx, App.tsx, src/index.tsx): they contain only wiring.
- The draft context files' `initialWidgetBuilderState` and the Dsl of src/lib/dsl.ts: these are constants or declarations only.
- `Next.Reduce`: the unreachable `default: throw` for an unknown tag has no counterpart, because the datatype is closed.
- `DraftWidgets.InputBehaviour` and `Widgets.ButtonBehaviour` run the corrected rules described under Findings. The as-written versions are `DraftWidgets.InputBehaviourAsWritten` and `Widgets.ButtonBehaviourAsWritten`. The `Widgets.Button` builder uses the corrected tick, and `Widgets.ButtonAsWritten` uses the as-written one.
- `DraftWidgets.Container`: the sort by an order whose comparison is always 0 is modelled as keeping the declared order. This relies on the stable sort of current JavaScript engines.
- `Renderer.AppRunner.constructor`: a throw from the first loop would abort construction. The model instead keeps the initial state published.

## Findings

| source | as written | input that shows it | evidently intended | confidence | as-written member | corrected member |
|---|---|---|---|---|---|---|
| lib/widgets.ts:63-72 | an inactive pressed button returns `cont(setFocusedId(self))` even when it already has focus | press a button under `enabled(false)`, or press a button while another widget (an input holding an invalid buffer) stays active: every pass continues with the same state, and the loop throws after 20 frames | take focus only when not focused yet, as the earlier button in src/lib/widgets.ts:35 does | not executed | `Scenarios.PressedDisabledButtonAsWrittenDiverges` | `Scenarios.PressedDisabledButtonConverges` |
| src/lib/widgets.ts:118-126 | "if disabled, forcefully deactivate" calls `setActiveId(O.some(ctx.currentId))`, making the input active again | an input that is active when its context becomes disabled: after the keep-alive pass, every pass continues with the unchanged state, and the loop throws | `setActiveId(O.none)`, as the comment says | not executed | `Scenarios.DisabledActiveInputAsWrittenDiverges` | `Scenarios.DisabledActiveInputConverges` |
