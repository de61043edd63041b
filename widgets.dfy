/**
 * The widget library (lib/widgets.ts): text, buttons, inputs, containers and
 * lists. A widget is its node plus its tick, the transition function it
 * contributes to every pass. Ticks are closures in the source; here each
 * kind of closure is a constructor of `Tick` and `Eval` applies it.
 */
module Widgets {
  import opened Wrappers
  import N = Next
  import C = Context
  import D = Dsl
  import W = Widget

  /** The user callbacks a suspension runs, left opaque (`H` is the callback). */
  datatype Call<H> = Press(onPress: H) | Change(onChange: H, value: string)

  /** A deferred `IO`: perform `call`, then resume with the state `resume`. */
  datatype Effect<H> = Effect(call: Call<H>, resume: C.WidgetState)

  /** What one tick answers. */
  type Result<H> = N.Next<C.WidgetState, Effect<H>>

  /**
   * The closures a widget's tick can be. `ButtonTick` runs the button with
   * its inactive behaviour corrected, `ButtonAsWrittenTick` the button
   * exactly as lib/widgets.ts writes it.
   */
  datatype Tick<H> =
    | NoEventHandler
    | ButtonTick(ctx: C.BuilderState, onPress: H)
    | ButtonAsWrittenTick(ctx: C.BuilderState, onPress: H)
    | InputTick(ctx: C.BuilderState, value: string, isFormatValid: string -> Either<string, string>, onChange: H)
    | ContainerTick(children: seq<Tick<H>>)

  /** `Widget`: the node drawn for this frame and its tick. */
  datatype Widget<H> = Widget(ui: D.Dsl, tick: Tick<H>)

  /** `WidgetBuilder`: a widget read off the builder context. */
  type Builder<H> = C.BuilderState -> Widget<H>

  // ----- buttons -----

  predicate ButtonWantsActivate(ctx: C.BuilderState, state: C.WidgetState)
  {
    C.IsCurrentlyFocused(ctx, state) && C.IsCurrentlyPressed(ctx, state)
  }

  predicate ButtonWantsDeactivate(ctx: C.BuilderState, state: C.WidgetState)
  {
    !C.IsCurrentlyPressed(ctx, state) || !C.IsCurrentlyFocused(ctx, state)
  }

  function ButtonOnActivate<H>(ctx: C.BuilderState, state: C.WidgetState): Result<H>
  {
    N.Continue(C.SetActiveId(Some(ctx.currentId), state))
  }

  /** While active: run `onPress` unless this activation already did, remembering that it did. */
  function ButtonWhenActive<H>(onPress: H, state: C.WidgetState): Result<H>
  {
    if !state.activeIdWasPressedBefore then
      N.SuspendAndResume(Effect(Press(onPress), C.SetActiveIdWasPressedBefore(true, state)))
    else
      N.Halt
  }

  function ButtonOnDeactivate<H>(state: C.WidgetState): Result<H>
  {
    N.Continue(C.SetActiveId(None, state))
  }

  /** The inactive behaviour as written: a pressed button (re)takes focus, whether or not it has it. */
  function ButtonWhenNotActiveAsWritten<H>(ctx: C.BuilderState, state: C.WidgetState): Result<H>
  {
    if C.IsCurrentlyPressed(ctx, state) then N.Continue(C.SetFocusedId(Some(ctx.currentId), state))
    else N.Halt
  }

  /**
   * The inactive behaviour as intended: a pressed button takes focus if it
   * does not have it yet, and otherwise has nothing to do.
   */
  function ButtonWhenNotActive<H>(ctx: C.BuilderState, state: C.WidgetState): (r: Result<H>)
    ensures r.Continue? ==> r.state != state && C.IsCurrentlyFocused(ctx, r.state)
    ensures r.Continue? <==> C.IsCurrentlyPressed(ctx, state) && !C.IsCurrentlyFocused(ctx, state)
    ensures !r.SuspendAndResume?
  {
    if C.IsCurrentlyPressed(ctx, state) && !C.IsCurrentlyFocused(ctx, state) then
      N.Continue(C.SetFocusedId(Some(ctx.currentId), state))
    else N.Halt
  }

  /** The button's tick as written (lib/widgets.ts). */
  function ButtonBehaviourAsWritten<H>(ctx: C.BuilderState, onPress: H, state: C.WidgetState): Result<H>
  {
    W.MakeInteractive(ctx.currentId,
      s => ButtonWantsActivate(ctx, s), s => ButtonWantsDeactivate(ctx, s),
      s => ButtonOnActivate(ctx, s), s => ButtonWhenActive(onPress, s),
      s => ButtonOnDeactivate(s), s => ButtonWhenNotActiveAsWritten(ctx, s),
      ctx, state)
  }

  /** The button's tick with the inactive behaviour corrected; the one the model's widget tree runs. */
  function ButtonBehaviour<H>(ctx: C.BuilderState, onPress: H, state: C.WidgetState): Result<H>
  {
    W.MakeInteractive(ctx.currentId,
      s => ButtonWantsActivate(ctx, s), s => ButtonWantsDeactivate(ctx, s),
      s => ButtonOnActivate(ctx, s), s => ButtonWhenActive(onPress, s),
      s => ButtonOnDeactivate(s), s => ButtonWhenNotActive(ctx, s),
      ctx, state)
  }

  // ----- inputs -----

  /**
   * The input's deactivation: release at once without a buffer; otherwise
   * first record whether the buffer is valid, then commit a valid buffer
   * through `onChange` (resuming with it cleared), and hold an invalid one.
   */
  function InputOnDeactivate<H>(value: string, isFormatValid: string -> Either<string, string>, onChange: H,
                                state: C.WidgetState): Result<H>
  {
    if state.inputBuffer.None? then
      N.Continue(C.SetActiveId(None, state))
    else
      var rawValue := if state.inputBuffer.Some? then state.inputBuffer.value else value;
      var validatedBuffer := isFormatValid(rawValue);
      var currentInputBufferState := if validatedBuffer.Left? then C.Invalid else C.Valid;
      if state.inputBufferState != currentInputBufferState then
        N.Continue(state.(inputBufferState := currentInputBufferState))
      else if state.inputBuffer.Some? && validatedBuffer.Right? then
        N.SuspendAndResume(Effect(Change(onChange, validatedBuffer.right), C.SetInputBuffer(None, state)))
      else
        N.Halt
  }

  /** `inputBehaviour`: activate on focus, deactivate on losing it. */
  function InputBehaviour<H>(value: string, isFormatValid: string -> Either<string, string>, onChange: H,
                             ctx: C.BuilderState, state: C.WidgetState): Result<H>
  {
    W.MakeInteractive(ctx.currentId,
      s => C.IsCurrentlyFocused(ctx, s), s => !C.IsCurrentlyFocused(ctx, s),
      s => N.Continue(C.SetActiveId(Some(ctx.currentId), s)), _ => N.Halt,
      s => InputOnDeactivate(value, isFormatValid, onChange, s), _ => N.Halt,
      ctx, state)
  }

  // ----- evaluation and containers -----

  /** Runs a tick on a state: what calling the closure does. */
  function Eval<H>(tick: Tick<H>, state: C.WidgetState): Result<H>
    decreases tick
  {
    match tick
    case NoEventHandler => W.NoEventHandler(state)
    case ButtonTick(ctx, onPress) => ButtonBehaviour(ctx, onPress, state)
    case ButtonAsWrittenTick(ctx, onPress) => ButtonBehaviourAsWritten(ctx, onPress, state)
    case InputTick(ctx, value, isFormatValid, onChange) => InputBehaviour(value, isFormatValid, onChange, ctx, state)
    case ContainerTick(children) =>
      N.Reduced(seq(|children|, i requires 0 <= i < |children| =>
                      (s: C.WidgetState) => Eval(children[i], s)), state)
  }

  /** The children's ticks as functions, in declared order. */
  function Handlers<H>(ticks: seq<Tick<H>>): (r: seq<C.WidgetState -> Result<H>>)
    ensures |r| == |ticks|
    ensures forall i, s :: 0 <= i < |ticks| ==> r[i](s) == Eval(ticks[i], s)
  {
    seq(|ticks|, i requires 0 <= i < |ticks| => (s: C.WidgetState) => Eval(ticks[i], s))
  }

  /** `handleContainerEvents`: no handler at all when no child interacts, otherwise the reduction of the children. */
  function HandleContainerEvents<H>(ticks: seq<Tick<H>>): (r: Tick<H>)
    ensures r.NoEventHandler? <==> forall i :: 0 <= i < |ticks| ==> ticks[i].NoEventHandler?
    ensures !r.NoEventHandler? ==> r == ContainerTick(ticks)
  {
    if forall i :: 0 <= i < |ticks| ==> ticks[i].NoEventHandler? then NoEventHandler
    else ContainerTick(ticks)
  }

  /** A container tick is the reduction of its children's ticks. */
  lemma EvalContainer<H>(ticks: seq<Tick<H>>, s: C.WidgetState)
    ensures Eval(ContainerTick(ticks), s) == N.Reduced(Handlers(ticks), s)
  {
    assert Handlers(ticks) == seq(|ticks|, i requires 0 <= i < |ticks| =>
                                    (s: C.WidgetState) => Eval(ticks[i], s));
  }

  /**
   * Skipping the reduction when no child interacts changes nothing: the
   * reduction of non-interactive children halts anyway.
   */
  lemma HandleContainerEventsSound<H>(ticks: seq<Tick<H>>, s: C.WidgetState)
    ensures Eval(HandleContainerEvents(ticks), s) == Eval(ContainerTick(ticks), s)
  {
    EvalContainer(ticks, s);
    N.ReducedHaltsIffAllHalt(Handlers(ticks), s);
  }

  /** A container halts exactly when each child halts on the state it is given. */
  lemma ContainerHaltsIffChildrenHalt<H>(ticks: seq<Tick<H>>, s: C.WidgetState)
    ensures Eval(ContainerTick(ticks), s).Halt? <==> forall i :: 0 <= i < |ticks| ==> Eval(ticks[i], s).Halt?
  {
    EvalContainer(ticks, s);
    N.ReducedHaltsIffAllHalt(Handlers(ticks), s);
  }

  // ----- builders -----

  /** The widgets of `builders`, every one read off the same context. */
  function Sequence<H>(builders: seq<Builder<H>>, ctx: C.BuilderState): (r: seq<Widget<H>>)
    ensures |r| == |builders|
    ensures forall i :: 0 <= i < |builders| ==> r[i] == builders[i](ctx)
  {
    seq(|builders|, i requires 0 <= i < |builders| => builders[i](ctx))
  }

  function Uis<H>(widgets: seq<Widget<H>>): (r: seq<D.Dsl>)
    ensures |r| == |widgets| && forall i :: 0 <= i < |widgets| ==> r[i] == widgets[i].ui
  {
    seq(|widgets|, i requires 0 <= i < |widgets| => widgets[i].ui)
  }

  function Ticks<H>(widgets: seq<Widget<H>>): (r: seq<Tick<H>>)
    ensures |r| == |widgets| && forall i :: 0 <= i < |widgets| ==> r[i] == widgets[i].tick
  {
    seq(|widgets|, i requires 0 <= i < |widgets| => widgets[i].tick)
  }

  /** `text`: a node showing `text` at the current path, never interactive. */
  function Text<H>(text: D.TranslatableString): (r: Builder<H>)
    ensures forall ctx :: r(ctx).ui == D.Text(ctx.currentId, text) && r(ctx).tick.NoEventHandler?
  {
    (ctx: C.BuilderState) => Widget(D.Text(ctx.currentId, text), NoEventHandler)
  }

  /** `button`: a node at the current path whose tick is the button behaviour in that context. */
  function Button<H>(text: D.TranslatableString, onPress: H): (r: Builder<H>)
    ensures forall ctx :: r(ctx).ui == D.Button(ctx.currentId, text) && r(ctx).tick == ButtonTick(ctx, onPress)
  {
    (ctx: C.BuilderState) => Widget(D.Button(ctx.currentId, text), ButtonTick(ctx, onPress))
  }

  /** `button` as written: the same node, ticking with the button behaviour as written. */
  function ButtonAsWritten<H>(text: D.TranslatableString, onPress: H): (r: Builder<H>)
    ensures forall ctx :: r(ctx).ui == D.Button(ctx.currentId, text) && r(ctx).tick == ButtonAsWrittenTick(ctx, onPress)
  {
    (ctx: C.BuilderState) => Widget(D.Button(ctx.currentId, text), ButtonAsWrittenTick(ctx, onPress))
  }

  /** `input`: the node records the value and whether the context is enabled. */
  function Input<H>(value: string, onChange: H, isFormatValid: string -> Either<string, string>): (r: Builder<H>)
    ensures forall ctx :: r(ctx).ui == D.Input(ctx.currentId, value, ctx.enabled)
    ensures forall ctx :: r(ctx).tick == InputTick(ctx, value, isFormatValid, onChange)
  {
    (ctx: C.BuilderState) => Widget(D.Input(ctx.currentId, value, C.GetEnabled(ctx)), InputTick(ctx, value, isFormatValid, onChange))
  }

  /** `container`: the children, built in the same context, in declared order. */
  function Container<H>(builders: seq<Builder<H>>): (r: Builder<H>)
    ensures forall ctx :: r(ctx).ui.Container? && r(ctx).ui.id == ctx.currentId &&
                          |r(ctx).ui.children| == |builders|
    ensures forall ctx, i :: 0 <= i < |builders| ==> r(ctx).ui.children[i] == builders[i](ctx).ui
    ensures forall ctx :: r(ctx).tick == HandleContainerEvents(Ticks(Sequence(builders, ctx)))
  {
    (ctx: C.BuilderState) => var widgets := Sequence(builders, ctx);
           Widget(D.Container(ctx.currentId, Uis(widgets)), HandleContainerEvents(Ticks(widgets)))
  }

  /** `list`: as `container`, drawn as a list. */
  function List<H>(builders: seq<Builder<H>>): (r: Builder<H>)
    ensures forall ctx :: r(ctx).ui.List? && r(ctx).ui.id == ctx.currentId &&
                          |r(ctx).ui.children| == |builders|
    ensures forall ctx, i :: 0 <= i < |builders| ==> r(ctx).ui.children[i] == builders[i](ctx).ui
    ensures forall ctx :: r(ctx).tick == HandleContainerEvents(Ticks(Sequence(builders, ctx)))
  {
    (ctx: C.BuilderState) => var widgets := Sequence(builders, ctx);
           Widget(D.List(ctx.currentId, Uis(widgets)), HandleContainerEvents(Ticks(widgets)))
  }

  // ----- validation -----

  predicate IsDigit(c: char) { '0' <= c <= '9' }

  /** Every character is a decimal digit. */
  function AllDigits(s: string): (r: bool)
    ensures r <==> forall i :: 0 <= i < |s| ==> IsDigit(s[i])
  {
    if s == [] then true else IsDigit(s[0]) && AllDigits(s[1..])
  }

  /** `validateInteger`: accepts, unchanged, exactly the non-empty strings of decimal digits. */
  function ValidateInteger(value: string): (r: Either<string, string>)
    ensures r.Right? <==> |value| > 0 && forall i :: 0 <= i < |value| ==> IsDigit(value[i])
    ensures r == Right(value) || r == Left(value)
  {
    if |value| > 0 && AllDigits(value) then Right(value) else Left(value)
  }

  // ----- properties -----

  /** The conditions under which a widget's own rules, not autofocus or a focus hand-over, decide. */
  predicate Settled(ctx: C.BuilderState, state: C.WidgetState)
  {
    ctx.enabled && !state.autoFocus && state.focusNextRequestedBy != Some(ctx.currentId)
  }

  /**
   * A press on an enabled, unfocused button while nothing is active: the
   * button takes focus, activates, runs `onPress` once, and then halts.
   */
  lemma ButtonPressFiresOnce<H>(ctx: C.BuilderState, onPress: H, s: C.WidgetState)
    requires Settled(ctx, s) && s.activeId.None?
    requires C.IsCurrentlyPressed(ctx, s) && !C.IsCurrentlyFocused(ctx, s)
    ensures var s1 := C.SetFocusedId(Some(ctx.currentId), s);
            var s2 := C.SetActiveId(Some(ctx.currentId), s1);
            var s3 := C.SetActiveIdWasPressedBefore(true, s2);
            Eval(ButtonTick(ctx, onPress), s) == N.Continue(s1) &&
            Eval(ButtonTick(ctx, onPress), s1) == N.Continue(s2) &&
            Eval(ButtonTick(ctx, onPress), s2) == N.SuspendAndResume(Effect(Press(onPress), s3)) &&
            Eval(ButtonTick(ctx, onPress), s3).Halt?
  {
  }

  /**
   * An active button runs `onPress` exactly when this activation has not run
   * it yet, and the state it resumes with makes it halt: once per activation.
   */
  lemma ButtonFiresOncePerActivation<H>(ctx: C.BuilderState, onPress: H, s: C.WidgetState)
    requires Settled(ctx, s) && C.IsCurrentlyActive(ctx, s) && s.activeIdIsAlive.Some?
    requires C.IsCurrentlyPressed(ctx, s) && C.IsCurrentlyFocused(ctx, s)
    ensures Eval(ButtonTick(ctx, onPress), s).SuspendAndResume? <==> !s.activeIdWasPressedBefore
    ensures Eval(ButtonTick(ctx, onPress), s).SuspendAndResume? ==>
              var e := Eval(ButtonTick(ctx, onPress), s).effect;
              e.call == Press(onPress) && Eval(ButtonTick(ctx, onPress), e.resume).Halt?
  {
  }

  /** A button suspends only while active and not yet pressed in this activation, and only to run `onPress`. */
  lemma ButtonSuspendsOnlyWhenActive<H>(ctx: C.BuilderState, onPress: H, s: C.WidgetState)
    requires Eval(ButtonTick(ctx, onPress), s).SuspendAndResume?
    ensures C.IsCurrentlyActive(ctx, s) && ctx.enabled && !s.activeIdWasPressedBefore
    ensures Eval(ButtonTick(ctx, onPress), s).effect ==
            Effect(Press(onPress), s.(activeIdWasPressedBefore := true))
  {
  }

  /**
   * As written, a pressed button that already has focus but cannot activate
   * (it is disabled, or another widget is active) continues with the very
   * state it was given, pass after pass; with the corrected inactive
   * behaviour it halts.
   */
  lemma ButtonAsWrittenContinuesInPlace<H>(ctx: C.BuilderState, onPress: H, s: C.WidgetState)
    requires s.focusNextRequestedBy != Some(ctx.currentId)
    requires C.IsCurrentlyPressed(ctx, s) && C.IsCurrentlyFocused(ctx, s)
    requires !ctx.enabled || (!s.autoFocus && s.activeId.Some? && !C.IsCurrentlyActive(ctx, s))
    ensures ButtonBehaviourAsWritten(ctx, onPress, s) == N.Continue(s)
    ensures Eval(ButtonTick(ctx, onPress), s).Halt?
  {
    assert C.SetFocusedId(Some(ctx.currentId), s) == s;
  }

  /**
   * An active button that is no longer pressed or no longer focused
   * deactivates. Once released it then halts; blurred while still held, it
   * takes focus back on the next tick.
   */
  lemma ButtonReleaseDeactivates<H>(ctx: C.BuilderState, onPress: H, s: C.WidgetState)
    requires Settled(ctx, s) && C.IsCurrentlyActive(ctx, s) && ButtonWantsDeactivate(ctx, s)
    ensures Eval(ButtonTick(ctx, onPress), s) == N.Continue(C.SetActiveId(None, s))
    ensures !C.IsCurrentlyPressed(ctx, s) ==> Eval(ButtonTick(ctx, onPress), C.SetActiveId(None, s)).Halt?
    ensures C.IsCurrentlyPressed(ctx, s) ==>
              Eval(ButtonTick(ctx, onPress), C.SetActiveId(None, s)) ==
              N.Continue(C.SetFocusedId(Some(ctx.currentId), C.SetActiveId(None, s)))
  {
  }

  /**
   * Losing focus with a buffer the validator accepts: the input commits it
   * through `onChange`, resumes with the buffer cleared, releases itself and
   * then halts.
   */
  lemma InputCommitThenRelease<H>(ctx: C.BuilderState, value: string, isFormatValid: string -> Either<string, string>,
                                  onChange: H, s: C.WidgetState, buffer: string, accepted: string)
    requires Settled(ctx, s) && C.IsCurrentlyActive(ctx, s) && !C.IsCurrentlyFocused(ctx, s)
    requires s.inputBuffer == Some(buffer) && s.inputBufferState == C.Valid
    requires isFormatValid(buffer) == Right(accepted)
    ensures var tick := InputTick(ctx, value, isFormatValid, onChange);
            var r1 := C.SetInputBuffer(None, s);
            var r2 := C.SetActiveId(None, r1);
            Eval(tick, s) == N.SuspendAndResume(Effect(Change(onChange, accepted), r1)) &&
            Eval(tick, r1) == N.Continue(r2) &&
            Eval(tick, r2).Halt?
  {
  }

  /**
   * Losing focus with a buffer the validator rejects: the input flags the
   * buffer invalid, then halts, still active and still holding the buffer.
   */
  lemma InputInvalidHolds<H>(ctx: C.BuilderState, value: string, isFormatValid: string -> Either<string, string>,
                             onChange: H, s: C.WidgetState, buffer: string)
    requires Settled(ctx, s) && C.IsCurrentlyActive(ctx, s) && !C.IsCurrentlyFocused(ctx, s)
    requires s.inputBuffer == Some(buffer) && isFormatValid(buffer).Left?
    ensures var tick := InputTick(ctx, value, isFormatValid, onChange);
            var flagged := s.(inputBufferState := C.Invalid);
            Eval(tick, flagged).Halt? &&
            Eval(tick, s) == if s.inputBufferState == C.Invalid then N.Halt else N.Continue(flagged)
  {
  }

  /**
   * An input suspends only to commit: it is the active, enabled, unfocused
   * widget, its buffer is flagged valid and accepted by the validator,
   * `onChange` receives the accepted text, and the resume state clears the buffer.
   */
  lemma InputChangeOnlyValid<H>(ctx: C.BuilderState, value: string, isFormatValid: string -> Either<string, string>,
                                onChange: H, s: C.WidgetState)
    requires Eval(InputTick(ctx, value, isFormatValid, onChange), s).SuspendAndResume?
    ensures C.IsCurrentlyActive(ctx, s) && ctx.enabled && !C.IsCurrentlyFocused(ctx, s)
    ensures s.inputBuffer.Some? && s.inputBufferState == C.Valid && isFormatValid(s.inputBuffer.value).Right?
    ensures Eval(InputTick(ctx, value, isFormatValid, onChange), s).effect ==
            Effect(Change(onChange, isFormatValid(s.inputBuffer.value).right), C.SetInputBuffer(None, s))
  {
  }

  /** A button (as written or corrected) or an input, the widgets that interact. */
  predicate IsLeaf<H>(tick: Tick<H>) { tick.ButtonTick? || tick.ButtonAsWrittenTick? || tick.InputTick? }

  function LeafId<H>(tick: Tick<H>): C.Id
    requires IsLeaf(tick)
  {
    tick.ctx.currentId
  }

  /**
   * A widget changes the active ID only by activating itself when nothing is
   * active, or by releasing itself when it is the active one.
   */
  lemma LeafActivationDiscipline<H>(tick: Tick<H>, s: C.WidgetState)
    requires IsLeaf(tick)
    requires Eval(tick, s).Continue? && Eval(tick, s).state.activeId != s.activeId
    ensures (s.activeId.None? && Eval(tick, s).state.activeId == Some(LeafId(tick))) ||
            (s.activeId == Some(LeafId(tick)) && Eval(tick, s).state.activeId.None?)
  {
  }

  /**
   * Every step a button (with the corrected inactive behaviour) or an input
   * takes changes the state: neither can continue in place. The button as
   * written can, see `ButtonAsWrittenContinuesInPlace`.
   */
  lemma LeafTickProgress<H>(tick: Tick<H>, s: C.WidgetState)
    requires IsLeaf(tick) && !tick.ButtonAsWrittenTick?
    ensures Eval(tick, s).Continue? ==> Eval(tick, s).state != s
  {
  }

  /** No stale active ID in the state. */
  predicate FreshState(s: C.WidgetState) { !C.IsActiveIdStale(s) }

  /** An effect that resumes with a state with no stale active ID. */
  predicate FreshEffect<H>(e: Effect<H>) { !C.IsActiveIdStale(e.resume) }

  /**
   * No widget tree ever makes the active ID stale: from a state that is not
   * stale, every state a tick continues or resumes with is not stale either.
   */
  lemma {:induction false} TickKeepsFresh<H>(tick: Tick<H>, s: C.WidgetState)
    requires !C.IsActiveIdStale(s)
    ensures Eval(tick, s).Continue? ==> !C.IsActiveIdStale(Eval(tick, s).state)
    ensures Eval(tick, s).SuspendAndResume? ==> !C.IsActiveIdStale(Eval(tick, s).effect.resume)
    decreases tick
  {
    match tick
    case ContainerTick(ticks) =>
      var fs := Handlers(ticks);
      forall i, t | 0 <= i < |fs| && FreshState(t)
        ensures N.Respects(fs[i](t), FreshState, FreshEffect)
      {
        TickKeepsFresh(ticks[i], t);
      }
      N.ReducedPreserves(fs, s, FreshState, FreshEffect);
      EvalContainer(ticks, s);
    case _ =>
  }
}
