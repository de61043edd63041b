/**
 * The earlier widget library (src/lib/widgets.ts): the button and the input
 * spell out their rule chains inline, and containers always reduce their
 * children. It reads aliveness and the enabled flag, which only the later
 * context has, so it runs over `Context`.
 */
module DraftWidgets {
  import opened Wrappers
  import N = Next
  import C = Context
  import D = Dsl
  import DA = DraftAttributes
  import WS = Widgets

  type Result<H> = N.Next<C.WidgetState, WS.Effect<H>>

  /** The closures a tick can be in this library. */
  datatype Tick<H> =
    | Immutable
    | ButtonTick(ctx: C.BuilderState, onPress: H)
    | InputTick(ctx: C.BuilderState, value: string, valid: bool, isFormatValid: string -> bool, onChange: H)
    | ContainerTick(children: seq<Tick<H>>)

  datatype Widget<H> = Widget(ui: D.Dsl, tick: Tick<H>)

  /** `immutableWidget`: a tick that always halts. */
  function ImmutableWidget<H>(state: C.WidgetState): (r: Result<H>)
    ensures r.Halt?
  {
    N.Halt
  }

  /** The inline button: focus, then activate, then press once, then release. */
  function ButtonBehaviour<H>(ctx: C.BuilderState, onPress: H, state: C.WidgetState): Result<H>
  {
    var canActivate := C.CanActivate(ctx, state);
    var isCurrentlyPressed := C.IsCurrentlyPressed(ctx, state);
    var isCurrentlyFocused := C.IsCurrentlyFocused(ctx, state);
    var wasPressedBefore := state.activeIdWasPressedBefore;
    var isCurrentlyActive := C.IsCurrentlyActive(ctx, state);
    if isCurrentlyPressed && !isCurrentlyFocused then
      N.Continue(C.SetFocusedId(Some(ctx.currentId), state))
    else if canActivate && isCurrentlyFocused && isCurrentlyPressed then
      N.Continue(C.SetActiveId(Some(ctx.currentId), state))
    else if isCurrentlyActive && !wasPressedBefore then
      N.SuspendAndResume(WS.Effect(WS.Press(onPress), C.SetActiveIdWasPressedBefore(true, state)))
    else if isCurrentlyActive && !isCurrentlyPressed then
      N.Continue(C.SetActiveId(None, state))
    else
      N.Halt
  }

  /**
   * The inline input as written: re-assert aliveness, then "deactivate" a
   * disabled active input by setting the active ID to itself, then the
   * enabled logic (activate on focus; on losing focus release, or commit a
   * buffer the format accepts).
   */
  function InputBehaviourAsWritten<H>(value: string, onChange: H, valid: bool, isFormatValid: string -> bool,
                                      ctx: C.BuilderState, state: C.WidgetState): Result<H>
  {
    if C.IsCurrentlyActive(ctx, state) && state.activeIdIsAlive.None? then
      N.Continue(C.SetActiveIdIsAlive(Some(ctx.currentId), state))
    else if C.IsCurrentlyActive(ctx, state) && !C.GetEnabled(ctx) then
      N.Continue(C.SetActiveId(Some(ctx.currentId), state))
    else EnabledInputLogic(value, onChange, valid, isFormatValid, ctx, state)
  }

  /** The input with a disabled active input really released; the one the model's tree runs. */
  function InputBehaviour<H>(value: string, onChange: H, valid: bool, isFormatValid: string -> bool,
                             ctx: C.BuilderState, state: C.WidgetState): Result<H>
  {
    if C.IsCurrentlyActive(ctx, state) && state.activeIdIsAlive.None? then
      N.Continue(C.SetActiveIdIsAlive(Some(ctx.currentId), state))
    else if C.IsCurrentlyActive(ctx, state) && !C.GetEnabled(ctx) then
      N.Continue(C.SetActiveId(None, state))
    else EnabledInputLogic(value, onChange, valid, isFormatValid, ctx, state)
  }

  /** The part of the input's rules that applies when the context is enabled. */
  function EnabledInputLogic<H>(value: string, onChange: H, valid: bool, isFormatValid: string -> bool,
                                ctx: C.BuilderState, state: C.WidgetState): Result<H>
  {
    var canActivate := C.CanActivate(ctx, state);
    var isCurrentlyActive := C.IsCurrentlyActive(ctx, state);
    var isCurrentlyFocused := C.IsCurrentlyFocused(ctx, state);
    var canDeactivate := C.CanDeactivate(ctx, state);
    if !C.GetEnabled(ctx) then N.Halt
    else if !isCurrentlyActive && isCurrentlyFocused && canActivate then
      N.Continue(C.SetActiveId(Some(ctx.currentId), state))
    else if isCurrentlyActive && !isCurrentlyFocused && canDeactivate then
      if state.inputBuffer.None? && valid then
        N.Continue(C.SetActiveId(None, state))
      else
        var bufferValue := if state.inputBuffer.Some? then state.inputBuffer.value else value;
        if isFormatValid(bufferValue) then
          N.SuspendAndResume(WS.Effect(WS.Change(onChange, bufferValue), C.SetInputBuffer(None, state)))
        else N.Halt
    else N.Halt
  }

  /** Runs a tick on a state. */
  function Eval<H>(tick: Tick<H>, state: C.WidgetState): Result<H>
    decreases tick
  {
    match tick
    case Immutable => ImmutableWidget(state)
    case ButtonTick(ctx, onPress) => ButtonBehaviour(ctx, onPress, state)
    case InputTick(ctx, value, valid, isFormatValid, onChange) =>
      InputBehaviour(value, onChange, valid, isFormatValid, ctx, state)
    case ContainerTick(children) =>
      N.Reduced(seq(|children|, i requires 0 <= i < |children| =>
                      (s: C.WidgetState) => Eval(children[i], s)), state)
  }

  // ----- builders -----

  function Text<H>(text: D.TranslatableString): (r: DA.StateBuilder<Widget<H>>)
    ensures DA.Balanced(r)
    ensures forall ctx :: r(ctx).0 == Widget(D.Text(ctx.currentId, text), Immutable)
  {
    DA.Gets((ctx: C.BuilderState) => Widget(D.Text(ctx.currentId, text), Immutable))
  }

  function Button<H>(text: D.TranslatableString, onPress: H): (r: DA.StateBuilder<Widget<H>>)
    ensures DA.Balanced(r)
    ensures forall ctx :: r(ctx).0 == Widget(D.Button(ctx.currentId, text), ButtonTick(ctx, onPress))
  {
    DA.Gets((ctx: C.BuilderState) => Widget(D.Button(ctx.currentId, text), ButtonTick(ctx, onPress)))
  }

  function Input<H>(value: string, onChange: H, valid: bool, isFormatValid: string -> bool): (r: DA.StateBuilder<Widget<H>>)
    ensures DA.Balanced(r)
    ensures forall ctx :: r(ctx).0.ui == D.Input(ctx.currentId, value, ctx.enabled)
    ensures forall ctx :: r(ctx).0.tick == InputTick(ctx, value, valid, isFormatValid, onChange)
  {
    DA.Gets((ctx: C.BuilderState) =>
      Widget(D.Input(ctx.currentId, value, C.GetEnabled(ctx)), InputTick(ctx, value, valid, isFormatValid, onChange)))
  }

  /**
   * `container`: the children are built in sequence, then kept in declared
   * order (the sort's comparison ranks every pair equal, and the sort is
   * stable), and the tick always reduces them.
   */
  function Container<H>(builders: seq<DA.StateBuilder<Widget<H>>>): (r: DA.StateBuilder<Widget<H>>)
    ensures forall ctx :: r(ctx).1 == DA.Sequence(builders, ctx).1
    ensures forall ctx :: var ws := DA.Sequence(builders, ctx).0;
                          var after := DA.Sequence(builders, ctx).1;
                          r(ctx).0.ui == D.Container(after.currentId, seq(|ws|, i requires 0 <= i < |ws| => ws[i].ui)) &&
                          r(ctx).0.tick == ContainerTick(seq(|ws|, i requires 0 <= i < |ws| => ws[i].tick))
  {
    (ctx: C.BuilderState) =>
      var (widgets, after) := DA.Sequence(builders, ctx);
      (Widget(D.Container(after.currentId, seq(|widgets|, i requires 0 <= i < |widgets| => widgets[i].ui)),
              ContainerTick(seq(|widgets|, i requires 0 <= i < |widgets| => widgets[i].tick))),
       after)
  }

  // ----- properties -----

  /** A press on an unfocused button while nothing is active: focus, activate, press once, halt. */
  lemma ButtonPressFiresOnce<H>(ctx: C.BuilderState, onPress: H, s: C.WidgetState)
    requires s.activeId.None? && C.IsCurrentlyPressed(ctx, s) && !C.IsCurrentlyFocused(ctx, s)
    ensures var s1 := C.SetFocusedId(Some(ctx.currentId), s);
            var s2 := C.SetActiveId(Some(ctx.currentId), s1);
            var s3 := C.SetActiveIdWasPressedBefore(true, s2);
            Eval(ButtonTick(ctx, onPress), s) == N.Continue(s1) &&
            Eval(ButtonTick(ctx, onPress), s1) == N.Continue(s2) &&
            Eval(ButtonTick(ctx, onPress), s2) == N.SuspendAndResume(WS.Effect(WS.Press(onPress), s3)) &&
            Eval(ButtonTick(ctx, onPress), s3).Halt?
  {
  }

  /** Once pressed, a released button deactivates itself; it does not while still held. */
  lemma ButtonReleaseDeactivates<H>(ctx: C.BuilderState, onPress: H, s: C.WidgetState)
    requires C.IsCurrentlyActive(ctx, s) && s.activeIdWasPressedBefore
    ensures !C.IsCurrentlyPressed(ctx, s) ==> Eval(ButtonTick(ctx, onPress), s) == N.Continue(C.SetActiveId(None, s))
    ensures C.IsCurrentlyPressed(ctx, s) && C.IsCurrentlyFocused(ctx, s) ==> Eval(ButtonTick(ctx, onPress), s).Halt?
  {
  }

  /** The button activates only when nothing is active and it is both focused and pressed. */
  lemma ButtonActivatesOnlyWhenAllowed<H>(ctx: C.BuilderState, onPress: H, s: C.WidgetState)
    requires Eval(ButtonTick(ctx, onPress), s).Continue?
    requires Eval(ButtonTick(ctx, onPress), s).state.activeId == Some(ctx.currentId) && !C.IsCurrentlyActive(ctx, s)
    ensures C.CanActivate(ctx, s) && C.IsCurrentlyFocused(ctx, s) && C.IsCurrentlyPressed(ctx, s)
  {
  }

  /**
   * As written, a disabled input that is still active and already marked
   * alive continues with the state it was given, pass after pass.
   */
  lemma DisabledActiveInputAsWrittenContinuesInPlace<H>(value: string, onChange: H, valid: bool,
                                                        isFormatValid: string -> bool, ctx: C.BuilderState, s: C.WidgetState)
    requires !ctx.enabled && C.IsCurrentlyActive(ctx, s) && s.activeIdIsAlive == Some(ctx.currentId)
    ensures InputBehaviourAsWritten(value, onChange, valid, isFormatValid, ctx, s) == N.Continue(s)
  {
  }

  /** Corrected, a disabled active input releases itself, and then halts. */
  lemma DisabledActiveInputReleased<H>(value: string, onChange: H, valid: bool,
                                       isFormatValid: string -> bool, ctx: C.BuilderState, s: C.WidgetState)
    requires !ctx.enabled && C.IsCurrentlyActive(ctx, s) && s.activeIdIsAlive.Some?
    ensures Eval(InputTick(ctx, value, valid, isFormatValid, onChange), s) == N.Continue(C.SetActiveId(None, s))
    ensures Eval(InputTick(ctx, value, valid, isFormatValid, onChange), C.SetActiveId(None, s)).Halt?
  {
  }

  /**
   * The input commits only as the active, enabled, unfocused widget, with
   * the buffer (or the shown value when there is none) that the format
   * accepts, resuming with the buffer cleared.
   */
  lemma InputCommitsOnlyAcceptedValue<H>(value: string, onChange: H, valid: bool,
                                         isFormatValid: string -> bool, ctx: C.BuilderState, s: C.WidgetState)
    requires Eval(InputTick(ctx, value, valid, isFormatValid, onChange), s).SuspendAndResume?
    ensures ctx.enabled && C.IsCurrentlyActive(ctx, s) && !C.IsCurrentlyFocused(ctx, s)
    ensures var bufferValue := if s.inputBuffer.Some? then s.inputBuffer.value else value;
            isFormatValid(bufferValue) &&
            Eval(InputTick(ctx, value, valid, isFormatValid, onChange), s).effect ==
            WS.Effect(WS.Change(onChange, bufferValue), C.SetInputBuffer(None, s))
  {
  }

  /** An unfocused active input with no buffer, in a valid form, releases itself. */
  lemma InputReleasesWithoutBuffer<H>(value: string, onChange: H, isFormatValid: string -> bool,
                                      ctx: C.BuilderState, s: C.WidgetState)
    requires ctx.enabled && C.IsCurrentlyActive(ctx, s) && s.activeIdIsAlive.Some?
    requires !C.IsCurrentlyFocused(ctx, s) && s.inputBuffer.None?
    ensures Eval(InputTick(ctx, value, true, isFormatValid, onChange), s) == N.Continue(C.SetActiveId(None, s))
  {
  }

  /** A container tick halts exactly when each child halts on the state it is given. */
  lemma ContainerHaltsIffChildrenHalt<H>(ticks: seq<Tick<H>>, s: C.WidgetState)
    ensures Eval(ContainerTick(ticks), s).Halt? <==> forall i :: 0 <= i < |ticks| ==> Eval(ticks[i], s).Halt?
  {
    var fs := seq(|ticks|, i requires 0 <= i < |ticks| => (t: C.WidgetState) => Eval(ticks[i], t));
    assert Eval(ContainerTick(ticks), s) == N.Reduced(fs, s);
    assert forall i :: 0 <= i < |ticks| ==> fs[i](s) == Eval(ticks[i], s);
    N.ReducedHaltsIffAllHalt(fs, s);
  }
}
