/**
 * The focus-trap draft of the interaction state (src/lib/context.ts): a
 * three-valued buffer flag and a `focusTrap` switch that freezes activation.
 */
module FocusTrapContext {
  import opened Wrappers
  import HList

  type Id = HList.HList<string>

  datatype BuilderState = BuilderState(currentId: Id)

  datatype BufferState = Dirty | Valid | Invalid

  datatype WidgetState = WidgetState(
    pressedId: Option<Id>,
    focusedId: Option<Id>,
    activeId: Option<Id>,
    inputBuffer: Option<string>,
    inputBufferState: BufferState,
    focusTrap: bool)

  const InitialBuilderState := BuilderState(HList.Nil)

  /** Nothing active, pressed or focused, no buffer, flagged dirty, no trap. */
  const InitialWidgetState := WidgetState(None, None, None, None, Dirty, false)

  function PushId(seg: string, ctx: BuilderState): BuilderState
  {
    ctx.(currentId := HList.Cons(seg, ctx.currentId))
  }

  function PopId(ctx: BuilderState): BuilderState
  {
    ctx.(currentId := HList.Pop(ctx.currentId))
  }

  lemma PopAfterPush(seg: string, ctx: BuilderState)
    ensures PopId(PushId(seg, ctx)) == ctx
    ensures HList.Segments(PushId(seg, ctx).currentId) == HList.Segments(ctx.currentId) + [seg]
  {
  }

  /** `setActiveId`: only the active ID changes; the buffer is left alone. */
  function SetActiveId(activeId: Option<Id>, state: WidgetState): (r: WidgetState)
    ensures r.activeId == activeId && r.(activeId := state.activeId) == state
  {
    state.(activeId := activeId)
  }

  function SetFocusedId(focusedId: Option<Id>, state: WidgetState): (r: WidgetState)
    ensures r.focusedId == focusedId && r.(focusedId := state.focusedId) == state
  {
    state.(focusedId := focusedId)
  }

  /** `setInputBuffer`: any new buffer, even none, is flagged dirty until checked. */
  function SetInputBuffer(inputBuffer: Option<string>, state: WidgetState): (r: WidgetState)
    ensures r.inputBuffer == inputBuffer && r.inputBufferState == Dirty
    ensures r.(inputBuffer := state.inputBuffer, inputBufferState := state.inputBufferState) == state
  {
    state.(inputBuffer := inputBuffer, inputBufferState := Dirty)
  }

  function SetInputBufferState(inputBufferState: BufferState, state: WidgetState): (r: WidgetState)
    ensures r.inputBufferState == inputBufferState && r.(inputBufferState := state.inputBufferState) == state
  {
    state.(inputBufferState := inputBufferState)
  }

  predicate IsCurrentlyActive(ctx: BuilderState, state: WidgetState) { Some(ctx.currentId) == state.activeId }

  predicate IsCurrentlyPressed(ctx: BuilderState, state: WidgetState) { Some(ctx.currentId) == state.pressedId }

  predicate IsCurrentlyFocused(ctx: BuilderState, state: WidgetState) { Some(ctx.currentId) == state.focusedId }

  /** Without a trap, activation is possible exactly when nothing is active. */
  function CanActivate(ctx: BuilderState, state: WidgetState): (r: bool)
    ensures r <==> !state.focusTrap && state.activeId.None?
  {
    !state.focusTrap && state.activeId.None? && !IsCurrentlyActive(ctx, state)
  }

  /** Without a trap, only the active widget may deactivate. */
  function CanDeactivate(ctx: BuilderState, state: WidgetState): (r: bool)
    ensures r <==> !state.focusTrap && state.activeId == Some(ctx.currentId)
  {
    !state.focusTrap && IsCurrentlyActive(ctx, state)
  }

  /**
   * A trap freezes the active ID: no widget can activate or deactivate, and
   * the buffer setters cannot lift it.
   */
  lemma TrapFreezesActivation(ctx: BuilderState, state: WidgetState, buffer: Option<string>, flag: BufferState)
    requires state.focusTrap
    ensures !CanActivate(ctx, state) && !CanDeactivate(ctx, state)
    ensures SetInputBuffer(buffer, state).focusTrap && SetInputBufferState(flag, state).focusTrap
  {
  }
}
