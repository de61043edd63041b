/**
 * The earlier interaction state (src/lib/core/context.ts): no aliveness,
 * autofocus or focus hand-over, and a `setActiveId` that keeps the buffer
 * and the pressed-before flag whenever the active ID is unchanged, even
 * when it stays None. Paths are compared structurally, as `==` on `HList`
 * does (see `HList.Equals`).
 */
module DraftContext {
  import opened Wrappers
  import HList

  type Id = HList.HList<string>

  datatype BuilderState = BuilderState(currentId: Id)

  datatype WidgetState = WidgetState(
    pressedId: Option<Id>,
    focusedId: Option<Id>,
    activeId: Option<Id>,
    activeIdWasPressedBefore: bool,
    inputBuffer: Option<string>)

  const InitialBuilderState := BuilderState(HList.Nil)

  const InitialWidgetState := WidgetState(None, None, None, false, None)

  function PushId(seg: string, ctx: BuilderState): (r: BuilderState)
    ensures HList.Segments(r.currentId) == HList.Segments(ctx.currentId) + [seg]
  {
    ctx.(currentId := HList.Cons(seg, ctx.currentId))
  }

  function PopId(ctx: BuilderState): (r: BuilderState)
    ensures ctx.currentId.Cons? ==> HList.Segments(r.currentId) == HList.Segments(ctx.currentId)[..HList.Length(ctx.currentId) - 1]
    ensures ctx.currentId.Nil? ==> r == ctx
  {
    ctx.(currentId := HList.Pop(ctx.currentId))
  }

  /** Leaving a scope just entered restores the path. */
  lemma PopAfterPush(seg: string, ctx: BuilderState)
    ensures PopId(PushId(seg, ctx)) == ctx
  {
  }

  /**
   * `setActiveId`: the buffer and the pressed-before flag survive exactly
   * when the active ID does not change, and are cleared otherwise.
   */
  function SetActiveId(activeId: Option<Id>, state: WidgetState): (r: WidgetState)
    ensures r.activeId == activeId
    ensures activeId == state.activeId ==> r == state
    ensures activeId != state.activeId ==> r.inputBuffer.None? && !r.activeIdWasPressedBefore
    ensures r.(activeId := state.activeId, inputBuffer := state.inputBuffer,
               activeIdWasPressedBefore := state.activeIdWasPressedBefore) == state
  {
    state.(
      activeId := activeId,
      inputBuffer := if activeId == state.activeId then state.inputBuffer else None,
      activeIdWasPressedBefore := if activeId == state.activeId then state.activeIdWasPressedBefore else false)
  }

  function SetActiveIdWasPressedBefore(activeIdWasPressedBefore: bool, state: WidgetState): WidgetState
  {
    state.(activeIdWasPressedBefore := activeIdWasPressedBefore)
  }

  function SetPressedId(pressedId: Option<Id>, state: WidgetState): WidgetState
  {
    state.(pressedId := pressedId)
  }

  function SetFocusedId(focusedId: Option<Id>, state: WidgetState): WidgetState
  {
    state.(focusedId := focusedId)
  }

  function SetInputBuffer(inputBuffer: Option<string>, state: WidgetState): WidgetState
  {
    state.(inputBuffer := inputBuffer)
  }

  /** Each of the other setters changes its own field and nothing else. */
  lemma SettersChangeOnlyTheirField(state: WidgetState, id: Option<Id>, b: bool, buffer: Option<string>)
    ensures SetActiveIdWasPressedBefore(b, state) == state.(activeIdWasPressedBefore := b)
    ensures SetPressedId(id, state).pressedId == id
    ensures SetPressedId(id, state).(pressedId := state.pressedId) == state
    ensures SetFocusedId(id, state).focusedId == id
    ensures SetFocusedId(id, state).(focusedId := state.focusedId) == state
    ensures SetInputBuffer(buffer, state).inputBuffer == buffer
    ensures SetInputBuffer(buffer, state).(inputBuffer := state.inputBuffer) == state
  {
  }

  predicate IsActive(id: Id, state: WidgetState) { Some(id) == state.activeId }

  predicate IsCurrentlyActive(ctx: BuilderState, state: WidgetState) { IsActive(ctx.currentId, state) }

  predicate IsCurrentlyPressed(ctx: BuilderState, state: WidgetState) { Some(ctx.currentId) == state.pressedId }

  predicate IsCurrentlyFocused(ctx: BuilderState, state: WidgetState) { Some(ctx.currentId) == state.focusedId }

  function CanActivate(ctx: BuilderState, state: WidgetState): (r: bool)
    ensures r <==> state.activeId.None?
  {
    state.activeId.None? && !IsCurrentlyActive(ctx, state)
  }

  function CanDeactivate(ctx: BuilderState, state: WidgetState): (r: bool)
    ensures r <==> state.activeId == Some(ctx.currentId)
  {
    IsCurrentlyActive(ctx, state)
  }

  /** Two widgets with paths of the same segments are the same widget for every predicate. */
  lemma PredicatesCompareSegments(a: BuilderState, b: BuilderState, state: WidgetState)
    requires HList.Segments(a.currentId) == HList.Segments(b.currentId)
    ensures IsCurrentlyActive(a, state) == IsCurrentlyActive(b, state)
    ensures IsCurrentlyPressed(a, state) == IsCurrentlyPressed(b, state)
    ensures IsCurrentlyFocused(a, state) == IsCurrentlyFocused(b, state)
  {
    HList.SegmentsInjective(a.currentId, b.currentId);
  }
}
