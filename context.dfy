/**
 * The builder context threaded through a tree build and the interaction
 * state every transition rewrites (lib/core/context.ts). Every operation is
 * a pure function returning a fresh record.
 */
module Context {
  import opened Wrappers
  import HList
  import Dsl

  type Id = Dsl.Id

  /** `WidgetBuilderState`: the path being built, whether widgets are enabled, a pending label (`label`). */
  datatype BuilderState = BuilderState(currentId: Id, enabled: bool, pendingLabel: Option<Dsl.TranslatableString>)

  /** `inputBufferState`. */
  datatype BufferState = Valid | Invalid

  /** `WidgetState`: the interaction snapshot that lives across tree rebuilds. */
  datatype WidgetState = WidgetState(
    pressedId: Option<Id>,
    focusedId: Option<Id>,
    focusNextRequestedBy: Option<Id>,
    autoFocus: bool,
    activeId: Option<Id>,
    activeIdIsAlive: Option<Id>,
    activeIdWasPressedBefore: bool,
    inputBuffer: Option<string>,
    inputBufferState: BufferState)

  /** `initialWidgetBuilderState`: empty path, enabled, no label. */
  const InitialBuilderState := BuilderState(HList.Nil, true, None)

  /** `initialWidgetState`: nothing active, pressed or focused, empty valid buffer. */
  const InitialWidgetState := WidgetState(None, None, None, false, None, None, false, None, Valid)

  /** `pushId`: enters a scope named `seg`. */
  function PushId(seg: string, ctx: BuilderState): (r: BuilderState)
    ensures r.currentId == HList.Cons(seg, ctx.currentId)
    ensures r.(currentId := ctx.currentId) == ctx
  {
    ctx.(currentId := HList.Cons(seg, ctx.currentId))
  }

  /** `popId`: leaves the innermost scope. */
  function PopId(ctx: BuilderState): (r: BuilderState)
    ensures r.currentId == HList.Pop(ctx.currentId)
    ensures r.(currentId := ctx.currentId) == ctx
  {
    ctx.(currentId := HList.Pop(ctx.currentId))
  }

  function GetEnabled(ctx: BuilderState): bool { ctx.enabled }

  function SetEnabled(enabled: bool, ctx: BuilderState): BuilderState { ctx.(enabled := enabled) }

  function GetLabel(ctx: BuilderState): Option<Dsl.TranslatableString> { ctx.pendingLabel }

  function SetLabel(text: Dsl.TranslatableString, ctx: BuilderState): BuilderState { ctx.(pendingLabel := Some(text)) }

  /** Leaving a scope just entered gives back the context exactly as it was. */
  lemma PopAfterPush(seg: string, ctx: BuilderState)
    ensures PopId(PushId(seg, ctx)) == ctx
    ensures PushId(seg, ctx).enabled == ctx.enabled && PushId(seg, ctx).pendingLabel == ctx.pendingLabel
  {
  }

  /** `isActiveIdStale`: an active ID is set, an alive ID is set, and they are different paths. */
  predicate IsActiveIdStale(state: WidgetState)
  {
    state.activeId.Some? && state.activeIdIsAlive.Some? && state.activeId != state.activeIdIsAlive
  }

  /** `setActiveIdIsAlive`. */
  function SetActiveIdIsAlive(activeIdIsAlive: Option<Id>, state: WidgetState): WidgetState
  {
    state.(activeIdIsAlive := activeIdIsAlive)
  }

  /** `newFrame`: forgets which ID was kept alive, ready for the active widget to re-assert it. */
  function NewFrame(state: WidgetState): (r: WidgetState)
    ensures r.activeIdIsAlive == None
    ensures r.(activeIdIsAlive := state.activeIdIsAlive) == state
    ensures !IsActiveIdStale(r)
  {
    SetActiveIdIsAlive(None, state)
  }

  /** `hasRequestedFocusNext`: the widget being built is the one that asked to pass focus on. */
  function HasRequestedFocusNext(ctx: BuilderState, state: WidgetState): (r: bool)
    ensures r <==> state.focusNextRequestedBy == Some(ctx.currentId)
  {
    state.focusNextRequestedBy.Some? && Some(ctx.currentId) == state.focusNextRequestedBy
  }

  function SetRequestedFocusNext(focusNextRequestedBy: Option<Id>, state: WidgetState): WidgetState
  {
    state.(focusNextRequestedBy := focusNextRequestedBy)
  }

  /**
   * `setActiveId`: makes `activeId` the active ID and marks it alive. The
   * buffer survives only when the active ID does not change; the pressed-before
   * flag only when, in addition, some ID stays active.
   */
  function SetActiveId(activeId: Option<Id>, state: WidgetState): (r: WidgetState)
    ensures r.activeId == activeId && r.activeIdIsAlive == activeId
    ensures !IsActiveIdStale(r)
    ensures r.inputBuffer == if activeId == state.activeId then state.inputBuffer else None
    ensures r.activeIdWasPressedBefore <==>
            activeId.Some? && activeId == state.activeId && state.activeIdWasPressedBefore
    ensures r.(activeId := state.activeId, activeIdIsAlive := state.activeIdIsAlive,
               activeIdWasPressedBefore := state.activeIdWasPressedBefore,
               inputBuffer := state.inputBuffer) == state
  {
    state.(
      activeId := activeId,
      activeIdIsAlive := activeId,
      activeIdWasPressedBefore :=
        if activeId.None? then false
        else if activeId == state.activeId then state.activeIdWasPressedBefore
        else false,
      inputBuffer := if activeId == state.activeId then state.inputBuffer else None)
  }

  /** Setting the same active ID twice is the same as setting it once. */
  lemma SetActiveIdIdempotent(activeId: Option<Id>, state: WidgetState)
    ensures SetActiveId(activeId, SetActiveId(activeId, state)) == SetActiveId(activeId, state)
  {
  }

  function SetActiveIdWasPressedBefore(activeIdWasPressedBefore: bool, state: WidgetState): WidgetState
  {
    state.(activeIdWasPressedBefore := activeIdWasPressedBefore)
  }

  function SetPressedId(pressedId: Option<Id>, state: WidgetState): WidgetState
  {
    state.(pressedId := pressedId)
  }

  function SetFocusedId(focusedId: Option<Id>, state: WidgetState): WidgetState
  {
    state.(focusedId := focusedId)
  }

  function SetAutoFocus(autoFocus: bool, state: WidgetState): WidgetState
  {
    state.(autoFocus := autoFocus)
  }

  /** `setInputBuffer`: a new buffer is always flagged valid until checked again. */
  function SetInputBuffer(inputBuffer: Option<string>, state: WidgetState): WidgetState
  {
    state.(inputBuffer := inputBuffer, inputBufferState := Valid)
  }

  /**
   * Each simple setter changes its own field and nothing else (restoring that
   * field gives back the original state); `setInputBuffer` also resets the
   * validity flag. None of them can make the state stale unless it already was.
   */
  lemma SettersChangeOnlyTheirField(state: WidgetState, id: Option<Id>, b: bool, buffer: Option<string>)
    ensures SetActiveIdIsAlive(id, state).activeIdIsAlive == id
    ensures SetActiveIdIsAlive(id, state).(activeIdIsAlive := state.activeIdIsAlive) == state
    ensures SetActiveIdWasPressedBefore(b, state).activeIdWasPressedBefore == b
    ensures SetActiveIdWasPressedBefore(b, state).(activeIdWasPressedBefore := state.activeIdWasPressedBefore) == state
    ensures SetPressedId(id, state).pressedId == id
    ensures SetPressedId(id, state).(pressedId := state.pressedId) == state
    ensures SetFocusedId(id, state).focusedId == id
    ensures SetFocusedId(id, state).(focusedId := state.focusedId) == state
    ensures SetAutoFocus(b, state).autoFocus == b
    ensures SetAutoFocus(b, state).(autoFocus := state.autoFocus) == state
    ensures SetRequestedFocusNext(id, state).focusNextRequestedBy == id
    ensures SetRequestedFocusNext(id, state).(focusNextRequestedBy := state.focusNextRequestedBy) == state
    ensures SetInputBuffer(buffer, state).inputBuffer == buffer
    ensures SetInputBuffer(buffer, state).inputBufferState == Valid
    ensures SetInputBuffer(buffer, state).(inputBuffer := state.inputBuffer,
                                           inputBufferState := state.inputBufferState) == state
    ensures !IsActiveIdStale(state) ==>
              !IsActiveIdStale(SetPressedId(id, state)) && !IsActiveIdStale(SetFocusedId(id, state)) &&
              !IsActiveIdStale(SetAutoFocus(b, state)) && !IsActiveIdStale(SetRequestedFocusNext(id, state)) &&
              !IsActiveIdStale(SetInputBuffer(buffer, state)) &&
              !IsActiveIdStale(SetActiveIdWasPressedBefore(b, state))
  {
  }

  /** `isActive`. */
  predicate IsActive(id: Id, state: WidgetState) { Some(id) == state.activeId }

  /** `isFocused`. */
  predicate IsFocused(id: Id, state: WidgetState) { Some(id) == state.focusedId }

  predicate IsCurrentlyActive(ctx: BuilderState, state: WidgetState) { IsActive(ctx.currentId, state) }

  predicate IsCurrentlyPressed(ctx: BuilderState, state: WidgetState) { Some(ctx.currentId) == state.pressedId }

  predicate IsCurrentlyFocused(ctx: BuilderState, state: WidgetState) { Some(ctx.currentId) == state.focusedId }

  /** `canActivate`: the second test of the source is implied by the first, so it holds iff nothing is active. */
  function CanActivate(ctx: BuilderState, state: WidgetState): (r: bool)
    ensures r <==> state.activeId.None?
  {
    state.activeId.None? && !IsCurrentlyActive(ctx, state)
  }

  /** `canDeactivate`: only the active widget may release itself. */
  function CanDeactivate(ctx: BuilderState, state: WidgetState): (r: bool)
    ensures r <==> state.activeId == Some(ctx.currentId)
  {
    IsCurrentlyActive(ctx, state)
  }

  /** `doBlur`: takes focus away from `id` if, and only if, `id` has it. */
  function DoBlur(id: Id, state: WidgetState): (r: WidgetState)
    ensures !IsFocused(id, r)
    ensures r != state ==> IsFocused(id, state) && r.focusedId == None
    ensures IsFocused(id, state) ==> r.focusedId == None
    ensures r.(focusedId := state.focusedId) == state
  {
    if IsFocused(id, state) then SetFocusedId(None, state) else state
  }

  /** `doFocus`: gives focus to `id`. */
  function DoFocus(id: Id, state: WidgetState): (r: WidgetState)
    ensures IsFocused(id, r)
    ensures r.(focusedId := state.focusedId) == state
  {
    SetFocusedId(Some(id), state)
  }

  /** `doUpdateInputBuffer`: only the widget that is both active and focused may edit the buffer. */
  function DoUpdateInputBuffer(id: Id, buffer: Option<string>, state: WidgetState): (r: WidgetState)
    ensures r != state ==> IsActive(id, state) && IsFocused(id, state)
    ensures IsActive(id, state) && IsFocused(id, state) ==>
              r.inputBuffer == buffer && r.inputBufferState == Valid &&
              r.(inputBuffer := state.inputBuffer, inputBufferState := state.inputBufferState) == state
  {
    if IsActive(id, state) && IsFocused(id, state) then SetInputBuffer(buffer, state) else state
  }
}
