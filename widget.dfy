/**
 * The interactive-widget state machine (lib/core/widget.ts): a
 * priority-ordered rule chain every interactive widget runs once per pass.
 */
module Widget {
  import opened Wrappers
  import N = Next
  import C = Context

  /** The handler of a widget with no interaction: `noEventHandler`. */
  function NoEventHandler<E>(state: C.WidgetState): (r: N.Next<C.WidgetState, E>)
    ensures r.Halt?
  {
    N.Halt
  }

  /**
   * `makeInteractive`: the six behaviour hooks of a widget, tried in order
   * (focus-next claim, disabled, autofocus, active, inactive).
   */
  function MakeInteractive<E>(
    id: C.Id,
    wantsActivate: C.WidgetState -> bool,
    wantsDeactivate: C.WidgetState -> bool,
    onActivation: C.WidgetState -> N.Next<C.WidgetState, E>,
    whenActive: C.WidgetState -> N.Next<C.WidgetState, E>,
    onDeactivation: C.WidgetState -> N.Next<C.WidgetState, E>,
    whenNotActive: C.WidgetState -> N.Next<C.WidgetState, E>,
    ctx: C.BuilderState,
    state: C.WidgetState): (r: N.Next<C.WidgetState, E>)
    // the widget that asked to pass focus on always hands it over, enabled or not
    ensures C.HasRequestedFocusNext(ctx, state) ==>
              r == N.Continue(state.(focusNextRequestedBy := None, autoFocus := true))
    // a disabled widget only ever runs its inactive behaviour
    ensures !C.HasRequestedFocusNext(ctx, state) && !ctx.enabled ==> r == whenNotActive(state)
    // autofocus is claimed by the first enabled widget, before any activation logic
    ensures !C.HasRequestedFocusNext(ctx, state) && ctx.enabled && state.autoFocus ==>
              r == N.Continue(state.(focusedId := Some(ctx.currentId), autoFocus := false))
    ensures !C.HasRequestedFocusNext(ctx, state) && ctx.enabled && !state.autoFocus &&
            C.IsCurrentlyActive(ctx, state) ==>
              r == if wantsDeactivate(state) then onDeactivation(state)
                   else if state.activeIdIsAlive.None? then N.Continue(state.(activeIdIsAlive := Some(id)))
                   else whenActive(state)
    ensures !C.HasRequestedFocusNext(ctx, state) && ctx.enabled && !state.autoFocus &&
            !C.IsCurrentlyActive(ctx, state) ==>
              r == if state.activeId.None? && wantsActivate(state) then onActivation(state)
                   else whenNotActive(state)
  {
    var isCurrentlyActive := C.IsCurrentlyActive(ctx, state);
    var canActivate := C.CanActivate(ctx, state);
    var canDeactivate := C.CanDeactivate(ctx, state);
    var isEnabled := C.GetEnabled(ctx);
    if C.HasRequestedFocusNext(ctx, state) then
      N.Continue(C.SetAutoFocus(true, C.SetRequestedFocusNext(None, state)))
    else if isEnabled then
      if state.autoFocus then
        N.Continue(C.SetAutoFocus(false, C.SetFocusedId(Some(ctx.currentId), state)))
      else if isCurrentlyActive then
        if canDeactivate && wantsDeactivate(state) then onDeactivation(state)
        else if state.activeIdIsAlive.None? && C.GetEnabled(ctx) then
          N.Continue(C.SetActiveIdIsAlive(Some(id), state))
        else whenActive(state)
      else if canActivate && wantsActivate(state) then onActivation(state)
      else whenNotActive(state)
    else whenNotActive(state)
  }
}
