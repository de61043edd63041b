/**
 * The convergence loop of the React host (`AppRunner` in
 * lib/react/renderer.tsx): run the root tick until it halts, performing
 * effects and rebuilding the app after each, clearing a stale active ID, and
 * giving up once the frame cap is passed.
 *
 * The application is read off an external model `M`: `getApp(m)` is the
 * widget tree built from it, and `runEffect(e, m)` performs a suspended
 * effect, giving the state to resume with and the model it leaves behind.
 */
module Renderer {
  import opened Wrappers
  import N = Next
  import C = Context
  import D = Dsl

  /** The built application: the tree drawn and the root tick. */
  datatype App<E> = App(ui: D.Dsl, tick: C.WidgetState -> N.Next<C.WidgetState, E>)

  /** How an event loop ends: it returns a state, or it throws after too many frames. */
  datatype Outcome = Converged(state: C.WidgetState) | DidNotConverge

  /** An event loop's outcome, the model it leaves and how many times it ran the root tick. */
  datatype Run<M> = Run(outcome: Outcome, model: M, evaluations: nat)

  /** Frames counted before a non-halting result throws. */
  const FrameCap: nat := 20

  /**
   * The loop from frame `frames` on, in state `s` with model `m`. Frame 21 is
   * only reached right after a stale active ID was cleared.
   */
  function ConvergeFrom<M, E>(getApp: M -> App<E>, runEffect: (E, M) -> (C.WidgetState, M),
                              m: M, s: C.WidgetState, frames: nat): (r: Run<M>)
    requires frames <= FrameCap + 1 && (frames == FrameCap + 1 ==> !C.IsActiveIdStale(s))
    ensures frames < r.evaluations <= FrameCap + 2
    decreases FrameCap + 1 - frames
  {
    match getApp(m).tick(s)
    case Continue(t) =>
      if frames >= FrameCap then Run(DidNotConverge, m, frames + 1)
      else ConvergeFrom(getApp, runEffect, m, t, frames + 1)
    case SuspendAndResume(e) =>
      var (t, m') := runEffect(e, m);
      if frames >= FrameCap then Run(DidNotConverge, m', frames + 1)
      else ConvergeFrom(getApp, runEffect, m', t, frames + 1)
    case Halt =>
      if C.IsActiveIdStale(s) then ConvergeFrom(getApp, runEffect, m, C.SetActiveId(None, s), frames + 1)
      else Run(Converged(s), m, frames + 1)
  }

  /** `eventLoop` on `initialState`: the first tick sees it with aliveness forgotten. */
  function Converge<M, E>(getApp: M -> App<E>, runEffect: (E, M) -> (C.WidgetState, M),
                          m: M, initialState: C.WidgetState): Run<M>
  {
    ConvergeFrom(getApp, runEffect, m, C.NewFrame(initialState), 0)
  }

  /**
   * A state the loop returns is one the final application halts on and has
   * no stale active ID.
   */
  lemma {:induction false} ConvergedIsFixpoint<M, E>(getApp: M -> App<E>, runEffect: (E, M) -> (C.WidgetState, M),
                                                     m: M, s: C.WidgetState, frames: nat)
    requires frames <= FrameCap + 1 && (frames == FrameCap + 1 ==> !C.IsActiveIdStale(s))
    ensures var r := ConvergeFrom(getApp, runEffect, m, s, frames);
            r.outcome.Converged? ==>
              !C.IsActiveIdStale(r.outcome.state) && getApp(r.model).tick(r.outcome.state).Halt?
    decreases FrameCap + 1 - frames
  {
    match getApp(m).tick(s)
    case Continue(t) =>
      if frames < FrameCap { ConvergedIsFixpoint(getApp, runEffect, m, t, frames + 1); }
    case SuspendAndResume(e) =>
      var (t, m') := runEffect(e, m);
      if frames < FrameCap { ConvergedIsFixpoint(getApp, runEffect, m', t, frames + 1); }
    case Halt =>
      if C.IsActiveIdStale(s) { ConvergedIsFixpoint(getApp, runEffect, m, C.SetActiveId(None, s), frames + 1); }
  }

  /** An application that halts on the first frame gives back the input with aliveness forgotten, after one tick. */
  lemma HaltingAppReturnsNewFrame<M, E>(getApp: M -> App<E>, runEffect: (E, M) -> (C.WidgetState, M),
                                        m: M, initialState: C.WidgetState)
    requires getApp(m).tick(C.NewFrame(initialState)).Halt?
    ensures Converge(getApp, runEffect, m, initialState) == Run(Converged(C.NewFrame(initialState)), m, 1)
  {
  }

  /**
   * A set of states the application keeps continuing inside, with no effect
   * to rebuild it: once entered, the loop throws at the frame cap, having run
   * the tick 21 times and left the model as it was.
   */
  lemma {:induction false} TrappedDiverges<M, E>(getApp: M -> App<E>, runEffect: (E, M) -> (C.WidgetState, M),
                                                 m: M, trap: C.WidgetState -> bool, s: C.WidgetState, frames: nat)
    requires frames <= FrameCap
    requires forall t :: trap(t) ==> getApp(m).tick(t).Continue? && trap(getApp(m).tick(t).state)
    requires trap(s)
    ensures ConvergeFrom(getApp, runEffect, m, s, frames) == Run(DidNotConverge, m, FrameCap + 1)
    decreases FrameCap - frames
  {
    if frames < FrameCap {
      TrappedDiverges(getApp, runEffect, m, trap, getApp(m).tick(s).state, frames + 1);
    }
  }

  /** Applications whose ticks and effects never leave an active ID stale. */
  ghost predicate KeepsFresh<M(!new), E>(getApp: M -> App<E>, runEffect: (E, M) -> (C.WidgetState, M))
  {
    forall m, t :: !C.IsActiveIdStale(t) ==>
      (getApp(m).tick(t).Continue? ==> !C.IsActiveIdStale(getApp(m).tick(t).state)) &&
      (getApp(m).tick(t).SuspendAndResume? ==> !C.IsActiveIdStale(runEffect(getApp(m).tick(t).effect, m).0))
  }

  /** The loop without the stale-active recovery: a Halt always returns. */
  function PlainConvergeFrom<M, E>(getApp: M -> App<E>, runEffect: (E, M) -> (C.WidgetState, M),
                                   m: M, s: C.WidgetState, frames: nat): Run<M>
    requires frames <= FrameCap
    decreases FrameCap - frames
  {
    match getApp(m).tick(s)
    case Continue(t) =>
      if frames >= FrameCap then Run(DidNotConverge, m, frames + 1)
      else PlainConvergeFrom(getApp, runEffect, m, t, frames + 1)
    case SuspendAndResume(e) =>
      var (t, m') := runEffect(e, m);
      if frames >= FrameCap then Run(DidNotConverge, m', frames + 1)
      else PlainConvergeFrom(getApp, runEffect, m', t, frames + 1)
    case Halt => Run(Converged(s), m, frames + 1)
  }

  /**
   * For applications that never make the active ID stale, the recovery
   * never fires: the loop is the plain one, and at most 21 ticks run.
   */
  lemma {:induction false} FreshAppsNeverRecover<M(!new), E>(getApp: M -> App<E>, runEffect: (E, M) -> (C.WidgetState, M),
                                                       m: M, s: C.WidgetState, frames: nat)
    requires KeepsFresh(getApp, runEffect)
    requires frames <= FrameCap && !C.IsActiveIdStale(s)
    ensures ConvergeFrom(getApp, runEffect, m, s, frames) == PlainConvergeFrom(getApp, runEffect, m, s, frames)
    ensures ConvergeFrom(getApp, runEffect, m, s, frames).evaluations <= FrameCap + 1
    decreases FrameCap - frames
  {
    match getApp(m).tick(s)
    case Continue(t) =>
      if frames < FrameCap { FreshAppsNeverRecover(getApp, runEffect, m, t, frames + 1); }
    case SuspendAndResume(e) =>
      var (t, m') := runEffect(e, m);
      if frames < FrameCap { FreshAppsNeverRecover(getApp, runEffect, m', t, frames + 1); }
    case Halt =>
  }

  /** `AppRunner`: the host component holding the application and the published state. */
  class AppRunner<M, E> {
    const getApp: M -> App<E>
    const runEffect: (E, M) -> (C.WidgetState, M)
    /** The external model the application is built from. */
    var model: M
    /** `this.app`. */
    var app: App<E>
    /** The interaction state last published (`state$`). */
    var state: C.WidgetState
    /** The tree last handed to React for drawing. */
    var dsl: D.Dsl

    ghost predicate Valid()
      reads this
    {
      app == getApp(model)
    }

    /**
     * Builds the application and publishes the result of a first event loop
     * on the initial state. A loop that does not converge leaves the initial
     * state published.
     */
    constructor(getApp: M -> App<E>, runEffect: (E, M) -> (C.WidgetState, M), model: M)
      ensures Valid()
      ensures this.getApp == getApp && this.runEffect == runEffect
      ensures var run := Converge(getApp, runEffect, model, C.InitialWidgetState);
              this.model == run.model &&
              state == (if run.outcome.Converged? then run.outcome.state else C.InitialWidgetState) &&
              dsl == app.ui
    {
      this.getApp := getApp;
      this.runEffect := runEffect;
      this.model := model;
      this.app := getApp(model);
      this.state := C.InitialWidgetState;
      this.dsl := getApp(model).ui;
      new;
      var outcome, _ := EventLoop(state);
      if outcome.Converged? {
        state := outcome.state;
      }
      dsl := app.ui;
    }

    /**
     * `eventLoop`: ticks the application until it halts on a state without a
     * stale active ID, or throws once more than `FrameCap` frames were needed.
     */
    method EventLoop(initialState: C.WidgetState) returns (outcome: Outcome, frameProcessed: nat)
      requires Valid()
      modifies this
      ensures Valid() && state == old(state) && dsl == old(dsl)
      ensures var run := Converge(getApp, runEffect, old(model), initialState);
              outcome == run.outcome && model == run.model && frameProcessed == run.evaluations
      ensures frameProcessed <= FrameCap + 2
    {
      ghost var run := Converge(getApp, runEffect, model, initialState);
      var currentState := C.NewFrame(initialState);
      var keepAlive := true;
      frameProcessed := 0;
      while keepAlive
        invariant Valid() && state == old(state) && dsl == old(dsl)
        invariant frameProcessed <= FrameCap + 2
        invariant keepAlive ==> frameProcessed <= FrameCap + 1
        invariant keepAlive && frameProcessed == FrameCap + 1 ==> !C.IsActiveIdStale(currentState)
        invariant keepAlive ==> run == ConvergeFrom(getApp, runEffect, model, currentState, frameProcessed)
        invariant !keepAlive ==> run == Run(Converged(currentState), model, frameProcessed)
        decreases FrameCap + 2 - frameProcessed
      {
        ghost var before, frame, modelBefore := currentState, frameProcessed, model;
        var requestedState := app.tick(currentState);
        match requestedState {
          case Continue(newState) =>
            currentState := newState;
          case SuspendAndResume(effect) =>
            var (resumed, newModel) := runEffect(effect, model);
            model := newModel;
            app := getApp(model);
            currentState := resumed;
          case Halt =>
            keepAlive := false;
        }
        if keepAlive && frameProcessed >= FrameCap {
          outcome := DidNotConverge;
          frameProcessed := frameProcessed + 1;
          return;
        }
        frameProcessed := frameProcessed + 1;
        if !keepAlive {
          if C.IsActiveIdStale(currentState) {
            currentState := C.SetActiveId(None, currentState);
            keepAlive := true;
          }
        }
      }
      outcome := Converged(currentState);
    }

    /** `dispatch`: runs the loop on `f` of the published state and publishes what it returns. */
    method Dispatch(f: C.WidgetState -> C.WidgetState) returns (outcome: Outcome)
      requires Valid()
      modifies this
      ensures Valid()
      ensures var run := Converge(getApp, runEffect, old(model), f(old(state)));
              outcome == run.outcome && model == run.model
      ensures state == if outcome.Converged? then outcome.state else old(state)
      ensures dsl == if outcome.Converged? then app.ui else old(dsl)
    {
      var frames;
      outcome, frames := EventLoop(f(state));
      if outcome.Converged? {
        state := outcome.state;
        dsl := app.ui;
      }
    }

    /** `update`: publishes `f` of the published state, with no event loop. */
    method Update(f: C.WidgetState -> C.WidgetState)
      requires Valid()
      modifies this
      ensures Valid() && model == old(model) && app == old(app)
      ensures state == f(old(state)) && dsl == app.ui
    {
      state := f(state);
      dsl := app.ui;
    }

    /**
     * `componentWillMount`: it builds the IO of a dispatch of the identity
     * but never runs it, so no loop runs and nothing is published; the first
     * loop is the constructor's.
     */
    method ComponentWillMount()
      requires Valid()
      ensures Valid()
      ensures model == old(model) && app == old(app) && state == old(state) && dsl == old(dsl)
    {
    }
  }
}
