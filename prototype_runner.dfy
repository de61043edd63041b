/**
 * The first host's event loop (src/lib/react.tsx): no new-frame step, no
 * stale-active recovery, and after ten non-halting ticks it stops and
 * returns the last state instead of throwing. It never looks inside the
 * state, so the state type is a parameter.
 */
module PrototypeRunner {
  import N = Next

  /** Ticks run before the loop gives up. */
  const MaxLoops: nat := 10

  /**
   * A loop's result: the state returned, the model left behind, the final
   * value of the `numLoops` counter (the ticks that did not halt) and whether
   * the loop ended on a halting tick rather than at the cap.
   */
  datatype Run<S, M> = Run(state: S, model: M, numLoops: nat, halted: bool)

  /** The loop from iteration `numLoops` on, with the application built from `m`. */
  function LoopFrom<S, M, E>(getApp: M -> (S -> N.Next<S, E>), runEffect: (E, M) -> (S, M),
                             m: M, lastState: S, numLoops: nat): (r: Run<S, M>)
    requires numLoops <= MaxLoops
    ensures numLoops <= r.numLoops <= MaxLoops
    decreases MaxLoops - numLoops
  {
    if numLoops >= MaxLoops then Run(lastState, m, numLoops, false)
    else
      match getApp(m)(lastState)
      case Halt => Run(lastState, m, numLoops, true)
      case Continue(t) => LoopFrom(getApp, runEffect, m, t, numLoops + 1)
      case SuspendAndResume(e) =>
        var (t, m') := runEffect(e, m);
        LoopFrom(getApp, runEffect, m', t, numLoops + 1)
  }

  /** `eventLoop` on `initialState`: the first tick sees it unchanged. */
  function Loop<S, M, E>(getApp: M -> (S -> N.Next<S, E>), runEffect: (E, M) -> (S, M),
                         m: M, initialState: S): Run<S, M>
  {
    LoopFrom(getApp, runEffect, m, initialState, 0)
  }

  /**
   * The loop ends on a halting tick exactly when the counter stays below the
   * cap, and then the returned state is one the final application halts on;
   * otherwise ten ticks ran and none of them halted.
   */
  lemma {:induction false} HaltedOrExhausted<S, M, E>(getApp: M -> (S -> N.Next<S, E>), runEffect: (E, M) -> (S, M),
                                                      m: M, s: S, numLoops: nat)
    requires numLoops <= MaxLoops
    ensures var r := LoopFrom(getApp, runEffect, m, s, numLoops);
            (r.halted <==> r.numLoops < MaxLoops) &&
            (r.halted ==> getApp(r.model)(r.state).Halt?) &&
            (!r.halted ==> r.numLoops == MaxLoops)
    decreases MaxLoops - numLoops
  {
    if numLoops < MaxLoops {
      match getApp(m)(s)
      case Halt =>
      case Continue(t) => HaltedOrExhausted(getApp, runEffect, m, t, numLoops + 1);
      case SuspendAndResume(e) =>
        var (t, m') := runEffect(e, m);
        HaltedOrExhausted(getApp, runEffect, m', t, numLoops + 1);
    }
  }

  /** An application halting on the input returns the input itself at once: no frame reset happens. */
  lemma HaltingAppReturnsInput<S, M, E>(getApp: M -> (S -> N.Next<S, E>), runEffect: (E, M) -> (S, M),
                                        m: M, initialState: S)
    requires getApp(m)(initialState).Halt?
    ensures Loop(getApp, runEffect, m, initialState) == Run(initialState, m, 0, true)
  {
  }

  /** The `k`-fold application of a step that always continues. */
  function Iterate<S>(step: S -> S, s: S, k: nat): S
  {
    if k == 0 then s else Iterate(step, step(s), k - 1)
  }

  /** The state a tick continues with, or the state itself when it does not continue. */
  function ContinuedState<S, E>(tick: S -> N.Next<S, E>): S -> S
  {
    (t: S) => if tick(t).Continue? then tick(t).state else t
  }

  /**
   * An application that always continues, with no effects: the loop returns,
   * without throwing, the state reached after exactly ten ticks.
   */
  lemma {:induction false} AlwaysContinuingStopsAtCap<S, M, E>(getApp: M -> (S -> N.Next<S, E>), runEffect: (E, M) -> (S, M),
                                                               m: M, s: S, numLoops: nat)
    requires numLoops <= MaxLoops
    requires forall t :: getApp(m)(t).Continue?
    ensures LoopFrom(getApp, runEffect, m, s, numLoops) ==
            Run(Iterate(ContinuedState(getApp(m)), s, MaxLoops - numLoops), m, MaxLoops, false)
    decreases MaxLoops - numLoops
  {
    if numLoops < MaxLoops {
      AlwaysContinuingStopsAtCap(getApp, runEffect, m, getApp(m)(s).state, numLoops + 1);
    }
  }

  /** `AppRunner` of the first host. */
  class AppRunner<S, M, E> {
    const getApp: M -> (S -> N.Next<S, E>)
    const runEffect: (E, M) -> (S, M)
    var model: M
    var app: S -> N.Next<S, E>
    /** The React component state. */
    var state: S

    ghost predicate Valid()
      reads this
    {
      app == getApp(model)
    }

    constructor(getApp: M -> (S -> N.Next<S, E>), runEffect: (E, M) -> (S, M), model: M, initialState: S)
      ensures Valid() && this.getApp == getApp && this.runEffect == runEffect
      ensures this.model == model && state == initialState
    {
      this.getApp := getApp;
      this.runEffect := runEffect;
      this.model := model;
      this.app := getApp(model);
      this.state := initialState;
    }

    /** `eventLoop`: at most ten ticks; a Halt returns the state held before it. */
    method EventLoop(initialState: S) returns (lastState: S)
      requires Valid()
      modifies this
      ensures Valid() && state == old(state)
      ensures var run := Loop(getApp, runEffect, old(model), initialState);
              lastState == run.state && model == run.model
    {
      ghost var run := Loop(getApp, runEffect, model, initialState);
      lastState := initialState;
      var numLoops := 0;
      while numLoops < MaxLoops
        invariant Valid() && state == old(state)
        invariant numLoops <= MaxLoops
        invariant run == LoopFrom(getApp, runEffect, model, lastState, numLoops)
      {
        var nextState := app(lastState);
        match nextState {
          case Halt =>
            return;
          case Continue(t) =>
            lastState := t;
          case SuspendAndResume(e) =>
            var (resumed, newModel) := runEffect(e, model);
            model := newModel;
            app := getApp(model);
            lastState := resumed;
        }
        numLoops := numLoops + 1;
      }
    }

    /** `componentWillMount`: the component state becomes the loop's result on it. */
    method ComponentWillMount()
      requires Valid()
      modifies this
      ensures Valid()
      ensures var run := Loop(getApp, runEffect, old(model), old(state));
              state == run.state && model == run.model
    {
      var s := EventLoop(state);
      state := s;
    }

    /** `dispatch`: the component state becomes the loop's result on `f` of it. */
    method Dispatch(f: S -> S)
      requires Valid()
      modifies this
      ensures Valid()
      ensures var run := Loop(getApp, runEffect, old(model), f(old(state)));
              state == run.state && model == run.model
    {
      var s := EventLoop(f(state));
      state := s;
    }
  }
}
