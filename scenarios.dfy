/**
 * Whole-loop consequences: widget trees run by the event loop. A tree
 * becomes an application by evaluating its root tick, and running a
 * widget's effect performs its callback on the external model and resumes
 * with the state the widget prepared.
 */
module Scenarios {
  import opened Wrappers
  import N = Next
  import C = Context
  import D = Dsl
  import WS = Widgets
  import DW = DraftWidgets
  import A = Attributes
  import R = Renderer

  /** The application built from a widget tree read off the model. */
  function TreeApp<H, M>(build: M -> WS.Widget<H>): M -> R.App<WS.Effect<H>>
  {
    (m: M) => R.App(build(m).ui, (s: C.WidgetState) => WS.Eval(build(m).tick, s))
  }

  /** Running a widget effect: perform the callback on the model, resume with the prepared state. */
  function ResumeEffect<H, M>(perform: (WS.Call<H>, M) -> M): (WS.Effect<H>, M) -> (C.WidgetState, M)
  {
    (e: WS.Effect<H>, m: M) => (e.resume, perform(e.call, m))
  }

  /** Every application made of widget trees keeps the active ID fresh, whatever the callbacks do. */
  lemma TreeAppsKeepFresh<H, M(!new)>(build: M -> WS.Widget<H>, perform: (WS.Call<H>, M) -> M)
    ensures R.KeepsFresh(TreeApp(build), ResumeEffect(perform))
  {
    forall m, t | !C.IsActiveIdStale(t)
      ensures (TreeApp(build)(m).tick(t).Continue? ==> !C.IsActiveIdStale(TreeApp(build)(m).tick(t).state)) &&
              (TreeApp(build)(m).tick(t).SuspendAndResume? ==>
                 !C.IsActiveIdStale(ResumeEffect(perform)(TreeApp(build)(m).tick(t).effect, m).0))
    {
      WS.TickKeepsFresh(build(m).tick, t);
    }
  }

  /**
   * For widget trees, whether their buttons run as written or corrected, the
   * stale-active recovery of the event loop never fires: it behaves as the
   * loop without it and runs at most 21 ticks.
   */
  lemma TreeAppsNeverRecover<H, M(!new)>(build: M -> WS.Widget<H>, perform: (WS.Call<H>, M) -> M,
                                         m: M, initialState: C.WidgetState)
    ensures R.Converge(TreeApp(build), ResumeEffect(perform), m, initialState) ==
            R.PlainConvergeFrom(TreeApp(build), ResumeEffect(perform), m, C.NewFrame(initialState), 0)
    ensures R.Converge(TreeApp(build), ResumeEffect(perform), m, initialState).evaluations <= R.FrameCap + 1
  {
    TreeAppsKeepFresh(build, perform);
    R.FreshAppsNeverRecover(TreeApp(build), ResumeEffect(perform), m, C.NewFrame(initialState), 0);
  }

  /**
   * An active ID whose widget is no longer in the tree is not cleared: with
   * only text on screen, the loop returns the input with aliveness forgotten
   * and the vanished widget still active.
   */
  lemma RemovedActiveWidgetStaysActive<H, M>(text: D.TranslatableString, ctx: C.BuilderState,
                                             perform: (WS.Call<H>, M) -> M, m: M, s: C.WidgetState, gone: C.Id)
    requires s.activeId == Some(gone)
    ensures var run := R.Converge(TreeApp((_: M) => WS.Text<H>(text)(ctx)), ResumeEffect(perform), m, s);
            run == R.Run(R.Converged(C.NewFrame(s)), m, 1) && run.outcome.state.activeId == Some(gone)
  {
    var build := (_: M) => WS.Text<H>(text)(ctx);
    assert build(m).tick.NoEventHandler?;
    assert TreeApp(build)(m).tick(C.NewFrame(s)) == WS.Eval(build(m).tick, C.NewFrame(s));
    R.HaltingAppReturnsNewFrame(TreeApp(build), ResumeEffect(perform), m, s);
  }

  /** A lone button as written, in context `ctx`. */
  function ButtonAsWrittenApp<H, M>(text: D.TranslatableString, onPress: H, ctx: C.BuilderState): M -> R.App<WS.Effect<H>>
  {
    (m: M) => R.App(D.Button(ctx.currentId, text), (s: C.WidgetState) => WS.ButtonBehaviourAsWritten(ctx, onPress, s))
  }

  /**
   * As written, pressing a disabled button makes the event loop throw: the
   * button takes focus and then keeps re-taking it, 21 ticks in all.
   */
  lemma PressedDisabledButtonAsWrittenDiverges<H, M>(text: D.TranslatableString, onPress: H, ctx: C.BuilderState,
                                                     perform: (WS.Call<H>, M) -> M, m: M, s: C.WidgetState)
    requires s.focusNextRequestedBy != Some(ctx.currentId)
    ensures var dctx := ctx.(enabled := false);
            R.Converge(ButtonAsWrittenApp(text, onPress, dctx), ResumeEffect(perform), m,
                       C.SetPressedId(Some(ctx.currentId), s)) ==
            R.Run(R.DidNotConverge, m, R.FrameCap + 1)
  {
    var dctx := ctx.(enabled := false);
    var app := ButtonAsWrittenApp<H, M>(text, onPress, dctx);
    var s0 := C.NewFrame(C.SetPressedId(Some(ctx.currentId), s));
    var s1 := C.SetFocusedId(Some(ctx.currentId), s0);
    assert app(m).tick(s0) == N.Continue(s1);
    WS.ButtonAsWrittenContinuesInPlace(dctx, onPress, s1);
    var trap := (t: C.WidgetState) => t == s0 || t == s1;
    R.TrappedDiverges(app, ResumeEffect(perform), m, trap, s0, 0);
  }

  /**
   * Corrected, pressing a button made disabled by `enabled(false)` gives it
   * focus and the loop returns after two ticks, with nothing run.
   */
  lemma PressedDisabledButtonConverges<H, M>(text: D.TranslatableString, onPress: H, ctx: C.BuilderState,
                                             perform: (WS.Call<H>, M) -> M, m: M, s: C.WidgetState)
    requires s.focusNextRequestedBy != Some(ctx.currentId)
    requires s.focusedId != Some(ctx.currentId)
    ensures var build := (_: M) => A.Enabled(false, WS.Button(text, onPress))(ctx);
            var s1 := C.SetFocusedId(Some(ctx.currentId), C.NewFrame(C.SetPressedId(Some(ctx.currentId), s)));
            R.Converge(TreeApp(build), ResumeEffect(perform), m, C.SetPressedId(Some(ctx.currentId), s)) ==
            R.Run(R.Converged(s1), m, 2)
  {
    var build := (_: M) => A.Enabled(false, WS.Button(text, onPress))(ctx);
    assert build(m).tick == WS.ButtonTick(ctx.(enabled := false), onPress);
  }

  /** A lone draft input as written, in context `ctx`. */
  function InputAsWrittenApp<H, M>(value: string, onChange: H, valid: bool, isFormatValid: string -> bool,
                                   ctx: C.BuilderState): M -> R.App<WS.Effect<H>>
  {
    (m: M) => R.App(D.Input(ctx.currentId, value, ctx.enabled),
                    (s: C.WidgetState) => DW.InputBehaviourAsWritten(value, onChange, valid, isFormatValid, ctx, s))
  }

  /** A lone draft input with the release corrected. */
  function InputApp<H, M>(value: string, onChange: H, valid: bool, isFormatValid: string -> bool,
                          ctx: C.BuilderState): M -> R.App<WS.Effect<H>>
  {
    (m: M) => R.App(D.Input(ctx.currentId, value, ctx.enabled),
                    (s: C.WidgetState) => DW.Eval(DW.InputTick(ctx, value, valid, isFormatValid, onChange), s))
  }

  /**
   * As written, an active draft input that becomes disabled makes the event
   * loop throw: it re-asserts aliveness, then sets itself active again and
   * again.
   */
  lemma DisabledActiveInputAsWrittenDiverges<H, M>(value: string, onChange: H, valid: bool, isFormatValid: string -> bool,
                                                   ctx: C.BuilderState, perform: (WS.Call<H>, M) -> M, m: M, s: C.WidgetState)
    requires !ctx.enabled && s.activeId == Some(ctx.currentId)
    ensures R.Converge(InputAsWrittenApp(value, onChange, valid, isFormatValid, ctx), ResumeEffect(perform), m, s) ==
            R.Run(R.DidNotConverge, m, R.FrameCap + 1)
  {
    var app := InputAsWrittenApp<H, M>(value, onChange, valid, isFormatValid, ctx);
    var s0 := C.NewFrame(s);
    var s1 := C.SetActiveIdIsAlive(Some(ctx.currentId), s0);
    assert app(m).tick(s0) == N.Continue(s1);
    DW.DisabledActiveInputAsWrittenContinuesInPlace(value, onChange, valid, isFormatValid, ctx, s1);
    var trap := (t: C.WidgetState) => t == s0 || t == s1;
    R.TrappedDiverges(app, ResumeEffect(perform), m, trap, s0, 0);
  }

  /** Corrected, the disabled input releases itself and the loop returns after three ticks. */
  lemma DisabledActiveInputConverges<H, M>(value: string, onChange: H, valid: bool, isFormatValid: string -> bool,
                                           ctx: C.BuilderState, perform: (WS.Call<H>, M) -> M, m: M, s: C.WidgetState)
    requires !ctx.enabled && s.activeId == Some(ctx.currentId)
    ensures var s1 := C.SetActiveIdIsAlive(Some(ctx.currentId), C.NewFrame(s));
            var s2 := C.SetActiveId(None, s1);
            R.Converge(InputApp(value, onChange, valid, isFormatValid, ctx), ResumeEffect(perform), m, s) ==
            R.Run(R.Converged(s2), m, 3) && s2.activeId.None?
  {
    var s1 := C.SetActiveIdIsAlive(Some(ctx.currentId), C.NewFrame(s));
    DW.DisabledActiveInputReleased(value, onChange, valid, isFormatValid, ctx, s1);
  }
}
