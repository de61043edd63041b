/**
 * The State-monad builder modifiers (src/lib/attributes.ts): a builder
 * threads the context through and hands back the one it leaves, so each
 * modifier undoes its own change explicitly. They read and write the
 * enabled flag, which only the later builder context has, so they are
 * stated over `Context.BuilderState`.
 */
module DraftAttributes {
  import HList
  import C = Context

  /** A builder in the State monad: a result and the context left behind. */
  type StateBuilder<W> = C.BuilderState -> (W, C.BuilderState)

  /** `id`: push `seg`, run the widget, pop. */
  function Id<W>(seg: string, widget: StateBuilder<W>): (r: StateBuilder<W>)
    // the wrapped builder runs with the extended path, and its result is returned
    ensures forall ctx :: r(ctx).0 == widget(ctx.(currentId := HList.Cons(seg, ctx.currentId))).0
    // the path the widget leaves loses its innermost segment; nothing else is touched
    ensures forall ctx :: var left := widget(C.PushId(seg, ctx)).1;
                          r(ctx).1 == left.(currentId := HList.Pop(left.currentId))
  {
    assert forall ctx :: C.PushId(seg, ctx) == ctx.(currentId := HList.Cons(seg, ctx.currentId));
    (ctx: C.BuilderState) =>
      var (w, afterWidget) := widget(C.PushId(seg, ctx));
      (w, C.PopId(afterWidget))
  }

  /** `enabled`: remember the flag, set it, run the widget, restore the flag. */
  function Enabled<W>(isEnabled: bool, widget: StateBuilder<W>): (r: StateBuilder<W>)
    ensures forall ctx :: r(ctx).0 == widget(ctx.(enabled := isEnabled)).0
    // the caller's flag comes back whatever the widget did with it
    ensures forall ctx :: r(ctx).1.enabled == ctx.enabled
    ensures forall ctx :: var left := widget(C.SetEnabled(isEnabled, ctx)).1;
                          r(ctx).1 == left.(enabled := ctx.enabled)
  {
    assert forall ctx :: C.SetEnabled(isEnabled, ctx) == ctx.(enabled := isEnabled);
    (ctx: C.BuilderState) =>
      var prevEnabled := C.GetEnabled(ctx);
      var (w, afterWidget) := widget(C.SetEnabled(isEnabled, ctx));
      (w, C.SetEnabled(prevEnabled, afterWidget))
  }

  /** A builder that hands back every context as it received it. */
  ghost predicate Balanced<W>(widget: StateBuilder<W>)
  {
    forall ctx :: widget(ctx).1 == ctx
  }

  /** Both modifiers keep a balanced builder balanced: the scope they open is closed again. */
  lemma ModifiersKeepBalance<W>(seg: string, isEnabled: bool, widget: StateBuilder<W>)
    requires Balanced(widget)
    ensures Balanced(Id(seg, widget)) && Balanced(Enabled(isEnabled, widget))
  {
    forall ctx ensures Id(seg, widget)(ctx).1 == ctx {
      assert widget(C.PushId(seg, ctx)).1 == C.PushId(seg, ctx);
    }
    forall ctx ensures Enabled(isEnabled, widget)(ctx).1 == ctx {
      assert widget(C.SetEnabled(isEnabled, ctx)).1 == C.SetEnabled(isEnabled, ctx);
    }
  }

  /** `S.gets`: a builder that only reads the context. */
  function Gets<W>(f: C.BuilderState -> W): (r: StateBuilder<W>)
    ensures Balanced(r)
  {
    (ctx: C.BuilderState) => (f(ctx), ctx)
  }

  /**
   * `A.array.sequence(S.state)`: runs the builders one after the other, each
   * from the context the previous one left.
   */
  function Sequence<W>(builders: seq<StateBuilder<W>>, ctx: C.BuilderState): (r: (seq<W>, C.BuilderState))
    ensures |r.0| == |builders|
    decreases |builders|
  {
    if builders == [] then ([], ctx)
    else
      var (w, next) := builders[0](ctx);
      var (ws, last) := Sequence(builders[1..], next);
      ([w] + ws, last)
  }

  /** With balanced siblings, every sibling sees the caller's context and the caller gets it back. */
  lemma {:induction false} BalancedSiblingsShareContext<W>(builders: seq<StateBuilder<W>>, ctx: C.BuilderState)
    requires forall i :: 0 <= i < |builders| ==> Balanced(builders[i])
    ensures Sequence(builders, ctx).1 == ctx
    ensures forall i :: 0 <= i < |builders| ==> Sequence(builders, ctx).0[i] == builders[i](ctx).0
    decreases |builders|
  {
    if builders != [] {
      assert builders[0](ctx).1 == ctx;
      var rest := builders[1..];
      assert forall i :: 0 <= i < |rest| ==> rest[i] == builders[i + 1];
      BalancedSiblingsShareContext(rest, ctx);
    }
  }
}
