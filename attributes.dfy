/**
 * Scoped builder modifiers (lib/core/attributes.ts): each runs the wrapped
 * builder in a locally changed context and leaves the caller's untouched.
 */
module Attributes {
  import HList
  import C = Context

  /** `id`: the wrapped builder sees the path extended with `seg`. */
  function Id<W>(seg: string, widget: C.BuilderState -> W): (r: C.BuilderState -> W)
    ensures forall ctx :: r(ctx) == widget(ctx.(currentId := HList.Cons(seg, ctx.currentId)))
  {
    assert forall ctx :: C.PushId(seg, ctx) == ctx.(currentId := HList.Cons(seg, ctx.currentId));
    (ctx: C.BuilderState) => widget(C.PushId(seg, ctx))
  }

  /** `enabled`: the wrapped builder sees the enabled flag set to `isEnabled`, and nothing else changed. */
  function Enabled<W>(isEnabled: bool, widget: C.BuilderState -> W): (r: C.BuilderState -> W)
    ensures forall ctx :: r(ctx) == widget(ctx.(enabled := isEnabled))
  {
    assert forall ctx :: C.SetEnabled(isEnabled, ctx) == ctx.(enabled := isEnabled);
    (ctx: C.BuilderState) => widget(C.SetEnabled(isEnabled, ctx))
  }

  /** Nested scopes stack: the inner segment is the most recent one on the path. */
  lemma NestedIds<W>(a: string, b: string, widget: C.BuilderState -> W, ctx: C.BuilderState)
    ensures Id(a, Id(b, widget))(ctx) ==
            widget(ctx.(currentId := HList.Cons(b, HList.Cons(a, ctx.currentId))))
    ensures HList.Segments(HList.Cons(b, HList.Cons(a, ctx.currentId))) ==
            HList.Segments(ctx.currentId) + [a, b]
  {
  }

  /** The innermost `enabled` wins, and the path is unaffected by it. */
  lemma InnermostEnabledWins<W>(outer: bool, inner: bool, seg: string, widget: C.BuilderState -> W, ctx: C.BuilderState)
    ensures Enabled(outer, Id(seg, Enabled(inner, widget)))(ctx) ==
            widget(ctx.(enabled := inner, currentId := HList.Cons(seg, ctx.currentId)))
  {
  }
}
