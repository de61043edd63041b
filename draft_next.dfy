/**
 * The earlier four-way step result (src/lib/next.ts): a child may also
 * render a node, and `reduce` stops at the first Halt as well as at the
 * first suspension.
 */
module DraftNext {

  /** `Next<S, A>` with the effect type `E` made explicit. */
  datatype Next<S, A, E> = Render(dsl: A) | Continue(state: S) | Halt(state: S) | SuspendAndResume(effect: E)

  /** `fold`: each tag goes to its own callback. */
  function Fold<S, A, E, B>(onRender: A -> B, onContinue: S -> B, onHalt: S -> B, onSuspendAndResume: E -> B,
                            fa: Next<S, A, E>): (r: B)
    ensures fa.Render? ==> r == onRender(fa.dsl)
    ensures fa.Continue? ==> r == onContinue(fa.state)
    ensures fa.Halt? ==> r == onHalt(fa.state)
    ensures fa.SuspendAndResume? ==> r == onSuspendAndResume(fa.effect)
  {
    match fa
    case Render(dsl) => onRender(dsl)
    case Continue(state) => onContinue(state)
    case Halt(state) => onHalt(state)
    case SuspendAndResume(effect) => onSuspendAndResume(effect)
  }

  /** Folding with the four constructors gives back the value folded. */
  lemma FoldWithConstructors<S, A, E>(fa: Next<S, A, E>)
    ensures Fold(d => Render(d), s => Continue(s), s => Halt(s), e => SuspendAndResume(e), fa) == fa
  {
  }

  /** How walking the children ends: a child stopped it, or all ran, leaving a state and the nodes rendered. */
  datatype Walked<S, A, E> = Stopped(result: Next<S, A, E>) | Finished(state: S, rendered: seq<A>)

  /** Puts nodes rendered earlier in front of a walk's nodes. */
  function Prepend<S, A, E>(dsls: seq<A>, w: Walked<S, A, E>): (r: Walked<S, A, E>)
    ensures r.Stopped? <==> w.Stopped?
    ensures w.Stopped? ==> r == w
    ensures w.Finished? ==> r.state == w.state && r.rendered == dsls + w.rendered
  {
    match w
    case Stopped(_) => w
    case Finished(state, rendered) => Finished(state, dsls + rendered)
  }

  /**
   * The children run left to right from state `s`: a Render adds its node, a
   * Continue passes its state on, a Halt or a suspension stops the walk.
   */
  function Walk<S, A, E>(fas: seq<S -> Next<S, A, E>>, s: S): (r: Walked<S, A, E>)
    ensures r.Stopped? ==> r.result.Halt? || r.result.SuspendAndResume?
    ensures r.Finished? ==> |r.rendered| <= |fas|
    decreases |fas|
  {
    if fas == [] then Finished(s, [])
    else
      match fas[0](s)
      case Render(dsl) => Prepend([dsl], Walk(fas[1..], s))
      case Continue(t) => Walk(fas[1..], t)
      case Halt(t) => Stopped(Halt(t))
      case SuspendAndResume(e) => Stopped(SuspendAndResume(e))
  }

  /** `reduce`: a stopping child's result, a render of all nodes if every child rendered, otherwise Continue. */
  function Reduced<S, A, E>(fas: seq<S -> Next<S, A, E>>, s: S, agglomerate: seq<A> -> A): Next<S, A, E>
  {
    match Walk(fas, s)
    case Stopped(result) => result
    case Finished(state, rendered) =>
      if |rendered| != |fas| then Continue(state) else Render(agglomerate(rendered))
  }

  /** `reduce(initialState, fas, agglomerate)`. */
  method Reduce<S, A, E>(initialState: S, fas: seq<S -> Next<S, A, E>>, agglomerate: seq<A> -> A)
    returns (r: Next<S, A, E>)
    ensures r == Reduced(fas, initialState, agglomerate)
  {
    var currentState := initialState;
    var currentIndex := 0;
    var outDsl: seq<A> := [];
    while currentIndex < |fas|
      invariant 0 <= currentIndex <= |fas|
      invariant |outDsl| <= currentIndex
      invariant Walk(fas, initialState) == Prepend(outDsl, Walk(fas[currentIndex..], currentState))
    {
      var rest := fas[currentIndex..];
      assert rest[0] == fas[currentIndex] && rest[1..] == fas[currentIndex + 1..];
      var fa := fas[currentIndex](currentState);
      match fa {
        case Render(dsl) =>
          assert Prepend(outDsl, Prepend([dsl], Walk(rest[1..], currentState))) ==
                 Prepend(outDsl + [dsl], Walk(rest[1..], currentState));
          outDsl := outDsl + [dsl];
        case Continue(t) =>
          currentState := t;
        case Halt(_) =>
          return fa;
        case SuspendAndResume(_) =>
          return fa;
      }
      currentIndex := currentIndex + 1;
    }
    assert fas[currentIndex..] == [];
    assert outDsl + [] == outDsl;
    if |outDsl| != |fas| {
      return Continue(currentState);
    }
    return Render(agglomerate(outDsl));
  }

  /**
   * Walking `fs + gs`: `gs` starts from the state `fs` left, is not run at all
   * once `fs` stopped, and its nodes follow those of `fs`.
   */
  lemma {:induction false} WalkAppend<S, A, E>(fs: seq<S -> Next<S, A, E>>, gs: seq<S -> Next<S, A, E>>, s: S)
    ensures Walk(fs + gs, s) ==
            match Walk(fs, s)
            case Stopped(result) => Stopped(result)
            case Finished(t, rendered) => Prepend(rendered, Walk(gs, t))
    decreases |fs|
  {
    if fs == [] {
      assert fs + gs == gs;
      match Walk(gs, s) {
        case Stopped(_) =>
        case Finished(u, es) => assert [] + es == es;
      }
    } else {
      assert (fs + gs)[0] == fs[0];
      assert (fs + gs)[1..] == fs[1..] + gs;
      match fs[0](s)
      case Render(d) =>
        WalkAppend(fs[1..], gs, s);
        match Walk(fs[1..], s) {
          case Stopped(_) =>
          case Finished(t, ds) =>
            match Walk(gs, t) {
              case Stopped(_) =>
              case Finished(u, es) => assert [d] + (ds + es) == ([d] + ds) + es;
            }
        }
      case Continue(t) =>
        WalkAppend(fs[1..], gs, t);
      case Halt(_) =>
      case SuspendAndResume(_) =>
    }
  }

  /**
   * The result is a render exactly when every child renders on the starting
   * state, and it then agglomerates their nodes in child order.
   */
  lemma {:induction false} RenderIffAllRender<S, A, E>(fas: seq<S -> Next<S, A, E>>, s: S, agglomerate: seq<A> -> A)
    ensures Reduced(fas, s, agglomerate).Render? <==> forall i :: 0 <= i < |fas| ==> fas[i](s).Render?
    ensures (forall i :: 0 <= i < |fas| ==> fas[i](s).Render?) ==>
              Reduced(fas, s, agglomerate) ==
              Render(agglomerate(seq(|fas|, i requires 0 <= i < |fas| && fas[i](s).Render? => fas[i](s).dsl)))
  {
    AllRenderWalk(fas, s);
  }

  /** Helper for `RenderIffAllRender`: the walk renders every child exactly when each renders on `s`. */
  lemma {:induction false} AllRenderWalk<S, A, E>(fas: seq<S -> Next<S, A, E>>, s: S)
    ensures (Walk(fas, s).Finished? && |Walk(fas, s).rendered| == |fas|) <==>
            forall i :: 0 <= i < |fas| ==> fas[i](s).Render?
    ensures (forall i :: 0 <= i < |fas| ==> fas[i](s).Render?) ==>
              Walk(fas, s) ==
              Finished(s, seq(|fas|, i requires 0 <= i < |fas| && fas[i](s).Render? => fas[i](s).dsl))
    decreases |fas|
  {
    if fas != [] {
      var rest := fas[1..];
      AllRenderWalk(rest, s);
      assert forall i :: 1 <= i < |fas| ==> fas[i] == rest[i - 1];
      match fas[0](s)
      case Render(d) =>
        if forall i :: 0 <= i < |fas| ==> fas[i](s).Render? {
          var all := seq(|fas|, i requires 0 <= i < |fas| && fas[i](s).Render? => fas[i](s).dsl);
          var tail := seq(|rest|, i requires 0 <= i < |rest| && rest[i](s).Render? => rest[i](s).dsl);
          assert all == [d] + tail;
        }
      case Continue(t) =>
        var w := Walk(rest, t);
        assert w.Finished? ==> |w.rendered| <= |rest|;
      case Halt(_) =>
      case SuspendAndResume(_) =>
    }
  }

  /** A child that halts or suspends ends the reduction with its own result; the children after it never run. */
  lemma StopEndsReduction<S, A, E>(pre: seq<S -> Next<S, A, E>>, f: S -> Next<S, A, E>,
                                   post: seq<S -> Next<S, A, E>>, s: S, agglomerate: seq<A> -> A)
    requires Walk(pre, s).Finished?
    requires f(Walk(pre, s).state).Halt? || f(Walk(pre, s).state).SuspendAndResume?
    ensures Reduced(pre + [f] + post, s, agglomerate) == f(Walk(pre, s).state)
  {
    WalkAppend(pre, [f] + post, s);
    assert pre + [f] + post == pre + ([f] + post);
    assert ([f] + post)[0] == f;
  }

  /** An empty child list renders the agglomeration of no nodes. */
  lemma EmptyRenders<S, A, E>(s: S, agglomerate: seq<A> -> A)
    ensures Reduced<S, A, E>([], s, agglomerate) == Render(agglomerate([]))
  {
  }
}
