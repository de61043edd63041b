/**
 * The result of one widget transition and the container combinator that
 * sequences child transitions (lib/data/next.ts; src/lib/data/next.ts is the
 * same code without the default `throw`).
 */
module Next {

  /**
   * `halt()`, `cont(state)` or `suspendAndResume(effect)`. The source's
   * default `throw` for an unknown tag has no counterpart: the datatype is closed.
   */
  datatype Next<S, E> = Halt | Continue(state: S) | SuspendAndResume(effect: E)

  /** `fold`: hands each tag to its own callback. */
  function Fold<S, E, B>(onContinue: S -> B, onSuspendAndResume: E -> B, onHalt: () -> B,
                         fa: Next<S, E>): (r: B)
    ensures fa.Continue? ==> r == onContinue(fa.state)
    ensures fa.SuspendAndResume? ==> r == onSuspendAndResume(fa.effect)
    ensures fa.Halt? ==> r == onHalt()
  {
    match fa
    case Continue(state) => onContinue(state)
    case SuspendAndResume(effect) => onSuspendAndResume(effect)
    case Halt => onHalt()
  }

  /** Folding with the three constructors gives back the value folded. */
  lemma FoldWithConstructors<S, E>(fa: Next<S, E>)
    ensures Fold(s => Continue(s), e => SuspendAndResume(e), () => Halt, fa) == fa
  {
  }

  /**
   * What is left of a reduction once some child has continued with `current`:
   * a remainder that halts still reports `Continue(current)`.
   */
  function AfterContinue<S, E>(rest: Next<S, E>, current: S): (r: Next<S, E>)
    ensures !r.Halt?
  {
    if rest.Halt? then Continue(current) else rest
  }

  /**
   * The meaning of `reduce(fs)(s)`, child by child from the left: a halting
   * child is skipped, a continuing child's state is handed on, the first
   * suspension ends the reduction; the result is `Continue` of the last state
   * handed on when some child continued, and `Halt` otherwise.
   */
  function Reduced<S, E>(fs: seq<S -> Next<S, E>>, s: S): (r: Next<S, E>)
    decreases |fs|
  {
    if fs == [] then Halt
    else
      match fs[0](s)
      case Halt => Reduced(fs[1..], s)
      case Continue(t) => AfterContinue(Reduced(fs[1..], t), t)
      case SuspendAndResume(e) => SuspendAndResume(e)
  }

  /**
   * `reduce`: the source's loop over `transforms`, updating `currentState`
   * and `currentIndex`; `continued` records that some child returned
   * `Continue`, which is what `currentState !== initialState` detects.
   */
  method Reduce<S, E>(transforms: seq<S -> Next<S, E>>, initialState: S) returns (r: Next<S, E>)
    ensures r == Reduced(transforms, initialState)
  {
    var currentState := initialState;
    var continued := false;
    var currentIndex := 0;
    while |transforms| > currentIndex
      invariant 0 <= currentIndex <= |transforms|
      invariant Reduced(transforms, initialState) ==
                (if continued then AfterContinue(Reduced(transforms[currentIndex..], currentState), currentState)
                 else Reduced(transforms[currentIndex..], currentState))
    {
      var rest := transforms[currentIndex..];
      assert rest[0] == transforms[currentIndex] && rest[1..] == transforms[currentIndex + 1..];
      var proposedState := transforms[currentIndex](currentState);
      match proposedState {
        case Halt =>
        case Continue(state) =>
          currentState := state;
          continued := true;
        case SuspendAndResume(_) =>
          return proposedState;
      }
      currentIndex := currentIndex + 1;
    }
    assert transforms[currentIndex..] == [];
    r := if continued then Continue(currentState) else Halt;
  }

  /** The reduction halts exactly when every child halts on the state it was given. */
  lemma {:induction false} ReducedHaltsIffAllHalt<S, E>(fs: seq<S -> Next<S, E>>, s: S)
    ensures Reduced(fs, s).Halt? <==> forall i :: 0 <= i < |fs| ==> fs[i](s).Halt?
    decreases |fs|
  {
    if fs != [] {
      ReducedHaltsIffAllHalt(fs[1..], s);
      if fs[0](s).Halt? {
        forall i | 1 <= i < |fs| ensures fs[i] == fs[1..][i - 1] { }
      }
    }
  }

  /**
   * Reducing `fs + gs`: `gs` sees the state `fs` ended with, is not evaluated
   * at all once `fs` suspended, and a halting `fs` is transparent.
   */
  lemma {:induction false} ReducedAppend<S, E>(fs: seq<S -> Next<S, E>>, gs: seq<S -> Next<S, E>>, s: S)
    ensures Reduced(fs + gs, s) ==
            match Reduced(fs, s)
            case Halt => Reduced(gs, s)
            case Continue(t) => AfterContinue(Reduced(gs, t), t)
            case SuspendAndResume(e) => SuspendAndResume(e)
    decreases |fs|
  {
    if fs == [] {
      assert fs + gs == gs;
    } else {
      assert (fs + gs)[0] == fs[0];
      assert (fs + gs)[1..] == fs[1..] + gs;
      match fs[0](s)
      case Halt =>
        ReducedAppend(fs[1..], gs, s);
      case Continue(t) =>
        ReducedAppend(fs[1..], gs, t);
      case SuspendAndResume(e) =>
    }
  }

  /** A child that always halts, placed first, is skipped. */
  lemma ReducedHaltingHead<S, E>(h: S -> Next<S, E>, post: seq<S -> Next<S, E>>, t: S)
    requires h(t).Halt?
    ensures Reduced([h] + post, t) == Reduced(post, t)
  {
    assert ([h] + post)[0] == h && ([h] + post)[1..] == post;
  }

  /**
   * A child that always halts changes nothing, wherever it is placed among
   * its siblings.
   */
  lemma ReducedIgnoresHaltingChild<S, E>(fs: seq<S -> Next<S, E>>, i: nat, h: S -> Next<S, E>, s: S)
    requires i <= |fs|
    requires forall t :: h(t).Halt?
    ensures Reduced(fs[..i] + [h] + fs[i..], s) == Reduced(fs, s)
  {
    var pre, post := fs[..i], fs[i..];
    assert fs == pre + post;
    assert pre + [h] + post == pre + ([h] + post);
    ReducedAppend(pre, [h] + post, s);
    ReducedAppend(pre, post, s);
    match Reduced(pre, s)
    case Halt => ReducedHaltingHead(h, post, s);
    case Continue(t) => ReducedHaltingHead(h, post, t);
    case SuspendAndResume(e) =>
  }

  /**
   * The container scenario of three children where only the middle one
   * continues: the result is that child's state, whatever halts around it.
   */
  lemma ReducedSingleContinuer<S, E>(h1: S -> Next<S, E>, c: S -> Next<S, E>, h3: S -> Next<S, E>, s: S, t: S)
    requires forall u :: h1(u).Halt? && h3(u).Halt?
    requires c(s) == Continue(t)
    ensures Reduced([h1, c, h3], s) == Continue(t)
  {
    assert [h1, c, h3][1..] == [c, h3] && [c, h3][1..] == [h3] && [h3][1..] == [];
    assert Reduced([h3], t) == Reduced([], t) == Halt;
    assert Reduced([c, h3], s) == AfterContinue(Reduced([h3], t), t) == Continue(t);
  }

  /** A step result whose states satisfy `P` and whose effects satisfy `Q`. */
  ghost predicate Respects<S, E>(r: Next<S, E>, P: S -> bool, Q: E -> bool)
  {
    (r.Continue? ==> P(r.state)) && (r.SuspendAndResume? ==> Q(r.effect))
  }

  /**
   * An invariant of states that every child keeps (and whose suspensions
   * carry effects satisfying `Q`) is kept by the whole reduction.
   */
  lemma {:induction false} ReducedPreserves<S, E>(fs: seq<S -> Next<S, E>>, s: S, P: S -> bool, Q: E -> bool)
    requires P(s)
    requires forall i, t :: 0 <= i < |fs| && P(t) ==> Respects(fs[i](t), P, Q)
    ensures Respects(Reduced(fs, s), P, Q)
    decreases |fs|
  {
    if fs != [] {
      var rest := fs[1..];
      assert forall i, t :: 0 <= i < |rest| && P(t) ==> Respects(rest[i](t), P, Q) by {
        forall i, t | 0 <= i < |rest| && P(t) ensures Respects(rest[i](t), P, Q) {
          assert rest[i] == fs[i + 1];
        }
      }
      assert Respects(fs[0](s), P, Q);
      match fs[0](s)
      case Halt => ReducedPreserves(rest, s, P, Q);
      case Continue(t) => ReducedPreserves(rest, t, P, Q);
      case SuspendAndResume(e) =>
    }
  }
}
