/**
 * The ID path of a widget: a persistent cons list of segments, the most
 * recently pushed segment first (src/lib/hlist.ts).
 */
module HList {
  import opened Wrappers

  /** `nil` or `cons(value, prev)`; the cached `length` field is `Length`. */
  datatype HList<A> = Nil | Cons(value: A, prev: HList<A>)

  /** The `length` the source stores in each cell: `nil` has 0, `cons` adds one. */
  function Length<A>(l: HList<A>): nat
  {
    match l
    case Nil => 0
    case Cons(_, prev) => Length(prev) + 1
  }

  /** The segments of a path, oldest (outermost) first: the reference view of a list. */
  function Segments<A>(l: HList<A>): (r: seq<A>)
    ensures |r| == Length(l)
  {
    match l
    case Nil => []
    case Cons(v, prev) => Segments(prev) + [v]
  }

  /** `pop`: drops the most recently pushed segment; popping `nil` gives `nil`. */
  function Pop<A>(l: HList<A>): (r: HList<A>)
    ensures Segments(r) == if l.Nil? then [] else Segments(l)[..Length(l) - 1]
    ensures Length(r) == if l.Nil? then 0 else Length(l) - 1
  {
    if l.Nil? then l else l.prev
  }

  /** `getLast`: the most recently pushed segment, the last of `Segments`. */
  function GetLast<A>(l: HList<A>): (r: Option<A>)
    ensures r.None? <==> Segments(l) == []
    ensures r.Some? ==> r.value == Segments(l)[Length(l) - 1]
  {
    if l.Nil? then None else Some(l.value)
  }

  /** `cons` adds exactly one segment, the newest, and `pop` takes it back off. */
  lemma ConsThenPop<A>(v: A, l: HList<A>)
    ensures Length(Cons(v, l)) == Length(l) + 1 && Length(HList<A>.Nil) == 0
    ensures Segments(Cons(v, l)) == Segments(l) + [v]
    ensures Pop(Cons(v, l)) == l && Pop(HList<A>.Nil) == Nil
    ensures GetLast(Cons(v, l)) == Some(v) && GetLast(HList<A>.Nil) == None
  {
  }

  /** Two lists with the same segments in the same order are the same list. */
  lemma {:induction false} SegmentsInjective<A>(a: HList<A>, b: HList<A>)
    requires Segments(a) == Segments(b)
    ensures a == b
  {
    match a
    case Nil =>
    case Cons(v, prev) =>
      var sb := Segments(b);
      assert b.Cons?;
      var n := Length(prev);
      assert Segments(prev) == Segments(a)[..n];
      assert Segments(b.prev) == sb[..n];
      assert v == Segments(a)[n] == sb[n] == b.value;
      SegmentsInjective(prev, b.prev);
  }

  /**
   * `equals`: walks both lists in step from the newest segment and answers
   * whether they hold the same segments in the same order.
   */
  method Equals<A(==)>(a: HList<A>, b: HList<A>) returns (r: bool)
    ensures r <==> Segments(a) == Segments(b)
    ensures r <==> a == b
  {
    if Segments(a) == Segments(b) {
      SegmentsInjective(a, b);
    }
    var currA, currB := a, b;
    while true
      invariant (a == b) <==> (currA == currB)
      decreases currA
    {
      match currA
      case Nil =>
        return currB.Nil?;
      case Cons(va, prevA) =>
        if currB.Cons? && va == currB.value {
          currA, currB := prevA, currB.prev;
        } else {
          return false;
        }
    }
  }

  /**
   * `toArray`: fills a fresh array of `length` cells from the back, newest
   * segment last, so the array lists the segments oldest first.
   */
  method ToArray<A(0)>(list: HList<A>) returns (r: array<A>)
    ensures fresh(r)
    ensures r[..] == Segments(list)
  {
    var len := Length(list);
    r := new A[len];
    var l := list;
    var i := 1;
    while l.Cons?
      invariant 1 <= i <= len + 1
      invariant Length(l) == len - (i - 1)
      invariant Segments(list) == Segments(l) + r[Length(l)..]
      decreases l
    {
      r[len - i] := l.value;
      assert Segments(l) == Segments(l.prev) + [l.value];
      i := i + 1;
      l := l.prev;
    }
  }
}
