/** Sequences of pairs taken apart: the first and the second components, in
    order. */
module Pairs {

  /** The first components, `[p[0] for p in ps]`. */
  function Firsts<A, B>(ps: seq<(A, B)>): (as_: seq<A>)
    ensures |as_| == |ps| && forall i :: 0 <= i < |ps| ==> as_[i] == ps[i].0
  {
    seq(|ps|, i requires 0 <= i < |ps| => ps[i].0)
  }

  /** The second components, `[p[1] for p in ps]`. */
  function Seconds<A, B>(ps: seq<(A, B)>): (bs: seq<B>)
    ensures |bs| == |ps| && forall i :: 0 <= i < |ps| ==> bs[i] == ps[i].1
  {
    seq(|ps|, i requires 0 <= i < |ps| => ps[i].1)
  }

  /** Taking apart distributes over concatenation. */
  lemma SecondsAppend<A, B>(a: seq<(A, B)>, b: seq<(A, B)>)
    ensures Seconds(a + b) == Seconds(a) + Seconds(b)
  {
  }

  /** Appending one pair appends its second component. */
  lemma SecondsSnoc<A, B>(ps: seq<(A, B)>, p: (A, B))
    ensures Seconds(ps + [p]) == Seconds(ps) + [p.1]
  {
    SecondsAppend(ps, [p]);
  }
}
