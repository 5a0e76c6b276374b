/**
 * What a loop collects when it visits a sequence and, at each element,
 * pushes one value or none: the outcome of each visit is an `Option`, and
 * the collected list is the values of those outcomes, in order.
 */
module Collect {
  import opened Wrappers

  /** `[f(s[i], i), f(s[i + 1], i + 1), ...]`: each element from position `i` on, with its position. */
  function MapIndexed<A, B>(s: seq<A>, f: (A, nat) -> B, i: nat): (r: seq<B>)
    requires i <= |s|
    ensures |r| == |s| - i
    decreases |s| - i
  {
    if i == |s| then [] else [f(s[i], i)] + MapIndexed(s, f, i + 1)
  }

  lemma {:induction false} MapIndexedAt<A, B>(s: seq<A>, f: (A, nat) -> B, i: nat, j: nat)
    requires i <= j < |s|
    ensures MapIndexed(s, f, i)[j - i] == f(s[j], j)
    decreases j - i
  {
    if i < j {
      MapIndexedAt(s, f, i + 1, j);
    }
  }

  /** The values among the first `n` outcomes, in order. */
  function Present<T>(s: seq<Option<T>>, n: nat): seq<T>
    requires n <= |s|
  {
    if n == 0 then []
    else if s[n - 1].Some? then Present(s, n - 1) + [s[n - 1].value]
    else Present(s, n - 1)
  }

  /** The value of outcome `j` is collected right after those of the outcomes before it. */
  lemma {:induction false} PresentAt<T>(s: seq<Option<T>>, n: nat, j: nat)
    requires j < n <= |s| && s[j].Some?
    ensures |Present(s, j)| < |Present(s, n)|
    ensures Present(s, n)[|Present(s, j)|] == s[j].value
  {
    if j < n - 1 {
      PresentAt(s, n - 1, j);
    }
  }

  /** Everything collected is the value of an earlier outcome. */
  lemma {:induction false} PresentSource<T>(s: seq<Option<T>>, n: nat)
    requires n <= |s|
    ensures forall x :: x in Present(s, n) ==> exists j :: 0 <= j < n && s[j] == Some(x)
  {
    if n > 0 {
      PresentSource(s, n - 1);
    }
  }
}
