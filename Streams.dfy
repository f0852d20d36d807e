/**
  The vocabulary shared by every part of the model: optional and failing
  values, the record of one collection of a flow (its values, then how it
  ended), and order-preserving selection of elements from a sequence.
 */
module Streams {

  /** A nullable value (`T?` in the application). */
  datatype Option<T> = None | Some(value: T)

  /** A `Throwable` that reaches the stream or the caller. */
  datatype Error =
    | UnknownHost(message: string)   // java.net.UnknownHostException
    | ApiFailure(message: string)    // any other failure of a network call

  /** `kotlin.Result`: a success value or the error that was thrown. */
  datatype Result<T> = Success(value: T) | Failure(error: Error)

  /** How one collection of a flow ended. */
  datatype Termination =
    | Completed          // the producer returned normally
    | Failed(error: Error)
    | Cancelled          // the collector stopped listening
    | Open               // still suspended, waiting for more values

  /** Everything a collector observes: the values, in order, then the end. */
  datatype Run<T> = Run(values: seq<T>, end: Termination)

  /** The elements of `xs` whose flag in `keep` is set, in their original order. */
  function Select<T>(xs: seq<T>, keep: seq<bool>): (r: seq<T>)
    requires |keep| == |xs|
    ensures |r| <= |xs|
  {
    if xs == [] then []
    else (if keep[0] then [xs[0]] else []) + Select(xs[1..], keep[1..])
  }

  /** `r` can be obtained from `xs` by deleting elements, without reordering. */
  ghost predicate IsSubsequence<T>(r: seq<T>, xs: seq<T>)
    decreases |xs|
  {
    if r == [] then true
    else if xs == [] then false
    else (r[0] == xs[0] && IsSubsequence(r[1..], xs[1..])) || IsSubsequence(r, xs[1..])
  }

  /**
    Selecting from position `i` on, after what was already selected: element
    `i` joins the selection if its flag is set, then the rest follows.
   */
  lemma SelectAfter<T>(selected: seq<T>, xs: seq<T>, keep: seq<bool>, i: nat)
    requires |keep| == |xs| && i < |xs|
    ensures selected + Select(xs[i..], keep[i..])
         == (if keep[i] then selected + [xs[i]] else selected) + Select(xs[i + 1..], keep[i + 1..])
  {
    assert xs[i..][1..] == xs[i + 1..] && keep[i..][1..] == keep[i + 1..];
  }

  /** Selecting never reorders nor invents elements. */
  lemma {:induction false} SelectIsSubsequence<T>(xs: seq<T>, keep: seq<bool>)
    requires |keep| == |xs|
    ensures IsSubsequence(Select(xs, keep), xs)
  {
    if xs != [] {
      SelectIsSubsequence(xs[1..], keep[1..]);
      var rest := Select(xs[1..], keep[1..]);
      if keep[0] {
        var r := [xs[0]] + rest;
        assert r[0] == xs[0] && r[1..] == rest;
      } else {
        assert Select(xs, keep) == rest;
      }
    }
  }

  /** Selecting everything gives the sequence back. */
  lemma {:induction false} SelectAll<T>(xs: seq<T>, keep: seq<bool>)
    requires |keep| == |xs|
    requires forall i :: 0 <= i < |keep| ==> keep[i]
    ensures Select(xs, keep) == xs
  {
    if xs != [] {
      SelectAll(xs[1..], keep[1..]);
    }
  }

  /** Selecting nothing gives the empty sequence. */
  lemma {:induction false} SelectNone<T>(xs: seq<T>, keep: seq<bool>)
    requires |keep| == |xs|
    requires forall i :: 0 <= i < |keep| ==> !keep[i]
    ensures Select(xs, keep) == []
  {
    if xs != [] {
      SelectNone(xs[1..], keep[1..]);
    }
  }

  /** Selecting from two sequences laid end to end is selecting from each in turn. */
  lemma {:induction false} SelectAppend<T>(xs: seq<T>, ys: seq<T>, ks: seq<bool>, ls: seq<bool>)
    requires |ks| == |xs| && |ls| == |ys|
    ensures Select(xs + ys, ks + ls) == Select(xs, ks) + Select(ys, ls)
  {
    if xs != [] {
      SelectAppend(xs[1..], ys, ks[1..], ls);
      assert (xs + ys)[1..] == xs[1..] + ys && (ks + ls)[1..] == ks[1..] + ls;
    } else {
      assert xs + ys == ys && ks + ls == ls;
    }
  }

  /** Select distributes over a split of the input at any point. */
  lemma {:induction false} SelectSplit<T>(xs: seq<T>, keep: seq<bool>, i: nat)
    requires |keep| == |xs| && i <= |xs|
    ensures Select(xs, keep) == Select(xs[..i], keep[..i]) + Select(xs[i..], keep[i..])
  {
    if i > 0 {
      SelectSplit(xs[1..], keep[1..], i - 1);
      assert xs[1..][..i - 1] == xs[..i][1..];
      assert keep[1..][..i - 1] == keep[..i][1..];
      assert xs[1..][i - 1..] == xs[i..];
      assert keep[1..][i - 1..] == keep[i..];
    } else {
      assert xs[..0] == [] && xs[0..] == xs && keep[0..] == keep;
    }
  }
}
