/** `Array.prototype.splice(start, 1)` of the ECMAScript language
    specification, for an integer `start`: the call the store uses to delete
    one item by position. */
module Splice {

  /** The position `splice` actually starts at: a negative start counts back
      from the end and is clamped at 0, a start past the end is clamped to
      the length. */
  function ResolveStart(start: int, len: nat): (k: nat)
    ensures k <= len
  {
    if start < 0 then
      (if len + start < 0 then 0 else len + start)
    else if start > len then len
    else start
  }

  /** `r` is `xs` with exactly the element at position `k` taken out:
      everything before `k` stays put and everything after moves down one. */
  ghost predicate RemovedAt<T>(xs: seq<T>, r: seq<T>, k: nat) {
    && k < |xs|
    && |r| + 1 == |xs|
    && (forall j :: 0 <= j < k ==> r[j] == xs[j])
    && (forall j :: k <= j < |r| ==> r[j] == xs[j + 1])
  }

  /** Removal of the element at a position, when there is one. */
  function RemoveAt<T>(xs: seq<T>, k: nat): (r: seq<T>)
    requires k < |xs|
    ensures RemovedAt(xs, r, k)
    ensures multiset(r) + multiset{xs[k]} == multiset(xs)
  {
    assert xs == xs[..k] + [xs[k]] + xs[k + 1..];
    xs[..k] + xs[k + 1..]
  }

  /** `xs.splice(start, 1)`, returning the array afterwards. */
  function SpliceOne<T>(xs: seq<T>, start: int): (r: seq<T>)
    ensures 0 <= start < |xs| ==> RemovedAt(xs, r, start)
    ensures start >= |xs| ==> r == xs
    ensures start < 0 && 0 <= |xs| + start ==> RemovedAt(xs, r, |xs| + start)
    ensures |xs| + start < 0 && |xs| > 0 ==> RemovedAt(xs, r, 0)
    ensures |xs| == 0 ==> r == xs
  {
    var k := ResolveStart(start, |xs|);
    if k < |xs| then RemoveAt(xs, k) else xs
  }

  /** Inserting at position `k`; the inverse of RemoveAt. */
  function InsertAt<T>(xs: seq<T>, k: nat, x: T): (r: seq<T>)
    requires k <= |xs|
    ensures |r| == |xs| + 1 && r[k] == x
    ensures RemovedAt(r, xs, k)
  {
    xs[..k] + [x] + xs[k..]
  }

  /** RemovedAt pins down the result completely: it holds of exactly one
      sequence. */
  lemma RemovedAtUnique<T>(xs: seq<T>, r1: seq<T>, r2: seq<T>, k: nat)
    requires RemovedAt(xs, r1, k) && RemovedAt(xs, r2, k)
    ensures r1 == r2
  {
  }

  /** Putting the removed element back where it was restores the sequence. */
  lemma RemoveInsertRoundTrip<T>(xs: seq<T>, k: nat)
    requires k < |xs|
    ensures InsertAt(RemoveAt(xs, k), k, xs[k]) == xs
  {
  }

  /** Removing what was just inserted gives back the original sequence. */
  lemma InsertRemoveRoundTrip<T>(xs: seq<T>, k: nat, x: T)
    requires k <= |xs|
    ensures RemoveAt(InsertAt(xs, k, x), k) == xs
  {
  }
}
