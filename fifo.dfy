/**
 * The bounded history that both MetricsBuffer (core/monitor.py) and
 * DataBuffer (utils/helpers.py) keep in a Python list: `append` followed by
 * a single `pop(0)` when the list is longer than `max_size`, and the read
 * `buffer[-n:]`.
 */
module Fifo {

  /** The longest a buffer with this `max_size` gets when it starts empty. */
  function Capacity(maxSize: int): nat
  {
    if maxSize > 0 then maxSize else 0
  }

  /** The last `min(k, |s|)` elements of `s`, oldest first. */
  function Last<T>(s: seq<T>, k: nat): (r: seq<T>)
    ensures |r| == if k < |s| then k else |s|
    ensures forall i :: 0 <= i < |r| ==> r[i] == s[|s| - |r| + i]
  {
    if k < |s| then s[|s| - k..] else s
  }

  /** One `add`: append `x`, then evict index 0 if the list exceeds `maxSize`. */
  function Append<T>(s: seq<T>, x: T, maxSize: int): (r: seq<T>)
    ensures |s| <= Capacity(maxSize) ==> |r| <= Capacity(maxSize)
    ensures |s| <= Capacity(maxSize) ==> r == Last(s + [x], Capacity(maxSize))
    ensures r != [] ==> r[|r| - 1] == x
  {
    if |s| + 1 > maxSize then (s + [x])[1..] else s + [x]
  }

  /** Successive `add`s of the elements of `xs`, in order. */
  function AppendAll<T>(s: seq<T>, xs: seq<T>, maxSize: int): seq<T>
    decreases |xs|
  {
    if xs == [] then s
    else Append(AppendAll(s, xs[..|xs| - 1], maxSize), xs[|xs| - 1], maxSize)
  }

  /** Trimming before or after appending one more element gives the same window. */
  lemma LastOfAppended<T>(h: seq<T>, x: T, k: nat)
    ensures Last(Last(h, k) + [x], k) == Last(h + [x], k)
  {
    if 0 < k <= |h| {
      assert Last(h, k) + [x] == h[|h| - k..] + [x];
      assert (h[|h| - k..] + [x])[1..] == (h + [x])[|h| + 1 - k..];
    }
  }

  /** Splitting off the last element of `xs` and putting it back. */
  lemma ConcatLast<T>(s: seq<T>, xs: seq<T>)
    requires xs != []
    ensures s + xs[..|xs| - 1] + [xs[|xs| - 1]] == s + xs
  {
    assert xs[..|xs| - 1] + [xs[|xs| - 1]] == xs;
  }

  /**
   * A buffer that respects its capacity and then receives `xs` holds exactly
   * the newest `Capacity(maxSize)` elements of its old contents followed by `xs`.
   */
  lemma {:induction false} AppendAllKeepsNewest<T>(s: seq<T>, xs: seq<T>, maxSize: int)
    requires |s| <= Capacity(maxSize)
    ensures AppendAll(s, xs, maxSize) == Last(s + xs, Capacity(maxSize))
    ensures |AppendAll(s, xs, maxSize)| <= Capacity(maxSize)
    decreases |xs|
  {
    if xs == [] {
      assert s + xs == s;
    } else {
      var init, x := xs[..|xs| - 1], xs[|xs| - 1];
      AppendAllKeepsNewest(s, init, maxSize);
      LastOfAppended(s + init, x, Capacity(maxSize));
      ConcatLast(s, xs);
    }
  }

  /**
   * After M adds to an empty buffer its length is `min(M, capacity)` and it
   * holds the last `min(M, capacity)` items added, in insertion order.
   */
  lemma AddsToEmpty<T>(xs: seq<T>, maxSize: int)
    ensures AppendAll([], xs, maxSize) == Last(xs, Capacity(maxSize))
    ensures |AppendAll([], xs, maxSize)| == if |xs| < Capacity(maxSize) then |xs| else Capacity(maxSize)
  {
    AppendAllKeepsNewest([], xs, maxSize);
    assert [] + xs == xs;
  }

  /** Python's `s[k:]` for any integer `k` (negative `k` counts from the end). */
  function SliceFrom<T>(s: seq<T>, k: int): (r: seq<T>)
    ensures k >= 0 ==> |r| == if k < |s| then |s| - k else 0
    ensures k < 0 ==> |r| == if -k < |s| then -k else |s|
    ensures forall i :: 0 <= i < |r| ==> r[i] == s[|s| - |r| + i]
  {
    if k < 0 then (if -k < |s| then s[|s| + k..] else s)
    else (if k < |s| then s[k..] else [])
  }

  /**
   * `get_last_n(n)`, i.e. `buffer[-n:]`: the newest `min(n, len)` items for
   * n >= 1, the whole buffer for n == 0 (because `-0 == 0`), and the buffer
   * without its first `-n` items for n < 0.
   */
  function LastN<T>(s: seq<T>, n: int): (r: seq<T>)
    ensures n >= 1 ==> r == Last(s, n)
    ensures n == 0 ==> r == s
    ensures n < 0 ==> r == (if -n < |s| then s[-n..] else [])
  {
    SliceFrom(s, -n)
  }
}
