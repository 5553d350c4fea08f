/** `collections.deque(maxlen=...)` used as a plot window: appending to a full
    window drops the oldest entry. */
module RollingBuffer {

  /** `ts_buf`, `v_buf`, `vf_buf` are each created with `maxlen=2000`. */
  const PlotWindow: nat := 2000

  /** A deque with a `maxlen`: `items` oldest first. */
  datatype Deque<T> = Deque(cap: nat, items: seq<T>)

  /** A bounded deque never holds more than `cap` items. */
  type Window<T> = d: Deque<T> | |d.items| <= d.cap witness Deque(0, [])

  /** An empty `deque(maxlen=cap)`. */
  function Empty<T>(cap: nat): (w: Window<T>)
    ensures w.cap == cap && w.items == []
  {
    Deque(cap, [])
  }

  /** The last `k` entries of `s`, or all of `s` when it has fewer. */
  function Last<T>(s: seq<T>, k: nat): (r: seq<T>)
    ensures |r| == if |s| <= k then |s| else k
  {
    if |s| <= k then s else s[|s| - k..]
  }

  /** `deque.append(x)`: when full, the leftmost entry is discarded first.
      The result holds the newest `cap` of everything seen so far. */
  function Append<T>(w: Window<T>, x: T): (r: Window<T>)
    ensures r.cap == w.cap
    ensures r.items == Last(w.items + [x], w.cap)
    ensures w.cap > 0 ==> r.items[|r.items| - 1] == x
  {
    var s := w.items + [x];
    if |w.items| < w.cap then Deque(w.cap, s)
    else
      assert |s| - w.cap == 1;
      Deque(w.cap, s[1..])
  }

  /** Appending each of `xs` in turn. */
  function AppendAll<T>(w: Window<T>, xs: seq<T>): (r: Window<T>)
    ensures r.cap == w.cap
    decreases |xs|
  {
    if |xs| == 0 then w
    else Append(AppendAll(w, xs[..|xs| - 1]), xs[|xs| - 1])
  }

  /** Trimming to the last `k` before or after appending one more is the same. */
  lemma {:induction false} LastSnoc<T>(s: seq<T>, x: T, k: nat)
    ensures Last(Last(s, k) + [x], k) == Last(s + [x], k)
  {
    if |s| > k {
      assert Last(s, k) + [x] == (s + [x])[|s| - k..];
      if k > 0 {
        assert (s + [x])[|s| - k..][1..] == (s + [x])[|s| + 1 - k..];
      }
    }
  }

  /** After any appends the window holds the newest `cap` values in arrival
      order: everything older has been evicted, nothing newer is missing. */
  lemma {:induction false} AppendAllKeepsNewest<T>(w: Window<T>, xs: seq<T>)
    ensures AppendAll(w, xs).items == Last(w.items + xs, w.cap)
    decreases |xs|
  {
    if |xs| == 0 {
      assert w.items + xs == w.items;
    } else {
      var xs' := xs[..|xs| - 1];
      var x := xs[|xs| - 1];
      var prev := AppendAll(w, xs');
      assert AppendAll(w, xs).items == Last(prev.items + [x], w.cap);
      assert prev.items == Last(w.items + xs', w.cap) by {
        AppendAllKeepsNewest(w, xs');
      }
      assert Last(Last(w.items + xs', w.cap) + [x], w.cap) == Last(w.items + xs, w.cap) by {
        LastSnoc(w.items + xs', x, w.cap);
        assert w.items + xs == (w.items + xs') + [x];
      }
    }
  }

  /** From empty, after any appends the window holds the last `min(|xs|, cap)`
      values appended, oldest first. */
  lemma {:induction false} FromEmpty<T>(cap: nat, xs: seq<T>)
    ensures AppendAll(Empty(cap), xs).items == Last(xs, cap)
  {
    var e: Window<T> := Empty(cap);
    AppendAllKeepsNewest(e, xs);
    assert e.items + xs == xs;
  }
}
