/** Byte ranges of a buffer and the two facts the indexed basket decoder rests on:
    a running sum of +1 at every range start and -1 at every range stop marks exactly
    the covered positions, and keeping the marked positions of a buffer lays the ranges
    end to end. */
module Spans {
  import opened Sequences

  /** The ranges [starts[i], stops[i]) lie inside a buffer of `len` elements, in increasing
      order, each ending strictly before the next one starts. */
  ghost predicate Ordered(starts: seq<int>, stops: seq<int>, len: int)
  {
    |starts| == |stops| &&
    (forall i :: 0 <= i < |starts| ==> 0 <= starts[i] <= stops[i] <= len) &&
    (forall i, j :: 0 <= i < j < |starts| ==> stops[i] < starts[j])
  }

  /** How many elements of `s` equal `x`. */
  function Marks(s: seq<int>, x: int): nat
  {
    if s == [] then 0 else Marks(s[..|s| - 1], x) + (if s[|s| - 1] == x then 1 else 0)
  }

  function Bit(b: bool): int
  {
    if b then 1 else 0
  }

  /** Position x lies in one of the ranges. */
  ghost predicate InSpan(starts: seq<int>, stops: seq<int>, x: int)
    requires |starts| == |stops|
  {
    exists i :: 0 <= i < |starts| && starts[i] <= x < stops[i]
  }

  /** The strings the ranges delimit. */
  function SpanStrings<T>(data: seq<T>, starts: seq<int>, stops: seq<int>): (r: seq<seq<T>>)
    requires |starts| == |stops|
    requires forall i :: 0 <= i < |starts| ==> 0 <= starts[i] <= stops[i] <= |data|
    ensures |r| == |starts|
  {
    seq(|starts|, i requires 0 <= i < |starts| => data[starts[i]..stops[i]])
  }

  lemma {:induction false} MarksPositive(s: seq<int>, x: int)
    ensures Marks(s, x) > 0 <==> exists i :: 0 <= i < |s| && s[i] == x
  {
    if s != [] {
      var init := s[..|s| - 1];
      MarksPositive(init, x);
      if exists i :: 0 <= i < |init| && init[i] == x {
        var i :| 0 <= i < |init| && init[i] == x;
        assert s[i] == x;
      }
      if exists i :: 0 <= i < |s| && s[i] == x {
        var i :| 0 <= i < |s| && s[i] == x;
        if i < |s| - 1 {
          assert init[i] == x;
        }
      }
    }
  }

  /** In a strictly increasing sequence every value occurs at most once. */
  lemma {:induction false} MarksAtMostOne(s: seq<int>, x: int)
    requires forall i, j :: 0 <= i < j < |s| ==> s[i] < s[j]
    ensures Marks(s, x) <= 1
    ensures Marks(s, x) == 1 <==> exists i :: 0 <= i < |s| && s[i] == x
  {
    MarksPositive(s, x);
    if s != [] {
      var init := s[..|s| - 1];
      MarksAtMostOne(init, x);
      if s[|s| - 1] == x {
        assert forall i :: 0 <= i < |init| ==> init[i] < x;
        MarksPositive(init, x);
      }
    }
  }

  /** Moving one position to the right changes coverage by +1 at a range start and -1 at a range stop. */
  lemma CoverStep(starts: seq<int>, stops: seq<int>, len: int, x: int)
    requires Ordered(starts, stops, len) && 0 <= x
    ensures Bit(InSpan(starts, stops, x)) ==
      Bit(InSpan(starts, stops, x - 1)) + Bit(Marks(starts, x) > 0) - Marks(stops, x)
  {
    MarksPositive(starts, x);
    MarksAtMostOne(stops, x);
    if InSpan(starts, stops, x) {
      CoverInside(starts, stops, len, x);
    } else if InSpan(starts, stops, x - 1) {
      CoverLeaving(starts, stops, len, x);
    } else {
      CoverOutside(starts, stops, len, x);
    }
  }

  /** A covered position is no range's stop, and it is a range's start exactly when the
      position before it is not covered. */
  lemma CoverInside(starts: seq<int>, stops: seq<int>, len: int, x: int)
    requires Ordered(starts, stops, len) && InSpan(starts, stops, x)
    ensures !exists j :: 0 <= j < |stops| && stops[j] == x
    ensures InSpan(starts, stops, x - 1) <==> !exists j :: 0 <= j < |starts| && starts[j] == x
  {
    var n := |starts|;
    var i :| 0 <= i < n && starts[i] <= x < stops[i];
    assert forall j :: 0 <= j < n ==> stops[j] != x;
    if x == starts[i] {
      assert forall j :: 0 <= j < n ==> !(starts[j] <= x - 1 < stops[j]);
    } else {
      assert starts[i] <= x - 1 < stops[i];
      assert forall j :: 0 <= j < n ==> starts[j] != x;
    }
  }

  /** A position just past the last covered one is a range's stop and no range's start. */
  lemma CoverLeaving(starts: seq<int>, stops: seq<int>, len: int, x: int)
    requires Ordered(starts, stops, len) && !InSpan(starts, stops, x) && InSpan(starts, stops, x - 1)
    ensures exists j :: 0 <= j < |stops| && stops[j] == x
    ensures !exists j :: 0 <= j < |starts| && starts[j] == x
  {
    var n := |starts|;
    var i :| 0 <= i < n && starts[i] <= x - 1 < stops[i];
    assert stops[i] == x;
    assert forall j :: 0 <= j < n ==> starts[j] != x;
  }

  /** Away from any range, a position starts a range exactly when it stops one (an empty range). */
  lemma CoverOutside(starts: seq<int>, stops: seq<int>, len: int, x: int)
    requires Ordered(starts, stops, len) && !InSpan(starts, stops, x) && !InSpan(starts, stops, x - 1)
    ensures (exists j :: 0 <= j < |starts| && starts[j] == x) <==> (exists j :: 0 <= j < |stops| && stops[j] == x)
  {
    var n := |starts|;
    assert forall j :: 0 <= j < n && starts[j] == x ==> stops[j] == x;
    assert forall j :: 0 <= j < n && stops[j] == x ==> starts[j] == x;
  }

  /** The running sum of the marks, up to position x, is 1 exactly where x is covered. */
  lemma {:induction false} CoverPrefix(starts: seq<int>, stops: seq<int>, m: seq<int>, x: int)
    requires Ordered(starts, stops, |m|) && 0 <= x < |m|
    requires forall y :: 0 <= y < |m| ==> m[y] == Bit(Marks(starts, y) > 0) - Marks(stops, y)
    ensures Cumsum(m)[x] == Bit(InSpan(starts, stops, x))
  {
    CoverStep(starts, stops, |m|, x);
    CumsumAt(m, x);
    if x == 0 {
      assert !InSpan(starts, stops, -1);
    } else {
      CoverPrefix(starts, stops, m, x - 1);
    }
  }

  /** `numpy.cumsum` of +1 at range starts and -1 at range stops is the coverage of the ranges. */
  lemma CoverCumsum(starts: seq<int>, stops: seq<int>, m: seq<int>)
    requires Ordered(starts, stops, |m|)
    requires forall y :: 0 <= y < |m| ==> m[y] == Bit(Marks(starts, y) > 0) - Marks(stops, y)
    ensures forall x :: 0 <= x < |m| ==> Cumsum(m)[x] == Bit(InSpan(starts, stops, x))
  {
    forall x | 0 <= x < |m| {
      CoverPrefix(starts, stops, m, x);
    }
  }

  /** The elements of `data` whose `keep` entry is non-zero, in order (boolean-mask indexing). */
  function Picked<T>(data: seq<T>, keep: seq<int>): (r: seq<T>)
    requires |keep| == |data|
    ensures |r| <= |data|
  {
    if data == [] then []
    else Picked(data[..|data| - 1], keep[..|data| - 1]) + (if keep[|data| - 1] != 0 then [data[|data| - 1]] else [])
  }

  lemma {:induction false} PickedAppend<T>(a: seq<T>, ka: seq<int>, b: seq<T>, kb: seq<int>)
    requires |ka| == |a| && |kb| == |b|
    ensures Picked(a + b, ka + kb) == Picked(a, ka) + Picked(b, kb)
  {
    if b == [] {
      assert a + b == a && ka + kb == ka;
    } else {
      var n := |b| - 1;
      assert (a + b)[..|a + b| - 1] == a + b[..n];
      assert (ka + kb)[..|a + b| - 1] == ka + kb[..n];
      PickedAppend(a, ka, b[..n], kb[..n]);
    }
  }

  lemma {:induction false} PickedNone<T>(a: seq<T>, ka: seq<int>)
    requires |ka| == |a| && forall y :: 0 <= y < |ka| ==> ka[y] == 0
    ensures Picked(a, ka) == []
  {
    if a != [] {
      PickedNone(a[..|a| - 1], ka[..|a| - 1]);
    }
  }

  lemma {:induction false} PickedAll<T>(a: seq<T>, ka: seq<int>)
    requires |ka| == |a| && forall y :: 0 <= y < |ka| ==> ka[y] != 0
    ensures Picked(a, ka) == a
  {
    if a != [] {
      PickedAll(a[..|a| - 1], ka[..|a| - 1]);
      assert a[..|a| - 1] + [a[|a| - 1]] == a;
    }
  }

  /** Where range k - 1 ends, or 0 before the first range. */
  function EndOf(stops: seq<int>, k: int): int
    requires 0 <= k <= |stops|
  {
    if k == 0 then 0 else stops[k - 1]
  }

  /** Between the end of range k - 1 and the start of range k (or the end of the buffer) nothing is covered. */
  lemma Uncovered(starts: seq<int>, stops: seq<int>, len: int, k: int, y: int)
    requires Ordered(starts, stops, len) && 0 <= k <= |starts|
    requires EndOf(stops, k) <= y && (k < |starts| ==> y < starts[k])
    ensures !InSpan(starts, stops, y)
  {
    forall j | 0 <= j < |starts|
      ensures !(starts[j] <= y < stops[j])
    {
      if j < k - 1 {
        assert stops[j] < starts[k - 1] <= stops[k - 1];
      }
    }
  }

  /** Selection over three adjacent pieces of a buffer. */
  lemma PickedThree<T>(data: seq<T>, keep: seq<int>, e: int, lo: int, hi: int)
    requires |keep| == |data| && 0 <= e <= lo <= hi <= |data|
    ensures Picked(data[..hi], keep[..hi]) ==
      Picked(data[..e], keep[..e]) + Picked(data[e..lo], keep[e..lo]) + Picked(data[lo..hi], keep[lo..hi])
  {
    assert data[..hi] == (data[..e] + data[e..lo]) + data[lo..hi];
    assert keep[..hi] == (keep[..e] + keep[e..lo]) + keep[lo..hi];
    assert data[..lo] == data[..e] + data[e..lo];
    assert keep[..lo] == keep[..e] + keep[e..lo];
    PickedAppend(data[..lo], keep[..lo], data[lo..hi], keep[lo..hi]);
    PickedAppend(data[..e], keep[..e], data[e..lo], keep[e..lo]);
  }

  lemma ConcatPrefixStep<T>(ss: seq<seq<T>>, k: int)
    requires 0 < k <= |ss|
    ensures Concat(ss[..k]) == Concat(ss[..k - 1]) + ss[k - 1]
  {
    assert ss[..k] == ss[..k - 1] + [ss[k - 1]];
    ConcatAppend(ss[..k - 1], [ss[k - 1]]);
    ConcatSingle(ss[k - 1]);
  }

  /** Keeping the covered positions before the end of range k yields the first k strings end to end. */
  lemma {:induction false} PickedUpTo<T>(data: seq<T>, keep: seq<int>, starts: seq<int>, stops: seq<int>, k: int)
    requires |keep| == |data| && Ordered(starts, stops, |data|) && 0 <= k <= |starts|
    requires forall y :: 0 <= y < |data| ==> keep[y] == Bit(InSpan(starts, stops, y))
    ensures Picked(data[..EndOf(stops, k)], keep[..EndOf(stops, k)]) == Concat(SpanStrings(data, starts, stops)[..k])
  {
    var strs := SpanStrings(data, starts, stops);
    if k == 0 {
      assert strs[..0] == [];
      assert data[..0] == [];
    } else {
      PickedUpTo(data, keep, starts, stops, k - 1);
      var e, lo, hi := EndOf(stops, k - 1), starts[k - 1], stops[k - 1];
      assert e <= lo;
      var gapKeep := keep[e..lo];
      forall y | 0 <= y < |gapKeep|
        ensures gapKeep[y] == 0
      {
        Uncovered(starts, stops, |data|, k - 1, e + y);
      }
      var strKeep := keep[lo..hi];
      forall y | 0 <= y < |strKeep|
        ensures strKeep[y] != 0
      {
        assert starts[k - 1] <= lo + y < stops[k - 1];
      }
      PickedNone(data[e..lo], gapKeep);
      PickedAll(data[lo..hi], strKeep);
      PickedThree(data, keep, e, lo, hi);
      ConcatPrefixStep(strs, k);
    }
  }

  /** Boolean-mask selection with the coverage of ordered ranges lays the ranges' strings end to end. */
  lemma PickedSpans<T>(data: seq<T>, keep: seq<int>, starts: seq<int>, stops: seq<int>)
    requires |keep| == |data| && Ordered(starts, stops, |data|)
    requires forall y :: 0 <= y < |data| ==> keep[y] == Bit(InSpan(starts, stops, y))
    ensures Picked(data, keep) == Concat(SpanStrings(data, starts, stops))
  {
    var n := |starts|;
    var strs := SpanStrings(data, starts, stops);
    PickedUpTo(data, keep, starts, stops, n);
    var e := EndOf(stops, n);
    var tailKeep := keep[e..];
    forall y | 0 <= y < |tailKeep|
      ensures tailKeep[y] == 0
    {
      Uncovered(starts, stops, |data|, n, e + y);
    }
    PickedNone(data[e..], tailKeep);
    PickedThree(data, keep, e, |data|, |data|);
    assert data[..|data|] == data && keep[..|data|] == keep;
    assert data[|data|..|data|] == [] && keep[|data|..|data|] == [];
    assert strs[..n] == strs;
  }
}
