/** Concatenation of byte strings and running sums: the two operations that turn
    a list of strings into a packed offsets/content pair. */
module Sequences {
  /** The strings laid end to end (Python's b"".join). */
  function Concat<T>(ss: seq<seq<T>>): seq<T>
  {
    if ss == [] then [] else ss[0] + Concat(ss[1..])
  }

  lemma {:induction false} ConcatAppend<T>(a: seq<seq<T>>, b: seq<seq<T>>)
    ensures Concat(a + b) == Concat(a) + Concat(b)
  {
    if a == [] {
      assert a + b == b;
    } else {
      assert (a + b)[1..] == a[1..] + b;
      ConcatAppend(a[1..], b);
    }
  }

  lemma ConcatSingle<T>(s: seq<T>)
    ensures Concat([s]) == s
  {
    assert [s][1..] == [];
  }

  /** The byte length of each string. */
  function Lengths<T>(ss: seq<seq<T>>): (r: seq<int>)
    ensures |r| == |ss|
  {
    seq(|ss|, i requires 0 <= i < |ss| => |ss[i]|)
  }

  /** Inclusive running sum (numpy.cumsum): element j is s[0] + ... + s[j]. */
  function Cumsum(s: seq<int>): (r: seq<int>)
    ensures |r| == |s|
  {
    if s == [] then []
    else
      var p := Cumsum(s[..|s| - 1]);
      p + [(if p == [] then 0 else p[|p| - 1]) + s[|s| - 1]]
  }

  /** The running sum starts at the first element and then adds one element per step. */
  lemma {:induction false} CumsumAt(s: seq<int>, j: int)
    requires 0 <= j < |s|
    ensures Cumsum(s)[j] == (if j == 0 then s[0] else Cumsum(s)[j - 1] + s[j])
  {
    var init := s[..|s| - 1];
    if j < |s| - 1 {
      CumsumAt(init, j);
      assert init[j] == s[j];
    }
  }

  /** The offsets of a packed column holding `ss`: a leading zero, then the running sum of lengths. */
  function OffsetsOf<T>(ss: seq<seq<T>>): seq<int>
  {
    [0] + Cumsum(Lengths(ss))
  }

  /** Offset i of a packed column is the total length of the strings before string i. */
  lemma {:induction false} OffsetsMeasure<T>(ss: seq<seq<T>>, i: int)
    requires 0 <= i <= |ss|
    ensures |OffsetsOf(ss)| == |ss| + 1
    ensures OffsetsOf(ss)[i] == |Concat(ss[..i])|
  {
    if i == 0 {
      assert ss[..0] == [];
    } else {
      OffsetsMeasure(ss, i - 1);
      assert ss[..i] == ss[..i - 1] + [ss[i - 1]];
      ConcatAppend(ss[..i - 1], [ss[i - 1]]);
      ConcatSingle(ss[i - 1]);
      assert Lengths(ss)[i - 1] == |ss[i - 1]|;
      CumsumAt(Lengths(ss), i - 1);
    }
  }

  /** The bytes between offsets i and i + 1 of a packed column are exactly string i. */
  lemma ConcatSlice<T>(ss: seq<seq<T>>, i: int)
    requires 0 <= i < |ss|
    ensures |OffsetsOf(ss)| == |ss| + 1
    ensures 0 <= OffsetsOf(ss)[i] <= OffsetsOf(ss)[i + 1] <= |Concat(ss)|
    ensures Concat(ss)[OffsetsOf(ss)[i]..OffsetsOf(ss)[i + 1]] == ss[i]
  {
    OffsetsMeasure(ss, i);
    OffsetsMeasure(ss, i + 1);
    assert ss[..i + 1] == ss[..i] + [ss[i]];
    ConcatAppend(ss[..i], [ss[i]]);
    ConcatSingle(ss[i]);
    assert ss == ss[..i + 1] + ss[i + 1..];
    ConcatAppend(ss[..i + 1], ss[i + 1..]);
  }
}
