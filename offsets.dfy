/** The offsets array of a decoded basket: a zero followed by the running sum of the counts. */
module Offsets {
  import opened Sequences

  /** `offsets[0] = 0; numpy.cumsum(counts, out=offsets[1:])`. */
  method OffsetsFromCounts(counts: seq<int>) returns (offsets: seq<int>)
    ensures |offsets| == |counts| + 1 && offsets[0] == 0
    ensures forall i :: 0 <= i < |counts| ==> offsets[i + 1] == offsets[i] + counts[i]
    ensures offsets == [0] + Cumsum(counts)
  {
    var a := new int[|counts| + 1];
    a[0] := 0;
    for i := 0 to |counts|
      invariant a[0] == 0
      invariant forall j :: 0 < j <= i ==> a[j] == Cumsum(counts)[j - 1]
    {
      CumsumAt(counts, i);
      a[i + 1] := a[i] + counts[i];
    }
    offsets := a[..];
    forall i | 0 <= i < |counts|
      ensures offsets[i + 1] == offsets[i] + counts[i]
    {
      CumsumAt(counts, i);
    }
  }
}
