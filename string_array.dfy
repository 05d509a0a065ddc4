/** The temporary string column built while reading baskets: a packed byte buffer
    delimited by offsets. It is never changed after construction, so it is a value. */
module StringArrays {
  import opened Bytes
  import opened Sequences

  datatype StringArray = StringArray(offsets: seq<int>, content: seq<byte>)
  {
    /** The offsets are non-decreasing and delimit ranges inside the content. */
    predicate Valid()
    {
      |offsets| >= 1 && 0 <= offsets[0] && offsets[|offsets| - 1] <= |content| &&
      forall i, j :: 0 <= i <= j < |offsets| ==> offsets[i] <= offsets[j]
    }

    /** A packed column: offsets start at zero and end at the content length. */
    predicate Packed()
    {
      Valid() && offsets[0] == 0 && offsets[|offsets| - 1] == |content|
    }

    /** The number of strings (`__len__`). */
    function Len(): (n: int)
      ensures n < |offsets|
      ensures Valid() ==> 0 <= n
    {
      |offsets| - 1
    }

    /** String i (`__getitem__`): the bytes between offset i and offset i + 1. */
    function Get(i: int): (s: seq<byte>)
      requires Valid() && 0 <= i < Len()
      ensures |s| == offsets[i + 1] - offsets[i]
      ensures offsets[i] + |s| <= |content|
    {
      content[offsets[i]..offsets[i + 1]]
    }

    /** The logical strings of the column, in order. */
    function Strings(): (ss: seq<seq<byte>>)
      requires Valid()
      ensures |ss| == Len()
    {
      seq(Len(), i requires 0 <= i < Len() => Get(i))
    }

    /** `__iter__`: one pass with a running cursor that starts at the first offset. */
    method Iterate() returns (ss: seq<seq<byte>>)
      requires Valid()
      ensures |ss| == Len()
      ensures forall i :: 0 <= i < Len() ==> ss[i] == Get(i)
    {
      var start := offsets[0];
      ss := [];
      for k := 1 to |offsets|
        invariant start == offsets[k - 1]
        invariant |ss| == k - 1
        invariant forall i :: 0 <= i < k - 1 ==> ss[i] == Get(i)
      {
        var stop := offsets[k];
        ss := ss + [content[start..stop]];
        start := stop;
      }
    }
  }

  /** The packed column holding `ss`. */
  function FromStrings(ss: seq<seq<byte>>): StringArray
  {
    StringArray(OffsetsOf(ss), Concat(ss))
  }

  /** The strings i until j of a column, laid end to end, are the content between offsets i and j. */
  lemma {:induction false} ConcatRange(a: StringArray, i: int, j: int)
    requires a.Valid() && 0 <= i <= j <= a.Len()
    ensures Concat(a.Strings()[i..j]) == a.content[a.offsets[i]..a.offsets[j]]
  {
    if i == j {
      assert a.Strings()[i..j] == [];
    } else {
      ConcatRange(a, i, j - 1);
      assert a.Strings()[i..j] == a.Strings()[i..j - 1] + [a.Get(j - 1)];
      ConcatAppend(a.Strings()[i..j - 1], [a.Get(j - 1)]);
      ConcatSingle(a.Get(j - 1));
    }
  }

  /** Building a column from strings and reading it back gives the same strings, and the column is packed. */
  lemma FromStringsStrings(ss: seq<seq<byte>>)
    ensures FromStrings(ss).Packed()
    ensures FromStrings(ss).Len() == |ss|
    ensures FromStrings(ss).Strings() == ss
  {
    var a := FromStrings(ss);
    OffsetsMeasure(ss, 0);
    OffsetsMeasure(ss, |ss|);
    assert ss[..|ss|] == ss;
    forall i, j | 0 <= i <= j < |a.offsets|
      ensures a.offsets[i] <= a.offsets[j]
    {
      OffsetsMeasure(ss, i);
      OffsetsMeasure(ss, j);
      assert ss[..j] == ss[..i] + ss[i..j];
      ConcatAppend(ss[..i], ss[i..j]);
    }
    assert a.Valid();
    forall i | 0 <= i < |ss|
      ensures a.Get(i) == ss[i]
    {
      ConcatSlice(ss, i);
    }
  }

  /** Every packed column is the column built from its own strings. */
  lemma StringsFromStrings(a: StringArray)
    requires a.Packed()
    ensures FromStrings(a.Strings()) == a
  {
    var ss := a.Strings();
    var b := FromStrings(ss);
    forall i | 0 <= i <= |ss|
      ensures b.offsets[i] == a.offsets[i]
    {
      OffsetsMeasure(ss, i);
      assert ss[..i] == ss[0..i];
      ConcatRange(a, 0, i);
    }
    OffsetsMeasure(ss, 0);
    assert b.offsets == a.offsets;
    ConcatRange(a, 0, a.Len());
    assert ss[0..a.Len()] == ss;
  }
}
