/** The unindexed scan of `basket_array` as it is written, with numpy's slicing rules:
    slices are clipped to the array, and assigning a one-element slice to a longer one
    repeats that element. The scan never checks that a declared size fits what is left:
    a prefix cut short fails to unpack, a remainder of no byte or of two or more bytes
    that numpy cannot fit into the slice fails too (both are `None` here), and a
    one-byte remainder is repeated into a column that the basket does not hold. */
module SourceScan {
  import opened Wrappers
  import opened Bytes
  import opened Sequences
  import opened StringArrays
  import opened LengthPrefix
  import opened UnindexedDecoder

  function Min(a: int, b: int): int
  {
    if a < b then a else b
  }

  /** `n` copies of `x`: a one-element array broadcast to length `n`. */
  function Repeat(n: nat, x: byte): (r: seq<byte>)
    ensures |r| == n && forall i :: 0 <= i < n ==> r[i] == x
  {
    if n == 0 then [] else [x] + Repeat(n - 1, x)
  }

  /** `dst[lo:lo + size] = src` on a numpy array: the target is clipped to the array; a source
      of the same length is copied, a source of one element is repeated, and any other source
      raises (None). */
  function AssignSlice(dst: seq<byte>, lo: nat, size: nat, src: seq<byte>): (r: Option<seq<byte>>)
    ensures r.Some? ==> |r.value| == |dst|
    ensures r.Some? <==> |src| == Min(lo + size, |dst|) - Min(lo, |dst|) || |src| == 1
    ensures r.Some? ==> r.value[..Min(lo, |dst|)] == dst[..Min(lo, |dst|)]
  {
    var a, b := Min(lo, |dst|), Min(lo + size, |dst|);
    if |src| == b - a then Some(dst[..a] + src + dst[b..])
    else if |src| == 1 then Some(dst[..a] + Repeat(b - a, src[0]) + dst[b..])
    else None
  }

  /** One turn of the scan loop as written at `pos`: where the next record starts, the size its
      prefix declares and the content buffer after the copy; None where the source raises (a
      four-byte length cut short, or a slice assignment numpy refuses). */
  function StepAsWritten(data: seq<byte>, pos: nat, mode: LengthBytes, outdata: seq<byte>, lenOutdata: nat)
    : (r: Option<(nat, nat, seq<byte>)>)
    requires pos < |data|
    ensures r.Some? ==> pos < r.value.0 && |r.value.2| == |outdata|
  {
    var prefix := ReadLengthAt(data, pos, mode);
    if prefix.None? then None
    else
      var start := pos + prefix.value.width;
      var size := prefix.value.size;
      var copied := AssignSlice(outdata, lenOutdata, size, data[Min(start, |data|)..Min(start + size, |data|)]);
      if copied.None? then None
      else Some((start + size, size, copied.value))
  }

  /** The scan loop as written, continued from `pos`; `outdata` starts as the uninitialised
      buffer of `numpy.empty`. */
  function ScanAsWritten(data: seq<byte>, pos: nat, mode: LengthBytes, counts: seq<int>, outdata: seq<byte>, lenOutdata: nat)
    : (r: Option<(seq<int>, seq<byte>)>)
    ensures r.Some? ==> |counts| <= |r.value.0| && r.value.0[..|counts|] == counts
    ensures r.Some? ==> |r.value.1| <= |outdata|
    decreases |data| - pos
  {
    if pos >= |data| then Some((counts, outdata[..Min(lenOutdata, |outdata|)]))
    else
      var step := StepAsWritten(data, pos, mode, outdata, lenOutdata);
      if step.None? then None
      else
        var size := step.value.1;
        ScanAsWritten(data, step.value.0, mode, counts + [size], step.value.2, lenOutdata + size)
  }

  /** `basket_array` without byte offsets, as written; `empty` is what `numpy.empty` left in
      the content buffer. */
  function UnindexedAsWritten(data: seq<byte>, mode: LengthBytes, empty: seq<byte>): (r: Option<StringArray>)
    requires |empty| == |data|
    ensures r.Some? ==> |r.value.offsets| >= 1 && r.value.offsets[0] == 0 && |r.value.content| <= |data|
  {
    match ScanAsWritten(data, 0, mode, [], empty, 0)
    case None => None
    case Some((counts, content)) => Some(StringArray([0] + Cumsum(counts), content))
  }

  /** One turn of the scan loop as written, on a record that fits in the buffer: the copy
      lands at `lenOutdata` and the scan moves on to the end of the record. */
  lemma StepAsWrittenFits(data: seq<byte>, pos: nat, mode: LengthBytes, outdata: seq<byte>,
                          lenOutdata: nat, start: nat, size: nat, out: seq<byte>)
    requires pos < |data| && ReadLengthAt(data, pos, mode).Some?
    requires start == pos + ReadLengthAt(data, pos, mode).value.width
    requires size == ReadLengthAt(data, pos, mode).value.size && start + size <= |data|
    requires AssignSlice(outdata, lenOutdata, size, data[start..start + size]) == Some(out)
    ensures StepAsWritten(data, pos, mode, outdata, lenOutdata) == Some((start + size, size, out))
  {
    assert Min(start, |data|) == start && Min(start + size, |data|) == start + size;
  }

  /** A copy that fits in the buffer: numpy copies the source element by element, right after
      the `content` already in place. */
  lemma CopyFits(outdata: seq<byte>, lenOutdata: nat, content: seq<byte>, src: seq<byte>) returns (out: seq<byte>)
    requires lenOutdata + |src| <= |outdata| && outdata[..lenOutdata] == content
    ensures AssignSlice(outdata, lenOutdata, |src|, src) == Some(out)
    ensures |out| == |outdata| && out[..lenOutdata + |src|] == content + src
  {
    out := content + src + outdata[lenOutdata + |src|..];
    assert Min(lenOutdata, |outdata|) == lenOutdata && Min(lenOutdata + |src|, |outdata|) == lenOutdata + |src|;
    assert (content + src + outdata[lenOutdata + |src|..])[..lenOutdata + |src|] == content + src;
  }

  /** The scan as written goes on from wherever its turn at `pos` leaves it. */
  lemma ScanAsWrittenUnfold(data: seq<byte>, pos: nat, mode: LengthBytes, counts: seq<int>, outdata: seq<byte>,
                            lenOutdata: nat, next: nat, size: nat, out: seq<byte>)
    requires pos < |data| && StepAsWritten(data, pos, mode, outdata, lenOutdata) == Some((next, size, out))
    ensures ScanAsWritten(data, pos, mode, counts, outdata, lenOutdata)
         == ScanAsWritten(data, next, mode, counts + [size], out, lenOutdata + size)
  {
  }

  /** Where the checked scan succeeds, the record at `pos` fits and the scan after it gives the
      same result. */
  lemma OkRecord(data: seq<byte>, pos: nat, mode: LengthBytes, counts: seq<int>, content: seq<byte>,
                 result: (seq<int>, seq<byte>))
    returns (start: nat, size: nat)
    requires pos < |data| && ScanFrom(data, pos, mode, counts, content) == Ok(result)
    ensures ReadLengthAt(data, pos, mode).Some?
    ensures start == pos + ReadLengthAt(data, pos, mode).value.width
    ensures size == ReadLengthAt(data, pos, mode).value.size && start + size <= |data|
    ensures ScanFrom(data, start + size, mode, counts + [size], content + data[start..start + size]) == Ok(result)
  {
    var p := ReadLengthAt(data, pos, mode).value;
    start, size := pos + p.width, p.size;
  }

  /** One record of a buffer whose checked scan succeeds: the scan as written takes the same
      step, with the content so far in place at the head of its buffer. */
  lemma AgreesStep(data: seq<byte>, pos: nat, mode: LengthBytes, counts: seq<int>, content: seq<byte>,
                   outdata: seq<byte>, lenOutdata: nat, result: (seq<int>, seq<byte>))
    returns (next: nat, size: nat, content': seq<byte>, out: seq<byte>)
    requires pos < |data| && |outdata| == |data| && lenOutdata <= pos && outdata[..lenOutdata] == content
    requires ScanFrom(data, pos, mode, counts, content) == Ok(result)
    ensures pos < next <= |data| && lenOutdata + size <= next && |out| == |data| && out[..lenOutdata + size] == content'
    ensures ScanFrom(data, next, mode, counts + [size], content') == Ok(result)
    ensures ScanAsWritten(data, pos, mode, counts, outdata, lenOutdata)
         == ScanAsWritten(data, next, mode, counts + [size], out, lenOutdata + size)
  {
    var start;
    start, size := OkRecord(data, pos, mode, counts, content, result);
    next := start + size;
    var src := data[start..next];
    content' := content + src;
    out := CopyFits(outdata, lenOutdata, content, src);
    StepAsWrittenFits(data, pos, mode, outdata, lenOutdata, start, size, out);
    ScanAsWrittenUnfold(data, pos, mode, counts, outdata, lenOutdata, next, size, out);
  }

  /** On a buffer that decodes, the scan as written does what the checked scan does. */
  lemma {:induction false} ScanAsWrittenAgrees(data: seq<byte>, pos: nat, mode: LengthBytes, counts: seq<int>,
                                               content: seq<byte>, outdata: seq<byte>, lenOutdata: nat,
                                               result: (seq<int>, seq<byte>))
    requires pos <= |data| && |outdata| == |data| && lenOutdata <= pos && outdata[..lenOutdata] == content
    requires ScanFrom(data, pos, mode, counts, content) == Ok(result)
    ensures ScanAsWritten(data, pos, mode, counts, outdata, lenOutdata) == Some(result)
    decreases |data| - pos
  {
    if pos < |data| {
      var next, size, content', out := AgreesStep(data, pos, mode, counts, content, outdata, lenOutdata, result);
      ScanAsWrittenAgrees(data, next, mode, counts + [size], content', out, lenOutdata + size, result);
    } else {
      assert outdata[..Min(lenOutdata, |outdata|)] == content;
    }
  }

  /** On a buffer that decodes, the as-written column is the column of the decoded strings,
      whatever the uninitialised buffer held. */
  lemma UnindexedAsWrittenAgrees(data: seq<byte>, mode: LengthBytes, empty: seq<byte>)
    requires |empty| == |data| && Decode(data, mode).Ok?
    ensures UnindexedAsWritten(data, mode, empty) == Some(FromStrings(Decode(data, mode).value))
  {
    var ss := Decode(data, mode).value;
    assert empty[..0] == [];
    ScanFromDecodes(data, 0, mode, [], []);
    assert data[0..] == data;
    assert [] + Lengths(ss) == Lengths(ss) && [] + Concat(ss) == Concat(ss);
    ScanAsWrittenAgrees(data, 0, mode, [], [], empty, 0, ScanFrom(data, 0, mode, [], []).value);
  }

  /** The truncations the source does report: a one-byte prefix announcing three bytes with
      two left (numpy refuses to fit two bytes into the three-byte slice), and a 255 marker
      whose four-byte length is cut short (the unpack fails). The checked decoder reports
      both as truncations too. */
  lemma TruncationRaises(empty: seq<byte>)
    requires |empty| == 3
    ensures UnindexedAsWritten([3, 97, 98], OneToFive, empty) == None
    ensures UnindexedAsWritten([255, 0, 0], OneToFive, empty) == None
    ensures Decode([3, 97, 98], OneToFive) == Err(Truncated)
    ensures Decode([255, 0, 0], OneToFive) == Err(Truncated)
  {
    var short: seq<byte> := [3, 97, 98];
    assert ReadLengthAt(short, 0, OneToFive) == Some(Prefix(3, 1));
    assert short[Min(1, 3)..Min(4, 3)] == [97, 98];
    assert AssignSlice(empty, 0, 3, [97, 98]).None?;
    assert ReadLength(short, OneToFive) == Some(Prefix(3, 1));
    var cut: seq<byte> := [255, 0, 0];
    assert ReadLengthAt(cut, 0, OneToFive).None?;
    assert ReadLength(cut, OneToFive).None?;
  }

  /** A one-byte prefix announcing five bytes, followed by a single byte: the source repeats
      that byte into the two-byte buffer and returns a column whose only string claims five
      bytes of a two-byte content, where the checked decoder reports the truncation. */
  lemma BroadcastOverrun(empty: seq<byte>)
    requires |empty| == 2
    ensures UnindexedAsWritten([5, 97], OneToFive, empty) == Some(StringArray([0, 5], [97, 97]))
    ensures !StringArray([0, 5], [97, 97]).Valid()
    ensures Decode([5, 97], OneToFive) == Err(Truncated)
  {
    var data: seq<byte> := [5, 97];
    assert ReadLengthAt(data, 0, OneToFive) == Some(Prefix(5, 1));
    assert data[1..2] == [97];
    var src, out: seq<byte> := [97], [97, 97];
    assert data[Min(1, 2)..Min(6, 2)] == src;
    assert Min(0, 2) == 0 && Min(5, 2) == 2;
    assert Repeat(2, 97) == out;
    assert empty[..0] + out + empty[2..] == out;
    assert AssignSlice(empty, 0, 5, src) == Some(out);
    var none: seq<int> := [];
    assert none + [5] == [5];
    assert ScanAsWritten(data, 0, OneToFive, none, empty, 0) == ScanAsWritten(data, 6, OneToFive, [5], out, 5);
    assert out[..Min(5, 2)] == out;
    assert ScanAsWritten(data, 6, OneToFive, [5], out, 5) == Some(([5], out));
    assert UnindexedAsWritten(data, OneToFive, empty) == Some(StringArray([0] + Cumsum([5]), out));
    assert Cumsum([5]) == [5];
    assert [0] + Cumsum([5]) == [0, 5];
    assert ReadLength(data, OneToFive) == Some(Prefix(5, 1));
  }

  /** A one-byte prefix announcing two bytes, followed by a single byte: the source repeats
      that byte and returns a well-formed column holding the string "aa", which the basket
      never contained, where the checked decoder reports the truncation. */
  lemma BroadcastInvents(empty: seq<byte>)
    requires |empty| == 2
    ensures UnindexedAsWritten([2, 97], OneToFive, empty) == Some(StringArray([0, 2], [97, 97]))
    ensures StringArray([0, 2], [97, 97]).Packed() && StringArray([0, 2], [97, 97]).Strings() == [[97, 97]]
    ensures Decode([2, 97], OneToFive) == Err(Truncated)
  {
    var data: seq<byte> := [2, 97];
    assert ReadLengthAt(data, 0, OneToFive) == Some(Prefix(2, 1));
    var src, out: seq<byte> := [97], [97, 97];
    assert data[Min(1, 2)..Min(3, 2)] == src;
    assert Repeat(2, 97) == out;
    assert empty[..0] + out + empty[2..] == out;
    assert AssignSlice(empty, 0, 2, src) == Some(out);
    var none: seq<int> := [];
    assert none + [2] == [2];
    assert ScanAsWritten(data, 0, OneToFive, none, empty, 0) == ScanAsWritten(data, 3, OneToFive, [2], out, 2);
    assert out[..Min(2, 2)] == out;
    assert Cumsum([2]) == [2];
    assert [0] + Cumsum([2]) == [0, 2];
    var a := StringArray([0, 2], out);
    assert a.Get(0) == out;
    assert a.Strings() == [out];
    assert ReadLength(data, OneToFive) == Some(Prefix(2, 1));
  }
}
