/** `AsStrings.basket_array` when the basket carries byte offsets: every entry's
    length prefix is skipped by arithmetic on the offsets, and the string bytes are
    gathered with a boolean mask built from +1 at each string start and -1 at each
    string stop. */
module IndexedDecoder {
  import opened Wrappers
  import opened Bytes
  import opened Sequences
  import opened Spans
  import opened StringArrays
  import opened LengthPrefix
  import opened Offsets

  /** The number of entries a basket's byte offsets delimit (`len(byte_offsets[:-1])`). */
  function EntryCount(byteOffsets: seq<int>): (n: nat)
    ensures n <= |byteOffsets|
    ensures |byteOffsets| > 0 ==> n + 1 == |byteOffsets|
  {
    if |byteOffsets| == 0 then 0 else |byteOffsets| - 1
  }

  /** `length_header_size`: the width of the length prefix that starts at `at`. In "1-5" mode
      the byte there is read: 255 announces four more length bytes. (A position outside the
      basket, where the source fails with an IndexError, is excluded by IndexWellFormed.) */
  function PrefixWidthAt(data: seq<byte>, at: int, mode: LengthBytes): (w: nat)
    ensures 1 <= w <= 5
  {
    match mode
    case OneToFive => if 0 <= at < |data| && data[at] == ESCAPE then 5 else 1
    case Four => 4
  }

  /** Where the string bytes of entry i start: after the entry's header and its length prefix. */
  function ContentStart(data: seq<byte>, byteOffsets: seq<int>, headerBytes: nat, mode: LengthBytes, i: int): int
    requires 0 <= i < EntryCount(byteOffsets)
  {
    byteOffsets[i] + headerBytes + PrefixWidthAt(data, byteOffsets[i] + headerBytes, mode)
  }

  /** Entry i is real: it holds its header, a length prefix and then string bytes up to
      the next offset, all inside the basket. */
  predicate EntryWellFormed(data: seq<byte>, byteOffsets: seq<int>, headerBytes: nat, mode: LengthBytes, i: int)
    requires 0 <= i < EntryCount(byteOffsets)
  {
    0 <= byteOffsets[i] && byteOffsets[i] + headerBytes < |data| &&
    ContentStart(data, byteOffsets, headerBytes, mode, i) <= byteOffsets[i + 1] <= |data|
  }

  /** Offsets that delimit real entries. */
  predicate IndexWellFormed(data: seq<byte>, byteOffsets: seq<int>, headerBytes: nat, mode: LengthBytes)
  {
    forall i :: 0 <= i < EntryCount(byteOffsets) ==> EntryWellFormed(data, byteOffsets, headerBytes, mode, i)
  }

  /** The strings of an indexed basket: entry i's bytes from its content start to the next offset. */
  function IndexedStrings(data: seq<byte>, byteOffsets: seq<int>, headerBytes: nat, mode: LengthBytes): (r: seq<seq<byte>>)
    requires IndexWellFormed(data, byteOffsets, headerBytes, mode)
    ensures |r| == EntryCount(byteOffsets)
  {
    seq(EntryCount(byteOffsets), i requires 0 <= i < EntryCount(byteOffsets) && EntryWellFormed(data, byteOffsets, headerBytes, mode, i) =>
      data[ContentStart(data, byteOffsets, headerBytes, mode, i)..byteOffsets[i + 1]])
  }

  /** Entries start at strictly increasing offsets. */
  lemma {:induction false} OffsetsIncrease(data: seq<byte>, byteOffsets: seq<int>, headerBytes: nat, mode: LengthBytes, i: int, j: int)
    requires IndexWellFormed(data, byteOffsets, headerBytes, mode)
    requires 0 <= i < j <= EntryCount(byteOffsets)
    ensures byteOffsets[i] < byteOffsets[j]
    decreases j - i
  {
    assert EntryWellFormed(data, byteOffsets, headerBytes, mode, i);
    if i + 1 < j {
      OffsetsIncrease(data, byteOffsets, headerBytes, mode, i + 1, j);
    }
  }

  /** `byte_starts` after `byte_starts += length_header_size`. */
  method ContentStarts(data: seq<byte>, byteOffsets: seq<int>, headerBytes: nat, mode: LengthBytes) returns (starts: seq<int>)
    requires IndexWellFormed(data, byteOffsets, headerBytes, mode)
    ensures |starts| == EntryCount(byteOffsets)
    ensures forall i :: 0 <= i < |starts| ==> starts[i] == ContentStart(data, byteOffsets, headerBytes, mode, i)
  {
    var n := EntryCount(byteOffsets);
    var a := new int[n];
    for i := 0 to n
      invariant forall j :: 0 <= j < i ==> a[j] == ContentStart(data, byteOffsets, headerBytes, mode, j)
    {
      assert EntryWellFormed(data, byteOffsets, headerBytes, mode, i);
      var at := byteOffsets[i] + headerBytes;
      var width := 4;
      if mode == OneToFive {
        width := if data[at] == ESCAPE then 5 else 1;
      }
      a[i] := at + width;
    }
    starts := a[..];
  }

  /** `byte_stops = byte_offsets[1:]`. */
  function ByteStops(byteOffsets: seq<int>): (stops: seq<int>)
    ensures |stops| == EntryCount(byteOffsets)
    ensures forall i :: 0 <= i < |stops| ==> stops[i] == byteOffsets[i + 1]
  {
    if byteOffsets == [] then [] else byteOffsets[1..]
  }

  /** The string ranges of a well-formed index are ordered inside the basket. */
  lemma IndexSpansOrdered(data: seq<byte>, byteOffsets: seq<int>, headerBytes: nat, mode: LengthBytes, starts: seq<int>)
    requires IndexWellFormed(data, byteOffsets, headerBytes, mode)
    requires |starts| == EntryCount(byteOffsets)
    requires forall i :: 0 <= i < |starts| ==> starts[i] == ContentStart(data, byteOffsets, headerBytes, mode, i)
    ensures Ordered(starts, ByteStops(byteOffsets), |data|)
  {
    var n := |starts|;
    var stops := ByteStops(byteOffsets);
    forall i | 0 <= i < n
      ensures 0 <= starts[i] <= stops[i] <= |data|
    {
      assert EntryWellFormed(data, byteOffsets, headerBytes, mode, i);
    }
    forall i, j | 0 <= i < j < n
      ensures stops[i] < starts[j]
    {
      if i + 1 < j {
        OffsetsIncrease(data, byteOffsets, headerBytes, mode, i + 1, j);
      }
    }
  }

  /** The ranges from the content starts to the stops delimit the indexed strings. */
  lemma IndexSpanStrings(data: seq<byte>, byteOffsets: seq<int>, headerBytes: nat, mode: LengthBytes, starts: seq<int>)
    requires IndexWellFormed(data, byteOffsets, headerBytes, mode)
    requires Ordered(starts, ByteStops(byteOffsets), |data|)
    requires forall i :: 0 <= i < |starts| ==> starts[i] == ContentStart(data, byteOffsets, headerBytes, mode, i)
    ensures SpanStrings(data, starts, ByteStops(byteOffsets)) == IndexedStrings(data, byteOffsets, headerBytes, mode)
  {
  }

  /** `mask[byte_starts[byte_starts < len(data)]] = 1` followed by
      `numpy.add.at(mask, byte_stops[byte_stops < len(data)], -1)`. */
  method MarkBoundaries(len: nat, starts: seq<int>, stops: seq<int>) returns (mask: array<int>)
    requires forall i :: 0 <= i < |starts| ==> 0 <= starts[i]
    requires forall i :: 0 <= i < |stops| ==> 0 <= stops[i]
    ensures fresh(mask) && mask.Length == len
    ensures forall x :: 0 <= x < len ==> mask[x] == Bit(Marks(starts, x) > 0) - Marks(stops, x)
  {
    mask := new int[len](_ => 0);
    for i := 0 to |starts|
      invariant forall x :: 0 <= x < len ==> mask[x] == Bit(Marks(starts[..i], x) > 0)
    {
      assert starts[..i + 1][..i] == starts[..i];
      if starts[i] < len {
        mask[starts[i]] := 1;
      }
    }
    assert starts[..|starts|] == starts;
    for i := 0 to |stops|
      invariant forall x :: 0 <= x < len ==> mask[x] == Bit(Marks(starts, x) > 0) - Marks(stops[..i], x)
    {
      assert stops[..i + 1][..i] == stops[..i];
      if stops[i] < len {
        mask[stops[i]] := mask[stops[i]] - 1;
      }
    }
    assert stops[..|stops|] == stops;
  }

  /** `numpy.cumsum(mask, out=mask)`. */
  method CumsumInPlace(a: array<int>)
    modifies a
    ensures a[..] == Cumsum(old(a[..]))
  {
    ghost var original := a[..];
    if a.Length > 0 {
      CumsumAt(original, 0);
      for i := 1 to a.Length
        invariant forall j :: 0 <= j < i ==> a[j] == Cumsum(original)[j]
        invariant forall j :: i <= j < a.Length ==> a[j] == original[j]
      {
        CumsumAt(original, i);
        a[i] := a[i - 1] + a[i];
      }
    }
  }

  /** `data[mask.view(numpy.bool_)]`: the bytes whose mask entry is non-zero, in order. */
  method SelectMasked(data: seq<byte>, mask: array<int>) returns (selected: seq<byte>)
    requires mask.Length == |data|
    ensures selected == Picked(data, mask[..])
  {
    selected := [];
    for x := 0 to |data|
      invariant selected == Picked(data[..x], mask[..x])
    {
      assert data[..x + 1][..x] == data[..x] && mask[..x + 1][..x] == mask[..x];
      if mask[x] != 0 {
        selected := selected + [data[x]];
      }
    }
    assert data[..|data|] == data && mask[..|data|] == mask[..];
  }

  /** The mask steps of the indexed branch: mark each string's start and end, take the running
      sum, and keep the bytes it covers. They are the strings' bytes, laid end to end. */
  method SelectSpans(data: seq<byte>, starts: seq<int>, stops: seq<int>) returns (content: seq<byte>)
    requires Ordered(starts, stops, |data|)
    ensures content == Concat(SpanStrings(data, starts, stops))
  {
    var mask := MarkBoundaries(|data|, starts, stops);
    ghost var marks := mask[..];
    CumsumInPlace(mask);
    CoverCumsum(starts, stops, marks);
    content := SelectMasked(data, mask);
    PickedSpans(data, mask[..], starts, stops);
  }

  /** The indexed branch of `basket_array`: the packed column of the entries' strings. */
  method BasketArrayIndexed(data: seq<byte>, byteOffsets: seq<int>, headerBytes: nat, mode: LengthBytes) returns (a: StringArray)
    requires IndexWellFormed(data, byteOffsets, headerBytes, mode)
    ensures a == FromStrings(IndexedStrings(data, byteOffsets, headerBytes, mode))
    ensures a.Packed() && a.Strings() == IndexedStrings(data, byteOffsets, headerBytes, mode)
  {
    ghost var strs := IndexedStrings(data, byteOffsets, headerBytes, mode);
    var n := EntryCount(byteOffsets);
    var starts := ContentStarts(data, byteOffsets, headerBytes, mode);
    var stops := ByteStops(byteOffsets);
    IndexSpansOrdered(data, byteOffsets, headerBytes, mode, starts);
    IndexSpanStrings(data, byteOffsets, headerBytes, mode, starts);
    var content := SelectSpans(data, starts, stops);
    var counts := seq(n, i requires 0 <= i < n => stops[i] - starts[i]);
    assert counts == Lengths(strs);
    var offsets := OffsetsFromCounts(counts);
    a := StringArray(offsets, content);
    FromStringsStrings(strs);
  }

  /** One entry of a basket: a header of its own, the length prefix, then the string bytes. */
  function Entry(header: seq<byte>, s: seq<byte>, mode: LengthBytes): (e: seq<byte>)
    requires |s| < TWO_32
    ensures |e| == |header| + |EncodeLength(|s|, mode)| + |s|
  {
    header + EncodeLength(|s|, mode) + s
  }

  /** The entries of a basket holding `strs`, each after its header. */
  function Entries(headers: seq<seq<byte>>, strs: seq<seq<byte>>, mode: LengthBytes): (es: seq<seq<byte>>)
    requires |headers| == |strs| && Encodable(strs)
    ensures |es| == |strs|
  {
    seq(|strs|, i requires 0 <= i < |strs| => Entry(headers[i], strs[i], mode))
  }

  /** Empty headers, for baskets whose entries carry none. */
  function NoHeaders(n: nat): (hs: seq<seq<byte>>)
    ensures |hs| == n && forall i :: 0 <= i < n ==> hs[i] == []
  {
    seq(n, _ => [])
  }

  /** An entry laid out as header, prefix and string bytes between lo and hi: its prefix has
      the width the reader expects, and the string starts right after it. */
  lemma EntryRead(data: seq<byte>, lo: int, hi: int, header: seq<byte>, s: seq<byte>, mode: LengthBytes)
    requires |s| < TWO_32 && 0 <= lo <= hi <= |data|
    requires data[lo..hi] == header + EncodeLength(|s|, mode) + s
    ensures lo + |header| < |data|
    ensures PrefixWidthAt(data, lo + |header|, mode) == |EncodeLength(|s|, mode)|
    ensures data[lo + |header| + |EncodeLength(|s|, mode)|..hi] == s
  {
    var pre := EncodeLength(|s|, mode);
    var e := data[lo..hi];
    assert data[lo + |header|] == e[|header|] == pre[0];
    if mode == OneToFive && |s| < 255 {
      assert pre[0] == |s| as byte;
    }
    assert data[lo + |header| + |pre|..hi] == e[|header| + |pre|..];
    assert e[|header| + |pre|..] == s;
  }

  /** Entry i of a basket built from headers and strings is well formed under its own offsets,
      and its string is read back. */
  lemma EntryRoundTrip(headers: seq<seq<byte>>, strs: seq<seq<byte>>, headerBytes: nat, mode: LengthBytes, i: int)
    requires |headers| == |strs| && Encodable(strs)
    requires forall k :: 0 <= k < |headers| ==> |headers[k]| == headerBytes
    requires 0 <= i < |strs|
    ensures var es := Entries(headers, strs, mode);
      EntryCount(OffsetsOf(es)) == |strs| &&
      EntryWellFormed(Concat(es), OffsetsOf(es), headerBytes, mode, i) &&
      Concat(es)[ContentStart(Concat(es), OffsetsOf(es), headerBytes, mode, i)..OffsetsOf(es)[i + 1]] == strs[i]
  {
    var es := Entries(headers, strs, mode);
    ConcatSlice(es, i);
    assert es[i] == headers[i] + EncodeLength(|strs[i]|, mode) + strs[i];
    EntryFromSlice(Concat(es), OffsetsOf(es), headerBytes, mode, i, headers[i], strs[i]);
  }

  /** Offsets i and i + 1 around header, prefix and string bytes: entry i is well formed and
      its string is read back. */
  lemma EntryFromSlice(data: seq<byte>, bo: seq<int>, headerBytes: nat, mode: LengthBytes, i: int,
                       header: seq<byte>, s: seq<byte>)
    requires 0 <= i < EntryCount(bo) && 0 <= bo[i] <= bo[i + 1] <= |data|
    requires |header| == headerBytes && |s| < TWO_32
    requires data[bo[i]..bo[i + 1]] == header + EncodeLength(|s|, mode) + s
    ensures EntryWellFormed(data, bo, headerBytes, mode, i)
    ensures data[ContentStart(data, bo, headerBytes, mode, i)..bo[i + 1]] == s
  {
    EntryRead(data, bo[i], bo[i + 1], header, s, mode);
    assert ContentStart(data, bo, headerBytes, mode, i) == bo[i] + |header| + |EncodeLength(|s|, mode)|;
  }

  /** A basket built from headers and strings, read with its own entry offsets, yields the strings. */
  lemma IndexedRoundTrip(headers: seq<seq<byte>>, strs: seq<seq<byte>>, headerBytes: nat, mode: LengthBytes)
    requires |headers| == |strs| && Encodable(strs)
    requires forall k :: 0 <= k < |headers| ==> |headers[k]| == headerBytes
    ensures var es := Entries(headers, strs, mode);
      IndexWellFormed(Concat(es), OffsetsOf(es), headerBytes, mode) &&
      IndexedStrings(Concat(es), OffsetsOf(es), headerBytes, mode) == strs
  {
    var es := Entries(headers, strs, mode);
    var data, bo := Concat(es), OffsetsOf(es);
    assert EntryCount(bo) == |strs|;
    forall i | 0 <= i < |strs|
      ensures EntryWellFormed(data, bo, headerBytes, mode, i)
      ensures data[ContentStart(data, bo, headerBytes, mode, i)..bo[i + 1]] == strs[i]
    {
      EntryRoundTrip(headers, strs, headerBytes, mode, i);
    }
    assert IndexWellFormed(data, bo, headerBytes, mode);
    var got := IndexedStrings(data, bo, headerBytes, mode);
    assert forall i :: 0 <= i < |strs| ==> got[i] == strs[i];
  }

  /** Entries without headers are the back-to-back prefixed strings of an unindexed basket. */
  lemma {:induction false} EncodeAsEntries(strs: seq<seq<byte>>, mode: LengthBytes)
    requires Encodable(strs)
    ensures Concat(Entries(NoHeaders(|strs|), strs, mode)) == Encode(strs, mode)
  {
    if strs != [] {
      var es := Entries(NoHeaders(|strs|), strs, mode);
      assert es[1..] == Entries(NoHeaders(|strs| - 1), strs[1..], mode);
      EncodeAsEntries(strs[1..], mode);
      assert es[0] == EncodeLength(|strs[0]|, mode) + strs[0];
    }
  }

  /** Both branches of `basket_array` read the same strings from the same headerless basket:
      decoding the bytes front to back, and cutting them at the entry offsets. */
  lemma ModesAgree(strs: seq<seq<byte>>, mode: LengthBytes)
    requires Encodable(strs)
    ensures var bo := OffsetsOf(Entries(NoHeaders(|strs|), strs, mode));
      IndexWellFormed(Encode(strs, mode), bo, 0, mode) &&
      Decode(Encode(strs, mode), mode) == Ok(IndexedStrings(Encode(strs, mode), bo, 0, mode))
  {
    EncodeAsEntries(strs, mode);
    IndexedRoundTrip(NoHeaders(|strs|), strs, 0, mode);
    DecodeEncode(strs, mode);
  }
}
