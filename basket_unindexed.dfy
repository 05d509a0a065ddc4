/** `AsStrings.basket_array` without byte offsets: a sequential cursor scan over
    back-to-back length-prefixed strings into buffers pre-allocated to the input size. */
module UnindexedDecoder {
  import opened Wrappers
  import opened Bytes
  import opened Sequences
  import opened StringArrays
  import opened LengthPrefix
  import opened Offsets

  /** The length prefix at `pos` of the buffer, read in place: `ReadLength` of `data[pos..]`
      (ReadLengthInPlace), written without the slice so that the scan's proofs stay cheap. */
  function ReadLengthAt(data: seq<byte>, pos: nat, mode: LengthBytes): (r: Option<Prefix>)
    requires pos < |data|
    ensures r.Some? ==> 1 <= r.value.width
  {
    match mode
    case OneToFive =>
      if data[pos] != ESCAPE then Some(Prefix(data[pos] as nat, 1))
      else if pos + 5 > |data| then None
      else Some(Prefix(U32BE(data[pos + 1..pos + 5]), 5))
    case Four =>
      if pos + 4 > |data| then None else Some(Prefix(U32BE(data[pos..pos + 4]), 4))
  }

  /** Reading in place is reading the prefix at the start of the rest of the buffer. */
  lemma ReadLengthInPlace(data: seq<byte>, pos: nat, mode: LengthBytes)
    requires pos < |data|
    ensures ReadLengthAt(data, pos, mode) == ReadLength(data[pos..], mode)
  {
    var rest := data[pos..];
    assert rest[0] == data[pos];
    if pos + 5 <= |data| {
      assert rest[1..5] == data[pos + 1..pos + 5];
    }
    if pos + 4 <= |data| {
      assert rest[..4] == data[pos..pos + 4];
    }
  }

  /** Reads the length prefix at `pos` as the scan does: one byte, and in "1-5" mode
      four more after an escape byte; in "4" mode always four bytes. */
  method ReadPrefixAt(data: seq<byte>, pos: nat, mode: LengthBytes) returns (p: Option<Prefix>)
    requires pos < |data|
    ensures p == ReadLengthAt(data, pos, mode)
  {
    if mode == OneToFive {
      var size := data[pos];
      if size == ESCAPE {
        if pos + 5 > |data| {
          return None;
        }
        return Some(Prefix(U32BE(data[pos + 1..pos + 5]), 5));
      }
      return Some(Prefix(size as nat, 1));
    } else {
      if pos + 4 > |data| {
        return None;
      }
      return Some(Prefix(U32BE(data[pos..pos + 4]), 4));
    }
  }

  /** The counts and content of a decoding, appended to those already produced. */
  function Accumulate(counts: seq<int>, content: seq<byte>, r: Result<seq<seq<byte>>, DecodeError>)
    : Result<(seq<int>, seq<byte>), DecodeError>
  {
    match r
    case Ok(ss) => Ok((counts + Lengths(ss), content + Concat(ss)))
    case Err(e) => Err(e)
  }

  /** The outcome of the scan loop continued from `pos`, with the counts and content produced so far. */
  ghost function ScanFrom(data: seq<byte>, pos: nat, mode: LengthBytes, counts: seq<int>, content: seq<byte>)
    : (r: Result<(seq<int>, seq<byte>), DecodeError>)
    requires pos <= |data|
    ensures r.Ok? ==> |counts| <= |r.value.0| && r.value.0[..|counts|] == counts
    ensures r.Ok? ==> |content| <= |r.value.1| && r.value.1[..|content|] == content
    decreases |data| - pos
  {
    if pos == |data| then Ok((counts, content))
    else match ReadLengthAt(data, pos, mode)
      case None => Err(Truncated)
      case Some(p) =>
        var start := pos + p.width;
        if start + p.size > |data| then Err(Truncated)
        else ScanFrom(data, start + p.size, mode, counts + [p.size], content + data[start..start + p.size])
  }

  /** One turn of the scan loop: the record at `pos` holds the string `data[start..start + size]`. */
  lemma ScanStep(data: seq<byte>, pos: nat, start: nat, size: nat, mode: LengthBytes,
                 counts: seq<int>, content: seq<byte>, counts': seq<int>, content': seq<byte>)
    requires pos < |data| && ReadLengthAt(data, pos, mode).Some?
    requires start == pos + ReadLengthAt(data, pos, mode).value.width
    requires size == ReadLengthAt(data, pos, mode).value.size && start + size <= |data|
    requires counts' == counts + [size] && content' == content + data[start..start + size]
    ensures ScanFrom(data, pos, mode, counts, content) == ScanFrom(data, start + size, mode, counts', content')
  {
  }

  /** Accumulating one more string and then a decoding is accumulating the decoding with that string in front. */
  lemma AccumulateThen(counts: seq<int>, content: seq<byte>, s: seq<byte>, r: Result<seq<seq<byte>>, DecodeError>)
    ensures Accumulate(counts, content, Then([s], r)) == Accumulate(counts + [|s|], content + s, r)
  {
    if r.Ok? {
      var rest := r.value;
      assert ([s] + rest)[1..] == rest;
      assert Lengths([s] + rest) == [|s|] + Lengths(rest);
      assert Concat([s] + rest) == s + Concat(rest);
      assert counts + ([|s|] + Lengths(rest)) == (counts + [|s|]) + Lengths(rest);
      assert content + (s + Concat(rest)) == (content + s) + Concat(rest);
    }
  }

  /** A well-formed record in place at `pos`: decoding the rest of the buffer from `pos` yields
      that record's string, then the decoding of what follows it. */
  lemma DecodeAtRecord(data: seq<byte>, pos: nat, mode: LengthBytes, start: nat, size: nat)
    requires pos < |data| && ReadLengthAt(data, pos, mode).Some?
    requires start == pos + ReadLengthAt(data, pos, mode).value.width
    requires size == ReadLengthAt(data, pos, mode).value.size && start + size <= |data|
    ensures Decode(data[pos..], mode) == Then([data[start..start + size]], Decode(data[start + size..], mode))
  {
    var rest := data[pos..];
    ReadLengthInPlace(data, pos, mode);
    var w := start - pos;
    DecodeStep(rest, mode, w, size);
    assert rest[w..w + size] == data[start..start + size];
    assert rest[w + size..] == data[start + size..];
  }

  /** A record in place at `pos` that is cut short: decoding the rest of the buffer fails. */
  lemma DecodeAtTruncated(data: seq<byte>, pos: nat, mode: LengthBytes)
    requires pos < |data|
    requires var p := ReadLengthAt(data, pos, mode); !(p.Some? && pos + p.value.width + p.value.size <= |data|)
    ensures Decode(data[pos..], mode) == Err(Truncated)
  {
    ReadLengthInPlace(data, pos, mode);
  }

  /** A well-formed record at `pos`: if the scan after it decodes the rest, the scan from `pos` does. */
  lemma ScanFromRecord(data: seq<byte>, pos: nat, mode: LengthBytes, counts: seq<int>, content: seq<byte>,
                       start: nat, size: nat)
    requires pos < |data| && ReadLengthAt(data, pos, mode).Some?
    requires start == pos + ReadLengthAt(data, pos, mode).value.width
    requires size == ReadLengthAt(data, pos, mode).value.size && start + size <= |data|
    requires ScanFrom(data, start + size, mode, counts + [size], content + data[start..start + size])
          == Accumulate(counts + [size], content + data[start..start + size], Decode(data[start + size..], mode))
    ensures ScanFrom(data, pos, mode, counts, content) == Accumulate(counts, content, Decode(data[pos..], mode))
  {
    var s := data[start..start + size];
    calc {
      ScanFrom(data, pos, mode, counts, content);
      { ScanStep(data, pos, start, size, mode, counts, content, counts + [size], content + s); }
      ScanFrom(data, start + size, mode, counts + [size], content + s);
      Accumulate(counts + [size], content + s, Decode(data[start + size..], mode));
      { AccumulateThen(counts, content, s, Decode(data[start + size..], mode)); }
      Accumulate(counts, content, Then([s], Decode(data[start + size..], mode)));
      { DecodeAtRecord(data, pos, mode, start, size); }
      Accumulate(counts, content, Decode(data[pos..], mode));
    }
  }

  /** A record at `pos` that is cut short: both the scan and the decoding fail. */
  lemma ScanFromTruncated(data: seq<byte>, pos: nat, mode: LengthBytes, counts: seq<int>, content: seq<byte>)
    requires pos < |data|
    requires var p := ReadLengthAt(data, pos, mode); !(p.Some? && pos + p.value.width + p.value.size <= |data|)
    ensures ScanFrom(data, pos, mode, counts, content) == Err(Truncated)
    ensures Accumulate(counts, content, Decode(data[pos..], mode)) == Err(Truncated)
  {
    DecodeAtTruncated(data, pos, mode);
  }

  /** Continuing the scan from `pos` produces the counts and content of decoding the rest of the buffer. */
  lemma {:induction false} ScanFromDecodes(data: seq<byte>, pos: nat, mode: LengthBytes,
                                           counts: seq<int>, content: seq<byte>)
    requires pos <= |data|
    ensures ScanFrom(data, pos, mode, counts, content) == Accumulate(counts, content, Decode(data[pos..], mode))
    decreases |data| - pos
  {
    if pos == |data| {
      assert data[pos..] == [];
      assert counts + [] == counts && content + [] == content;
    } else {
      var p := ReadLengthAt(data, pos, mode);
      if p.Some? && pos + p.value.width + p.value.size <= |data| {
        var start, size := pos + p.value.width, p.value.size;
        ScanFromDecodes(data, start + size, mode, counts + [size], content + data[start..start + size]);
        ScanFromRecord(data, pos, mode, counts, content, start, size);
      } else {
        ScanFromTruncated(data, pos, mode, counts, content);
      }
    }
  }

  /** `dst[at:at + len(src)] = src`: the elements before `at` are kept. */
  method CopyInto<T>(dst: array<T>, at: nat, src: seq<T>)
    requires at + |src| <= dst.Length
    modifies dst
    ensures dst[..at + |src|] == old(dst[..at]) + src
  {
    forall k | 0 <= k < |src| {
      dst[at + k] := src[k];
    }
  }

  /** `counts[entry_num] = size; outdata[len_outdata:len_outdata + size] = data[pos:pos + size]`:
      both buffers grow by one string and keep what they held. */
  method Emit(counts: array<int>, outdata: array<byte>, entryNum: nat, lenOutdata: nat, s: seq<byte>,
              ghost countsSoFar: seq<int>, ghost contentSoFar: seq<byte>)
    requires entryNum < counts.Length && lenOutdata + |s| <= outdata.Length
    requires counts[..entryNum] == countsSoFar && outdata[..lenOutdata] == contentSoFar
    modifies counts, outdata
    ensures counts[..entryNum + 1] == countsSoFar + [|s|]
    ensures outdata[..lenOutdata + |s|] == contentSoFar + s
  {
    CopyInto(counts, entryNum, [|s|]);
    CopyInto(outdata, lenOutdata, s);
  }

  /** One turn of the scan: the record at `pos`, as the start and size of its string, or None
      when its prefix or its string runs past the end of the buffer. The scan from `pos` goes on
      after the record with that string added, or fails. */
  method ReadRecord(data: seq<byte>, pos: nat, mode: LengthBytes, ghost counts: seq<int>, ghost content: seq<byte>,
                    ghost goal: Result<(seq<int>, seq<byte>), DecodeError>)
    returns (record: Option<(nat, nat)>, ghost counts': seq<int>, ghost content': seq<byte>)
    requires pos < |data| && ScanFrom(data, pos, mode, counts, content) == goal
    ensures record.None? ==> goal == Err(Truncated)
    ensures record.Some? ==> pos < record.value.0 && record.value.0 + record.value.1 <= |data|
    ensures record.Some? ==>
      var (start, size) := record.value;
      counts' == counts + [size] && content' == content + data[start..start + size] &&
      ScanFrom(data, start + size, mode, counts', content') == goal
  {
    counts', content' := counts, content;
    var prefix := ReadPrefixAt(data, pos, mode);
    if prefix.None? {
      ScanFromTruncated(data, pos, mode, counts, content);
      return None, counts', content';
    }
    var size := prefix.value.size;
    var start := pos + prefix.value.width;
    // The source copies without checking that the declared size fits what is left.
    if start + size > |data| {
      ScanFromTruncated(data, pos, mode, counts, content);
      return None, counts', content';
    }
    counts', content' := counts + [size], content + data[start..start + size];
    ScanStep(data, pos, start, size, mode, counts, content, counts', content');
    record := Some((start, size));
  }

  /** The scan of an unindexed basket: counts and content, trimmed to what was used, are what the
      scan specification produces from the start of the buffer (by ScanFromDecodes, the lengths and
      the concatenation of the strings the buffer decodes to). */
  method ScanRecords(data: seq<byte>, mode: LengthBytes) returns (r: Result<(seq<int>, seq<byte>), DecodeError>)
    ensures r == ScanFrom(data, 0, mode, [], [])
    ensures r.Ok? ==> |r.value.0| + |r.value.1| <= |data|
  {
    var counts := new int[|data|];
    var outdata := new byte[|data|];
    var pos, entryNum, lenOutdata := 0, 0, 0;
    ghost var countsSoFar: seq<int>, contentSoFar: seq<byte> := [], [];
    ghost var goal := ScanFrom(data, 0, mode, [], []);
    while pos < |data|
      invariant entryNum == |countsSoFar| && lenOutdata == |contentSoFar| && entryNum + lenOutdata <= pos <= |data|
      invariant counts[..entryNum] == countsSoFar && outdata[..lenOutdata] == contentSoFar
      invariant ScanFrom(data, pos, mode, countsSoFar, contentSoFar) == goal
      decreases |data| - pos
    {
      var record;
      ghost var countsNext, contentNext;
      record, countsNext, contentNext := ReadRecord(data, pos, mode, countsSoFar, contentSoFar, goal);
      if record.None? {
        return Err(Truncated);
      }
      var (start, size) := record.value;
      Emit(counts, outdata, entryNum, lenOutdata, data[start..start + size], countsSoFar, contentSoFar);
      entryNum, lenOutdata, pos := entryNum + 1, lenOutdata + size, start + size;
      countsSoFar, contentSoFar := countsNext, contentNext;
    }
    r := Ok((counts[..entryNum], outdata[..lenOutdata]));
  }

  /** `basket_array` without byte offsets: the column of exactly the strings the buffer decodes to,
      never longer than the buffer, or the decoding error. */
  method DecodeUnindexed(data: seq<byte>, mode: LengthBytes) returns (r: Result<StringArray, DecodeError>)
    ensures Decode(data, mode).Ok? ==> r == Ok(FromStrings(Decode(data, mode).value))
    ensures Decode(data, mode).Err? ==> r == Err(Decode(data, mode).error)
    ensures r.Ok? ==> r.value.Len() <= |data| && |r.value.content| <= |data|
  {
    var scanned := ScanRecords(data, mode);
    ScanFromDecodes(data, 0, mode, [], []);
    assert data[0..] == data;
    if scanned.Err? {
      return Err(scanned.error);
    }
    var (counts, content) := scanned.value;
    assert [] + Lengths(Decode(data, mode).value) == Lengths(Decode(data, mode).value);
    assert [] + Concat(Decode(data, mode).value) == Concat(Decode(data, mode).value);
    var offsets := OffsetsFromCounts(counts);
    r := Ok(StringArray(offsets, content));
  }
}
