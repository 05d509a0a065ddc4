/** The two length-prefix encodings of a top-level string branch and the
    specification of decoding a buffer of back-to-back prefixed strings. */
module LengthPrefix {
  import opened Wrappers
  import opened Bytes
  import opened Sequences

  /** `length_bytes`: "1-5" (one byte, or the escape byte 255 and four more) or "4" (always four bytes). */
  datatype LengthBytes = OneToFive | Four

  datatype DecodeError = Truncated

  /** A decoded length prefix: the string's byte count and the number of bytes the prefix took. */
  datatype Prefix = Prefix(size: nat, width: nat)

  /** The "1-5" byte that announces a four-byte length. */
  const ESCAPE: byte := 255

  /** Reads the length prefix at the start of `buf`; None when a four-byte length runs past the end. */
  function ReadLength(buf: seq<byte>, mode: LengthBytes): (r: Option<Prefix>)
    requires |buf| > 0
    ensures r.Some? ==> 1 <= r.value.width <= |buf|
    ensures r.None? <==> |buf| < (if mode == Four then 4 else if buf[0] == ESCAPE then 5 else 1)
  {
    match mode
    case OneToFive =>
      if buf[0] != ESCAPE then Some(Prefix(buf[0] as nat, 1))
      else if |buf| < 5 then None
      else Some(Prefix(U32BE(buf[1..5]), 5))
    case Four =>
      if |buf| < 4 then None else Some(Prefix(U32BE(buf[..4]), 4))
  }

  /** The prefix announcing a string of `n` bytes. */
  function EncodeLength(n: nat, mode: LengthBytes): (p: seq<byte>)
    requires n < TWO_32
    ensures |p| == (if mode == Four then 4 else if n < 255 then 1 else 5)
  {
    match mode
    case OneToFive => if n < 255 then [n as byte] else [ESCAPE] + U32Bytes(n)
    case Four => U32Bytes(n)
  }

  /** Reading a prefix back yields the length it encodes, and consumes exactly the prefix. */
  lemma ReadEncodedLength(n: nat, mode: LengthBytes, rest: seq<byte>)
    requires n < TWO_32
    ensures ReadLength(EncodeLength(n, mode) + rest, mode) == Some(Prefix(n, |EncodeLength(n, mode)|))
  {
    var buf := EncodeLength(n, mode) + rest;
    U32BytesRoundTrip(n);
    match mode
    case OneToFive =>
      if n >= 255 {
        assert buf[1..5] == U32Bytes(n);
      }
    case Four =>
      assert buf[..4] == U32Bytes(n);
  }

  /** Every string fits a 32-bit length prefix. */
  predicate Encodable(strs: seq<seq<byte>>)
  {
    forall i :: 0 <= i < |strs| ==> |strs[i]| < TWO_32
  }

  /** Back-to-back length-prefixed strings, as an unindexed basket holds them. */
  function Encode(strs: seq<seq<byte>>, mode: LengthBytes): (buf: seq<byte>)
    requires Encodable(strs)
    ensures |buf| >= |strs|
  {
    if strs == [] then []
    else EncodeLength(|strs[0]|, mode) + strs[0] + Encode(strs[1..], mode)
  }

  /** Decoding a whole buffer of back-to-back prefixed strings. */
  function Decode(buf: seq<byte>, mode: LengthBytes): (r: Result<seq<seq<byte>>, DecodeError>)
    ensures r.Ok? ==> |r.value| <= |buf|
    ensures r.Ok? ==> (r.value == [] <==> buf == [])
    decreases |buf|
  {
    if |buf| == 0 then Ok([])
    else match ReadLength(buf, mode)
      case None => Err(Truncated)
      case Some(p) =>
        if p.width + p.size > |buf| then Err(Truncated)
        else match Decode(buf[p.width + p.size..], mode)
          case Err(e) => Err(e)
          case Ok(rest) => Ok([buf[p.width..p.width + p.size]] + rest)
  }

  /** Prepends decoded strings to the result of decoding the rest of a buffer. */
  function Then(done: seq<seq<byte>>, r: Result<seq<seq<byte>>, DecodeError>): Result<seq<seq<byte>>, DecodeError>
  {
    match r
    case Ok(rest) => Ok(done + rest)
    case Err(e) => Err(e)
  }

  /** Decoding a buffer whose first record is well formed: that record's string, then the rest. */
  lemma DecodeStep(buf: seq<byte>, mode: LengthBytes, width: nat, size: nat)
    requires |buf| > 0 && ReadLength(buf, mode) == Some(Prefix(size, width)) && width + size <= |buf|
    ensures Decode(buf, mode) == Then([buf[width..width + size]], Decode(buf[width + size..], mode))
  {
  }

  /** Encoding two runs of strings is encoding each and laying them end to end. */
  lemma {:induction false} EncodeAppend(a: seq<seq<byte>>, b: seq<seq<byte>>, mode: LengthBytes)
    requires Encodable(a) && Encodable(b)
    ensures Encodable(a + b)
    ensures Encode(a + b, mode) == Encode(a, mode) + Encode(b, mode)
  {
    EncodableAppend(a, b);
    if a != [] {
      var pre := EncodeLength(|a[0]|, mode);
      assert (a + b)[1..] == a[1..] + b;
      var rest, restB := Encode(a[1..], mode), Encode(b, mode);
      calc {
        Encode(a + b, mode);
        { assert (a + b)[0] == a[0]; }
        pre + a[0] + Encode(a[1..] + b, mode);
        { EncodeAppend(a[1..], b, mode); }
        pre + a[0] + (rest + restB);
        (pre + a[0] + rest) + restB;
        Encode(a, mode) + restB;
      }
    } else {
      assert a + b == b;
    }
  }

  lemma EncodableAppend(a: seq<seq<byte>>, b: seq<seq<byte>>)
    requires Encodable(a) && Encodable(b)
    ensures Encodable(a + b)
  {
    forall i | 0 <= i < |a + b| ensures |(a + b)[i]| < TWO_32 {
      if i >= |a| { assert (a + b)[i] == b[i - |a|]; }
    }
  }

  /** Decoding the encoding of strings returns exactly those strings, in order. */
  lemma {:induction false} DecodeEncode(strs: seq<seq<byte>>, mode: LengthBytes)
    requires Encodable(strs)
    ensures Decode(Encode(strs, mode), mode) == Ok(strs)
  {
    if strs != [] {
      var s := strs[0];
      var pre := EncodeLength(|s|, mode);
      var rest := Encode(strs[1..], mode);
      var buf := Encode(strs, mode);
      assert buf == pre + (s + rest);
      ReadEncodedLength(|s|, mode, s + rest);
      assert buf[|pre|..|pre| + |s|] == s;
      assert buf[|pre| + |s|..] == rest;
      DecodeEncode(strs[1..], mode);
      assert [s] + strs[1..] == strs;
    }
  }

  /** A decoded buffer holds at least one prefix byte per string besides the string bytes,
      so buffers as long as the input always suffice for the counts and the content. */
  lemma {:induction false} DecodeBounds(buf: seq<byte>, mode: LengthBytes)
    requires Decode(buf, mode).Ok?
    ensures |Decode(buf, mode).value| + |Concat(Decode(buf, mode).value)| <= |buf|
  {
    if |buf| > 0 {
      var p := ReadLength(buf, mode).value;
      DecodeBounds(buf[p.width + p.size..], mode);
    }
  }

  /** In "4" mode every decodable buffer is the encoding of what it decodes to. */
  lemma {:induction false} EncodeDecodeFour(buf: seq<byte>, strs: seq<seq<byte>>)
    requires Decode(buf, Four) == Ok(strs)
    ensures Encodable(strs) && Encode(strs, Four) == buf
    decreases |buf|
  {
    if |buf| > 0 {
      var s, tail, rest := FourRecord(buf, strs);
      EncodeDecodeFour(tail, rest);
      EncodeCons(s, rest, Four);
    } else {
      assert strs == [];
    }
  }

  /** The first record of a decodable "4"-mode buffer: its four length bytes are the encoding of
      the string's length, and the rest of the buffer decodes to the other strings. */
  lemma FourRecord(buf: seq<byte>, strs: seq<seq<byte>>) returns (s: seq<byte>, tail: seq<byte>, rest: seq<seq<byte>>)
    requires |buf| > 0 && Decode(buf, Four) == Ok(strs)
    ensures |tail| < |buf| && |s| < TWO_32 && strs == [s] + rest && Decode(tail, Four) == Ok(rest)
    ensures buf == EncodeLength(|s|, Four) + s + tail
  {
    var size := U32BE(buf[..4]);
    assert ReadLength(buf, Four) == Some(Prefix(size, 4));
    s, tail := buf[4..4 + size], buf[4 + size..];
    DecodeStep(buf, Four, 4, size);
    rest := Decode(tail, Four).value;
    FourPrefix(buf);
    SplitThree(buf, 4, 4 + size);
  }

  /** The first four bytes of a buffer are the "4"-mode prefix of the length they denote. */
  lemma FourPrefix(buf: seq<byte>)
    requires |buf| >= 4
    ensures EncodeLength(U32BE(buf[..4]), Four) == buf[..4]
  {
    U32BEBytes(buf[..4]);
  }

  /** A buffer is its three pieces cut at i and j, put back together. */
  lemma SplitThree<T>(buf: seq<T>, i: int, j: int)
    requires 0 <= i <= j <= |buf|
    ensures buf == buf[..i] + buf[i..j] + buf[j..]
  {
  }

  /** The encoding of strings is the first string's prefix and bytes, then the encoding of the rest. */
  lemma EncodeCons(s: seq<byte>, rest: seq<seq<byte>>, mode: LengthBytes)
    requires |s| < TWO_32 && Encodable(rest)
    ensures Encodable([s] + rest)
    ensures Encode([s] + rest, mode) == EncodeLength(|s|, mode) + s + Encode(rest, mode)
  {
    assert forall i :: 0 < i < |[s] + rest| ==> ([s] + rest)[i] == rest[i - 1];
    assert ([s] + rest)[1..] == rest;
  }

  /** In "1-5" mode an escaped short length decodes like a one-byte length: the
      encoding is not unique, so only decode-after-encode is a round trip. */
  lemma OneToFiveNotCanonical()
    ensures Decode([ESCAPE, 0, 0, 0, 1, 7], OneToFive) == Decode([1, 7], OneToFive) == Ok([[7]])
  {
    var long: seq<byte> := [ESCAPE, 0, 0, 0, 1, 7];
    var seven: seq<seq<byte>> := [[7]];
    assert seven + [] == seven;
    assert long[1..5] == [0, 0, 0, 1];
    assert ReadLength(long, OneToFive) == Some(Prefix(1, 5));
    assert long[6..] == [];
    assert long[5..6] == [7];
    assert Decode(long, OneToFive) == Ok(seven + []);
    var short: seq<byte> := [1, 7];
    assert short[2..] == [];
    assert short[1..2] == [7];
    assert Decode(short, OneToFive) == Ok(seven + []);
  }
}
