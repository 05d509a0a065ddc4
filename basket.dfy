/** `AsStrings.basket_array`: one basket's bytes turned into a StringArray, by a
    front-to-back scan when the basket has no byte offsets and by cutting the bytes
    at the entry offsets when it has them. */
module Basket {
  import opened Wrappers
  import opened Bytes
  import opened Sequences
  import opened StringArrays
  import opened LengthPrefix
  import opened Config
  import opened UnindexedDecoder
  import opened IndexedDecoder

  /** The strings a basket holds under a configuration: without byte offsets, the decoding
      of back-to-back prefixed strings; with them, the string of every entry. */
  function BasketStrings(config: AsStrings, data: seq<byte>, byteOffsets: Option<seq<int>>)
    : (r: Result<seq<seq<byte>>, DecodeError>)
    requires byteOffsets.Some? ==> IndexWellFormed(data, byteOffsets.value, config.headerBytes, config.lengthBytes)
    ensures byteOffsets.Some? ==> r.Ok? && |r.value| == EntryCount(byteOffsets.value)
  {
    match byteOffsets
    case None => Decode(data, config.lengthBytes)
    case Some(bo) => Ok(IndexedStrings(data, bo, config.headerBytes, config.lengthBytes))
  }

  /** `basket_array`: the packed column of exactly the strings the basket holds, or the
      decoding error of an unindexed basket whose last record runs past its end. */
  method BasketArray(config: AsStrings, data: seq<byte>, byteOffsets: Option<seq<int>>)
    returns (r: Result<StringArray, DecodeError>)
    requires byteOffsets.Some? ==> IndexWellFormed(data, byteOffsets.value, config.headerBytes, config.lengthBytes)
    ensures r.Ok? <==> BasketStrings(config, data, byteOffsets).Ok?
    ensures r.Ok? ==> r.value == FromStrings(BasketStrings(config, data, byteOffsets).value)
    ensures r.Ok? ==> r.value.Packed() && r.value.Strings() == BasketStrings(config, data, byteOffsets).value
    ensures byteOffsets.Some? ==> r.Ok?
  {
    match byteOffsets {
      case None =>
        r := DecodeUnindexed(data, config.lengthBytes);
        if r.Ok? {
          FromStringsStrings(Decode(data, config.lengthBytes).value);
        }
      case Some(bo) =>
        var a := BasketArrayIndexed(data, bo, config.headerBytes, config.lengthBytes);
        r := Ok(a);
    }
  }

  /** Both ways of reading agree on a headerless basket built from strings: the scan and the
      cut at the entry offsets both give back the strings. */
  lemma BasketRoundTrip(config: AsStrings, strs: seq<seq<byte>>)
    requires Encodable(strs) && config.headerBytes == 0
    ensures var data := Encode(strs, config.lengthBytes);
      var bo := OffsetsOf(Entries(NoHeaders(|strs|), strs, config.lengthBytes));
      IndexWellFormed(data, bo, 0, config.lengthBytes) &&
      BasketStrings(config, data, None) == Ok(strs) &&
      BasketStrings(config, data, Some(bo)) == Ok(strs)
  {
    ModesAgree(strs, config.lengthBytes);
    DecodeEncode(strs, config.lengthBytes);
  }
}
