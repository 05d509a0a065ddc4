# uproot4 string interpretation, modelled in Dafny

This project models the interpretation uproot4 uses for a ROOT `TBranch` whose
entries are plain strings (`uproot4/interpretation/strings.py`). It covers:

- **`AsStrings`**: the configuration, with its constructor, `__eq__`, `typename` and
  `cache_key`. A configuration is a header size and a length encoding, `"1-5"` or `"4"`.
- **`basket_array`**: turns one basket's bytes into a `StringArray`. It has two modes:
  - *Unindexed* (no byte offsets): a cursor scans back-to-back, length-prefixed strings.
    Under `"1-5"` a prefix is one byte, or the escape byte 255 followed by a big-endian
    32-bit length. Under `"4"` a prefix is always a big-endian 32-bit length.
  - *Indexed* (with byte offsets): every entry skips its header and its length prefix.
    The string bytes are then selected with a +1/−1 mask, its running sum, and
    boolean-mask indexing.
- **`final_array`**: stitches the per-basket `StringArray`s into the one column of
  entries `entry_start` until `entry_stop`. A first pass measures the column. A second
  pass handles each basket with one of four overlap branches: it shifts that basket's
  offsets and appends its content slice.
- **`StringArray`**: the temporary column (offsets plus packed content), with `__len__`,
  `__getitem__` and `__iter__`.

Every operation is modelled in the form the source gives it:

- The decoders and the stitcher work step by step on pre-allocated buffers. They are
  methods with loops over `array`s. Each is proved against a specification function: the
  decoding of the buffer, the strings an index delimits, or the requested entries.
- The configuration, the length-prefix format and `StringArray` are values. They are
  datatypes and functions.
- `StringArray` never changes after construction, so it is a datatype. `__iter__` is a
  method that walks a cursor over the offsets.

The overlap branches follow the order of the code's `elif` chain. The first branch tried
is the basket that holds the whole request.

The unindexed scan is modelled twice:

- **As written** (`SourceScan`), including numpy's slice clipping and broadcasting.
- **Corrected** (`UnindexedDecoder`): it reports a record that runs past the end of the
  basket. This is the version the rest of the model uses (see Findings).

## Model

| member | source | states |
|---|---|---|
| Config.NewAsStrings | uproot4/interpretation/strings.py:61-70 | succeeds exactly when `length_bytes` is "1-5" or "4", otherwise fails with the invalid-length-bytes error; keeps the header size, the encoding and the type name as given |
| Config.NewAsStringsDefaults | uproot4/interpretation/strings.py:61-63 | called with no arguments, the constructor gives header size 0, the "1-5" encoding and no type name |
| Config.Equals | uproot4/interpretation/strings.py:106-111 | `__eq__` holds exactly when the other interpretation is `AsStrings` and matches this one in everything but the type name |
| Config.EqualsIsEquivalence | uproot4/interpretation/strings.py:106-111 | `__eq__` is reflexive, symmetric and transitive, ignores the type name, and never holds against an interpretation that is not `AsStrings` |
| Config.Typename | uproot4/interpretation/strings.py:113-118 | "char*" when no type name was given, otherwise the given name |
| Config.Decimal | uproot4/interpretation/strings.py:142-143 | the formatted header size is a non-empty string of decimal digits |
| Config.DecimalValueOfDecimal | uproot4/interpretation/strings.py:142-143 | the digits written for a header size denote that header size (formatting is injective) |
| Config.CacheKey | uproot4/interpretation/strings.py:140-144 | a cache key starts with "AsStrings(", ends with ")" and has at least 16 characters |
| Config.CacheKeyShape | uproot4/interpretation/strings.py:140-144 | a cache key is "AsStrings(", then the header size's digits, then a comma, the quoted encoding name and ")" |
| Config.CacheKeyIdentifies | uproot4/interpretation/strings.py:140-144 | two configurations have the same cache key if and only if they are equal under `__eq__` |
| Bytes.U32BE | uproot4/interpretation/strings.py:25 | four bytes read as a big-endian unsigned integer are below 2^32 |
| Bytes.U32BytesRoundTrip | uproot4/interpretation/strings.py:25 | reading back the big-endian bytes of a 32-bit integer gives the integer |
| Bytes.U32BEBytes | uproot4/interpretation/strings.py:25 | every four bytes are the encoding of the integer they denote, so ">I" is a bijection |
| LengthPrefix.ReadLength | uproot4/interpretation/strings.py:171-187 | reading a prefix fails exactly when the buffer is shorter than the prefix ("4": 4 bytes; "1-5": 5 after the escape byte, else 1); a prefix read takes between 1 byte and the whole buffer |
| LengthPrefix.EncodeLength | uproot4/interpretation/strings.py:171-187 | a prefix is 4 bytes under "4", and under "1-5" is 1 byte below 255 and 5 bytes otherwise |
| LengthPrefix.Encode | uproot4/interpretation/strings.py:167-192 | the back-to-back encoding of strings takes at least one byte per string, so an empty buffer encodes no strings |
| LengthPrefix.Decode | uproot4/interpretation/strings.py:167-198 | a decoding yields no more strings than the buffer has bytes, and no strings exactly when the buffer is empty |
| LengthPrefix.ReadEncodedLength | uproot4/interpretation/strings.py:171-187 | reading the prefix written for a length gives that length and consumes exactly the prefix, whatever follows |
| LengthPrefix.DecodeStep | uproot4/interpretation/strings.py:168-180 | a buffer whose first record fits decodes to that record's string followed by the decoding of the rest |
| LengthPrefix.EncodeAppend | uproot4/interpretation/strings.py:167-192 | encoding two runs of strings is encoding each and laying them end to end |
| LengthPrefix.EncodeCons | uproot4/interpretation/strings.py:167-192 | the encoding of strings is the first string's prefix and bytes, then the encoding of the rest |
| LengthPrefix.DecodeEncode | uproot4/interpretation/strings.py:167-198 | decoding the back-to-back prefixed encoding of any strings returns exactly those strings, in order, in both encodings |
| LengthPrefix.DecodeBounds | uproot4/interpretation/strings.py:160-161 | the decoded strings number, and their bytes total, no more than the buffer's length, so `counts` and `outdata` of length `len(data)` always suffice |
| LengthPrefix.EncodeDecodeFour | uproot4/interpretation/strings.py:182-192 | under "4" every buffer that decodes is the encoding of what it decodes to (the format is canonical) |
| LengthPrefix.FourRecord | uproot4/interpretation/strings.py:186-192 | the first record of a decodable "4" buffer is the prefix of its string's length, the string, then a shorter tail that decodes to the remaining strings |
| LengthPrefix.FourPrefix | uproot4/interpretation/strings.py:186 | the first four bytes of a buffer are the "4" prefix of the length they denote |
| LengthPrefix.OneToFiveNotCanonical | uproot4/interpretation/strings.py:171-175 | under "1-5" an escaped short length and a one-byte length decode to the same string, so "1-5" is not canonical |
| Sequences.Cumsum | uproot4/interpretation/strings.py:216 | `numpy.cumsum` has one element per input element |
| Sequences.CumsumAt | uproot4/interpretation/strings.py:223 | the running sum starts at the first element and adds one element per position |
| Sequences.OffsetsMeasure | uproot4/interpretation/strings.py:221-223 | offset i of a packed column is the total byte length of the strings before string i |
| Sequences.ConcatAppend | uproot4/interpretation/strings.py:325 | joining two runs of byte strings is joining each and laying the results end to end |
| Sequences.ConcatSlice | uproot4/interpretation/strings.py:394-395 | in a packed column the bytes between offsets i and i + 1 are exactly string i |
| StringArrays.StringArray.Len | uproot4/interpretation/strings.py:398-399 | `__len__` is less than the number of offsets, and is not negative for a valid column |
| StringArrays.StringArray.Get | uproot4/interpretation/strings.py:394-396 | string i has length offsets[i + 1] − offsets[i] and lies inside the content |
| StringArrays.StringArray.Strings | uproot4/interpretation/strings.py:398-399 | a valid column holds `__len__` = len(offsets) − 1 strings |
| StringArrays.StringArray.Iterate | uproot4/interpretation/strings.py:401-406 | the running-cursor iteration yields `__len__` strings, and the i-th is `__getitem__(i)` |
| StringArrays.ConcatRange | uproot4/interpretation/strings.py:293 | strings i until j of a valid column, laid end to end, are the content between offsets i and j |
| StringArrays.FromStringsStrings | uproot4/interpretation/strings.py:221-229 | the column built from strings is packed, has one entry per string, and reads back exactly those strings |
| StringArrays.StringsFromStrings | uproot4/interpretation/strings.py:367-369 | every packed column is the column built from its own strings (the representation is unique) |
| Offsets.OffsetsFromCounts | uproot4/interpretation/strings.py:221-223 | the offsets are a 0 followed by the running sum of the counts; each offset is the previous one plus that entry's count |
| IndexedDecoder.EntryCount | uproot4/interpretation/strings.py:201-202 | an index of n + 1 offsets delimits n entries |
| IndexedDecoder.PrefixWidthAt | uproot4/interpretation/strings.py:204-211 | `length_header_size` is between 1 and 5 |
| IndexedDecoder.IndexedStrings | uproot4/interpretation/strings.py:200-219 | an indexed basket holds one string per entry |
| IndexedDecoder.OffsetsIncrease | uproot4/interpretation/strings.py:201-202 | in a well-formed index the entries start at strictly increasing offsets |
| IndexedDecoder.ContentStarts | uproot4/interpretation/strings.py:201-211 | `byte_starts` holds, per entry, its offset plus the header size plus its length-prefix width |
| IndexedDecoder.ByteStops | uproot4/interpretation/strings.py:202 | `byte_stops` holds, per entry, the next entry's offset |
| IndexedDecoder.IndexSpansOrdered | uproot4/interpretation/strings.py:201-211 | the string ranges of a well-formed index lie inside the basket, each ending before the next one starts |
| IndexedDecoder.IndexSpanStrings | uproot4/interpretation/strings.py:201-219 | the ranges from `byte_starts` to `byte_stops` delimit exactly the indexed strings |
| IndexedDecoder.MarkBoundaries | uproot4/interpretation/strings.py:213-215 | each mask position is 1 if some range starts there, minus the number of ranges that stop there |
| IndexedDecoder.CumsumInPlace | uproot4/interpretation/strings.py:216 | the array becomes the running sum of its old contents |
| IndexedDecoder.SelectMasked | uproot4/interpretation/strings.py:217 | the selection keeps exactly the bytes whose mask entry is non-zero, in order |
| IndexedDecoder.SelectSpans | uproot4/interpretation/strings.py:213-217 | the mask, its running sum and the selection lay the ranges' strings end to end |
| IndexedDecoder.BasketArrayIndexed | uproot4/interpretation/strings.py:200-229 | the indexed branch returns the packed column of exactly the entries' strings |
| IndexedDecoder.Entry | uproot4/interpretation/strings.py:204-211 | an entry is its header, its length prefix and its string bytes |
| IndexedDecoder.Entries | uproot4/interpretation/strings.py:200-211 | a basket built from strings has one entry per string |
| IndexedDecoder.NoHeaders | uproot4/interpretation/strings.py:201 | entries without headers carry empty headers |
| IndexedDecoder.EntryRead | uproot4/interpretation/strings.py:204-211 | at an entry laid out as header, prefix and string, `length_header_size` is the width of that prefix, and the bytes after it up to the entry's end are the string |
| IndexedDecoder.EntryFromSlice | uproot4/interpretation/strings.py:201-219 | an entry whose bytes are header, prefix and string is well formed, and the decoder reads back its string |
| IndexedDecoder.EntryRoundTrip | uproot4/interpretation/strings.py:201-219 | entry i of a basket built from headers and strings is well formed under the basket's own offsets, and reads back as string i |
| IndexedDecoder.IndexedRoundTrip | uproot4/interpretation/strings.py:200-219 | a basket built from headers of the configured size and strings, read with its own entry offsets, yields exactly the strings |
| IndexedDecoder.EncodeAsEntries | uproot4/interpretation/strings.py:159-211 | headerless entries laid end to end are the back-to-back prefixed strings of an unindexed basket |
| IndexedDecoder.ModesAgree | uproot4/interpretation/strings.py:159-219 | on a headerless basket both branches of `basket_array` read the same strings: the scan and the cut at the entry offsets |
| Spans.SpanStrings | uproot4/interpretation/strings.py:219 | one string per range |
| Spans.MarksPositive | uproot4/interpretation/strings.py:214 | a position is marked exactly when some start equals it |
| Spans.MarksAtMostOne | uproot4/interpretation/strings.py:214-215 | in a strictly increasing sequence a value occurs at most once, and once exactly when present |
| Spans.CoverStep | uproot4/interpretation/strings.py:213-216 | moving one position right changes coverage by +1 at a range start and by −1 at a range stop |
| Spans.CoverInside | uproot4/interpretation/strings.py:213-216 | a covered position is no range's stop, and starts a range exactly when the position before it is uncovered |
| Spans.CoverLeaving | uproot4/interpretation/strings.py:213-216 | the first uncovered position after a range is that range's stop and no range's start |
| Spans.CoverOutside | uproot4/interpretation/strings.py:213-216 | away from any range, a position starts a range exactly when it stops one (an empty string) |
| Spans.CoverPrefix | uproot4/interpretation/strings.py:216 | the running sum of the marks up to x is 1 exactly where x is covered, 0 elsewhere |
| Spans.CoverCumsum | uproot4/interpretation/strings.py:213-216 | the running sum of the whole mask is the coverage of the ranges, so it never goes negative or above 1 |
| Spans.Picked | uproot4/interpretation/strings.py:217 | boolean-mask selection keeps at most all the elements |
| Spans.PickedAppend | uproot4/interpretation/strings.py:217 | selection over two adjacent pieces is the two selections laid end to end |
| Spans.PickedNone | uproot4/interpretation/strings.py:217 | an all-zero mask selects nothing |
| Spans.PickedAll | uproot4/interpretation/strings.py:217 | an all-non-zero mask selects everything |
| Spans.Uncovered | uproot4/interpretation/strings.py:213-216 | no position between the end of one range and the start of the next is covered |
| Spans.PickedThree | uproot4/interpretation/strings.py:217 | selection up to a range's end is the selection before the gap, of the gap, and of the range |
| Spans.PickedUpTo | uproot4/interpretation/strings.py:213-217 | keeping the covered positions before the end of range k yields the first k strings end to end |
| Spans.PickedSpans | uproot4/interpretation/strings.py:213-217 | selecting with the coverage of ordered ranges lays the ranges' strings end to end |
| UnindexedDecoder.ReadLengthAt | uproot4/interpretation/strings.py:171-187 | a prefix read in place takes at least one byte |
| UnindexedDecoder.ReadLengthInPlace | uproot4/interpretation/strings.py:171-187 | reading the prefix at a position is reading the prefix at the start of the rest of the buffer |
| UnindexedDecoder.ReadPrefixAt | uproot4/interpretation/strings.py:171-187 | reading one byte, then four more after 255 under "1-5" (the "1-5" loop), or four bytes under "4" (the "4" loop), gives the prefix at that position |
| UnindexedDecoder.ScanFrom | uproot4/interpretation/strings.py:167-192 | the scan loop only appends: a successful scan keeps the counts and the content produced so far as prefixes of its result |
| UnindexedDecoder.ScanStep | uproot4/interpretation/strings.py:168-192 | one turn of the scan loop on a record that fits leaves its outcome unchanged |
| UnindexedDecoder.AccumulateThen | uproot4/interpretation/strings.py:176-179 | recording one more string, then a decoding, is recording the decoding with that string in front |
| UnindexedDecoder.DecodeAtRecord | uproot4/interpretation/strings.py:171-180 | a record that fits at a position: the rest of the buffer decodes to its string, then the decoding after it |
| UnindexedDecoder.DecodeAtTruncated | uproot4/interpretation/strings.py:171-180 | a record cut short at a position: decoding the rest of the buffer fails with the truncation error |
| UnindexedDecoder.ScanFromRecord | uproot4/interpretation/strings.py:168-192 | a record that fits: if the scan after it matches the decoding, the scan from it does too |
| UnindexedDecoder.ScanFromTruncated | uproot4/interpretation/strings.py:168-192 | a record cut short: both the scan and the decoding fail with the truncation error |
| UnindexedDecoder.ScanFromDecodes | uproot4/interpretation/strings.py:167-198 | the scan continued from any position produces the counts and content of decoding the rest of the buffer |
| UnindexedDecoder.CopyInto | uproot4/interpretation/strings.py:178 | the slice assignment writes the source right after the kept prefix |
| UnindexedDecoder.Emit | uproot4/interpretation/strings.py:176-179 | `counts` gains the record's size and `outdata` its bytes; everything before them is kept |
| UnindexedDecoder.ReadRecord | uproot4/interpretation/strings.py:169-180 | one turn either finds a record, within the buffer and past the cursor, that leaves the scan's outcome unchanged, or ends the scan with the truncation error |
| UnindexedDecoder.ScanRecords | uproot4/interpretation/strings.py:159-198 | the loops of both encodings compute the scan's outcome from the start, with counts and content that fit in `len(data)` |
| UnindexedDecoder.DecodeUnindexed | uproot4/interpretation/strings.py:159-229 | the unindexed branch returns the packed column of exactly the strings the buffer decodes to, or its decoding error; the column is no longer than the buffer |
| Basket.BasketStrings | uproot4/interpretation/strings.py:159-219 | with byte offsets, a basket always holds one string per entry |
| Basket.BasketArray | uproot4/interpretation/strings.py:146-242 | `basket_array` succeeds exactly when the basket's strings are defined, and then returns the packed column of exactly those strings; with byte offsets it always succeeds |
| Basket.BasketRoundTrip | uproot4/interpretation/strings.py:159-219 | a headerless basket built from strings is read back as those strings with and without its byte offsets, in both encodings |
| FinalArray.Classify | uproot4/interpretation/strings.py:285-321 | each of the four branches (and the fall-through) holds exactly for its own overlap of basket and request, stated without reference to the other branches |
| FinalArray.Clip | uproot4/interpretation/strings.py:286-317 | clipping into the request keeps positions inside it and moves those outside to the nearer end |
| FinalArray.LocalRangeClipped | uproot4/interpretation/strings.py:286-321 | in every branch, `local_start` and `local_stop` are the basket's first and last requested positions; a skipped basket adds nothing |
| FinalArray.MeasureLength | uproot4/interpretation/strings.py:266-277 | the first pass counts the requested entries the baskets hold, which is `entry_stop − entry_start` when the baskets cover the request |
| FinalArray.BasketFrom | uproot4/interpretation/strings.py:268-269 | the basket found for an entry holds that entry |
| FinalArray.BasketFromUnique | uproot4/interpretation/strings.py:268-269 | with non-decreasing entry offsets, that basket is the only one whose range holds the entry |
| FinalArray.Requested | uproot4/interpretation/strings.py:244-325 | the requested column has `entry_stop − entry_start` strings |
| FinalArray.WriteShifted | uproot4/interpretation/strings.py:289-291 | `offsets[at:at + n] = shift + off[lo:hi + 1]` writes the shifted basket offsets there and leaves all other offsets unchanged |
| FinalArray.RequestedAt | uproot4/interpretation/strings.py:286-288 | requested entry j is string `entry_start + j − entry_offsets[k]` of the basket k that holds it |
| FinalArray.RequestedInBasket | uproot4/interpretation/strings.py:284-321 | the requested entries that a basket holds are its strings from `local_start` to `local_stop` |
| FinalArray.ShiftedSlice | uproot4/interpretation/strings.py:289-293 | the requested strings a basket supplies are that basket's strings `local_start` until `local_stop` |
| FinalArray.ShiftedOffsetAt | uproot4/interpretation/strings.py:289-293 | an offset after a basket's piece is `before` plus the basket's offset change, and the content so far gains the basket's content slice |
| FinalArray.ShiftedOffsetWithin | uproot4/interpretation/strings.py:289-291 | each offset inside a basket's piece is `before − off[local_start] + off[...]` |
| FinalArray.ShiftedOffsets | uproot4/interpretation/strings.py:289-293 | the shifted basket offsets are exactly the requested column's offsets over the basket's piece, and the content slice is exactly its content |
| FinalArray.Window | uproot4/interpretation/strings.py:284-321 | whether the request reaches a basket and, if so, where its piece starts and ends in the basket and where it goes in the result |
| FinalArray.PlaceBasket | uproot4/interpretation/strings.py:288-293 | one basket's share advances `before` to the next requested offset, puts every offset up to there in place, and appends the basket's content slice |
| FinalArray.PlaceOffsets | uproot4/interpretation/strings.py:289-292 | writing a basket's offsets moved by `before − off[local_start]` puts every requested offset up to that basket's last string in place, and `before` advances to the next requested offset |
| FinalArray.AppendPiece | uproot4/interpretation/strings.py:293 | appending a basket's slice to the contents so far gives the content of all strings up to that basket's last |
| FinalArray.Stitch | uproot4/interpretation/strings.py:279-325 | the second pass produces exactly the offsets and content of the packed column of the requested strings |
| FinalArray.FinalArray | uproot4/interpretation/strings.py:244-325 | an empty request gives an empty column; otherwise the result is the packed column of exactly the strings of entries `entry_start` until `entry_stop`, one per entry |
| SourceScan.Repeat | uproot4/interpretation/strings.py:178 | a broadcast one-element source is n copies of its element |
| SourceScan.AssignSlice | uproot4/interpretation/strings.py:178 | numpy's slice assignment succeeds exactly when the source matches the clipped target's length or has one element; the array keeps its length and everything before the target |
| SourceScan.StepAsWritten | uproot4/interpretation/strings.py:169-180 | one turn as written moves the cursor forward and keeps `outdata` at its length |
| SourceScan.ScanAsWritten | uproot4/interpretation/strings.py:167-198 | the loop as written only appends to the counts, and the trimmed content is never longer than `outdata` |
| SourceScan.UnindexedAsWritten | uproot4/interpretation/strings.py:159-229 | the column as written starts its offsets at 0 and holds no more content than the basket |
| SourceScan.StepAsWrittenFits | uproot4/interpretation/strings.py:169-180 | on a record that fits, the turn as written reads the same start and size as the checked scan |
| SourceScan.CopyFits | uproot4/interpretation/strings.py:178 | a copy that fits writes the string right after the content gathered so far |
| SourceScan.ScanAsWrittenUnfold | uproot4/interpretation/strings.py:168-180 | the scan as written continues from wherever its turn leaves it |
| SourceScan.OkRecord | uproot4/interpretation/strings.py:169-180 | where the checked scan succeeds, the record at the cursor fits and the scan after it succeeds with the same outcome |
| SourceScan.AgreesStep | uproot4/interpretation/strings.py:169-180 | on a decodable buffer one turn as written takes the same record as the checked scan |
| SourceScan.ScanAsWrittenAgrees | uproot4/interpretation/strings.py:159-198 | on a decodable buffer the scan as written produces the checked scan's counts and content, whatever `numpy.empty` left in `outdata` |
| SourceScan.UnindexedAsWrittenAgrees | uproot4/interpretation/strings.py:159-229 | on a decodable buffer the unindexed branch as written returns the packed column of the decoded strings |
| SourceScan.TruncationRaises | uproot4/interpretation/strings.py:171-180 | the source raises on [3, 97, 98] under "1-5" (two bytes cannot fill a three-byte slice) and on [255, 0, 0] (the four-byte length is cut short), and the decoding reports both as truncations |
| SourceScan.BroadcastOverrun | uproot4/interpretation/strings.py:171-180 | the buffer [5, 97] under "1-5" is returned as written as the invalid column with offsets [0, 5] and content [97, 97]; the decoding reports truncation |
| SourceScan.BroadcastInvents | uproot4/interpretation/strings.py:171-180 | the buffer [2, 97] under "1-5" is returned as written as a well-formed column holding the string "aa", which the basket does not contain; the decoding reports truncation |

## Left out

- The `hook_*` calls: they are extension points with no effect on the result.
- `library.finalize` and `library.zeros`: the model stops at the `StringArray` handed to the library.
- `awkward_form`, `numpy_dtype`, `original` and the `__repr__` methods: these are descriptive only.
- `ensure_str` in `__getitem__` and `__iter__`: strings are kept as bytes, with no text decoding.
- `cache_key`: `repr` is modelled only for the two accepted encoding names, which contain no quote or backslash.
- numpy integer widths: offsets are int32 in `basket_array` and int64 in `final_array`, counts are int32 and the mask is int8. The model uses unbounded integers, so overflows of these widths are not modelled.
- SourceScan.UnindexedAsWritten: keeps a declared length unbounded where the source stores it into int32 `counts`. A single corrupt prefix of 2^31 or more, such as `[255, 128, 0, 0, 0, 97]` under "1-5", wraps or raises there, depending on the numpy version, in a basket of six bytes.
- Python's negative indexing in `StringArray.__getitem__`: indices are required to be in range.
- The uninitialised contents of `numpy.empty` are a parameter (`empty`) of the as-written scan.
- An empty request returns an empty column: the empty-range return path skips `library.finalize` and the later hook.
- Config.NewAsStrings: the header size is a natural number; negative `header_bytes` is not modelled.
- IndexedDecoder.BasketArrayIndexed: requires well-formed byte offsets. The source does not check them, so offsets that would raise an IndexError or yield garbage counts are outside the model.
- Basket.BasketArray: requires well-formed byte offsets when they are given, for the same reason.
- FinalArray.FinalArray: requires entry offsets that cover the request, and a basket of the right size for every basket the request reaches. A missing basket (a KeyError in the source) or a basket of the wrong length is outside the model.
- UnindexedDecoder.DecodeUnindexed: reports a record that runs past the end of the basket as a truncation error; the source raises (struct.error on a prefix cut short, or a numpy ValueError when the bytes left cannot fill the slice) except when a one-byte remainder lets numpy broadcast it, where it builds a column (see Findings and `SourceScan.TruncationRaises`).
- The `TTree` behaviour module and the rest of uproot4 are not part of this model.

## Findings

| source | as written | input that shows it | evidently intended | confidence | as-written member | corrected member |
|---|---|---|---|---|---|---|
| uproot4/interpretation/strings.py:171-180 | the scan copies `data[pos:pos + size]` into `outdata[len_outdata:len_outdata + size]` without checking that `size` bytes remain; numpy clips the source slice and broadcasts a one-byte remainder, and `len_outdata` still advances by `size` | `data = [5, 97]` under "1-5": a prefix announcing 5 bytes with 1 byte left | a truncated basket is reported, not turned into a column | not executed | SourceScan.BroadcastOverrun | UnindexedDecoder.DecodeUnindexed |

In that example the source returns offsets `[0, 5]` with content `[97, 97]`: the last
offset exceeds the content length, so the column is not valid. For `[2, 97]` the source
returns offsets `[0, 2]` with content `[97, 97]` (`SourceScan.BroadcastInvents`): a
well-formed column holding the string "aa", which the basket never contained. When no
byte, or two or more bytes but fewer than `size`, remain, numpy refuses the assignment
instead, and a four-byte length cut short fails to unpack (`SourceScan.TruncationRaises`).
