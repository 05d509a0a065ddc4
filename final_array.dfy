/** `AsStrings.final_array` up to the StringArray it hands to the library: the
    requested entries [entryStart, entryStop) are cut out of the per-basket string
    arrays and stitched into one packed column. Basket k holds the entries
    [entryOffsets[k], entryOffsets[k + 1]). */
module FinalArray {
  import opened Bytes
  import opened Sequences
  import opened StringArrays

  /** How basket [start, stop) meets the request [es, ee): the four branches of the
      source, tried in order, and the baskets none of them takes. */
  datatype Overlap = Holds | StartsInside | StopsInside | Within | Disjoint

  /** The branch the source takes for a basket; what each branch means for a non-empty request. */
  function Classify(start: int, stop: int, es: int, ee: int): (c: Overlap)
    requires es < ee && start <= stop
    ensures c == Holds <==> start <= es && ee <= stop
    ensures c == StartsInside <==> start <= es < stop < ee
    ensures c == StopsInside <==> es < start <= ee <= stop
    ensures c == Within <==> es < start && stop < ee
    ensures c == Disjoint <==> !(es < stop && start <= ee)
  {
    if start <= es && ee <= stop then Holds
    else if start <= es < stop then StartsInside
    else if start <= ee <= stop then StopsInside
    else if es < stop && start <= ee then Within
    else Disjoint
  }

  /** A position moved into the request: max(es, min(x, ee)). */
  function Clip(x: int, es: int, ee: int): (y: int)
    requires es <= ee
    ensures es <= y <= ee
    ensures es <= x <= ee ==> y == x
    ensures x < es ==> y == es
    ensures ee < x ==> y == ee
  {
    if x < es then es else if x > ee then ee else x
  }

  /** `local_start` of each branch. */
  function LocalStart(c: Overlap, start: int, es: int): int
  {
    match c
    case Holds => es - start
    case StartsInside => es - start
    case _ => 0
  }

  /** `local_stop` of each branch (`len(off) - 1` in the last one). */
  function LocalStop(c: Overlap, start: int, stop: int, ee: int): int
  {
    match c
    case Holds => ee - start
    case StopsInside => ee - start
    case _ => stop - start
  }

  /** Every branch takes the entries of the basket that lie inside the request, and the
      first pass adds the number of them. */
  lemma LocalRangeClipped(start: int, stop: int, es: int, ee: int)
    requires es < ee && start <= stop
    ensures var c := Classify(start, stop, es, ee);
      c != Disjoint ==>
        LocalStart(c, start, es) == Clip(start, es, ee) - start &&
        LocalStop(c, start, stop, ee) == Clip(stop, es, ee) - start &&
        (c == Holds || c == StartsInside <==> Clip(start, es, ee) == es) &&
        Clip(stop, es, ee) > es
    ensures Classify(start, stop, es, ee) == Disjoint ==> Clip(start, es, ee) == Clip(stop, es, ee)
  {
  }

  /** Entry offsets never decrease. */
  predicate NonDecreasing(eo: seq<int>)
  {
    forall i, j :: 0 <= i <= j < |eo| ==> eo[i] <= eo[j]
  }

  /** The first pass: the number of requested entries the baskets hold. */
  method MeasureLength(eo: seq<int>, es: int, ee: int) returns (length: int)
    requires es < ee && |eo| >= 1 && NonDecreasing(eo)
    ensures length == Clip(eo[|eo| - 1], es, ee) - Clip(eo[0], es, ee)
    ensures eo[0] <= es && ee <= eo[|eo| - 1] ==> length == ee - es
  {
    length := 0;
    var start := eo[0];
    for k := 0 to |eo| - 1
      invariant start == eo[k]
      invariant length == Clip(eo[k], es, ee) - Clip(eo[0], es, ee)
    {
      var stop := eo[k + 1];
      if start <= es && ee <= stop {
        length := length + (ee - es);
      } else if start <= es < stop {
        length := length + (stop - es);
      } else if start <= ee <= stop {
        length := length + (ee - start);
      } else if es < stop && start <= ee {
        length := length + (stop - start);
      }
      start := stop;
    }
  }

  predicate Touches(start: int, stop: int, es: int, ee: int)
  {
    es < stop && start <= ee
  }

  /** Basket k, when the request reaches it, is present and holds exactly its entries. */
  predicate BasketReady(baskets: map<int, StringArray>, eo: seq<int>, es: int, ee: int, k: int)
    requires 0 <= k < |eo| - 1
  {
    Touches(eo[k], eo[k + 1], es, ee) ==>
      k in baskets && baskets[k].Valid() && baskets[k].Len() == eo[k + 1] - eo[k]
  }

  /** A non-empty request inside the baskets' entry range. */
  predicate Covers(eo: seq<int>, es: int, ee: int)
  {
    es < ee && |eo| >= 1 && NonDecreasing(eo) && eo[0] <= es && ee <= eo[|eo| - 1]
  }

  /** What the stitching relies on: a covered request, and every basket it reaches. */
  predicate StitchInputs(baskets: map<int, StringArray>, eo: seq<int>, es: int, ee: int)
  {
    Covers(eo, es, ee) && forall k :: 0 <= k < |eo| - 1 ==> BasketReady(baskets, eo, es, ee, k)
  }

  /** The basket holding entry e, searching from basket k on. */
  function BasketFrom(eo: seq<int>, e: int, k: nat): (b: nat)
    requires k < |eo| - 1 && eo[k] <= e < eo[|eo| - 1]
    ensures k <= b < |eo| - 1 && eo[b] <= e < eo[b + 1]
    decreases |eo| - k
  {
    if e < eo[k + 1] then k else BasketFrom(eo, e, k + 1)
  }

  /** With non-decreasing offsets the basket of an entry is the only one whose range holds it. */
  lemma BasketFromUnique(eo: seq<int>, e: int, k: nat)
    requires NonDecreasing(eo) && k < |eo| - 1 && eo[k] <= e < eo[k + 1]
    ensures BasketFrom(eo, e, 0) == k
  {
  }

  /** Requested entry e: its string in the basket that holds it. */
  function EntryAt(baskets: map<int, StringArray>, eo: seq<int>, es: int, ee: int, e: int): seq<byte>
    requires StitchInputs(baskets, eo, es, ee) && es <= e < ee
  {
    var k := BasketFrom(eo, e, 0);
    assert BasketReady(baskets, eo, es, ee, k);
    baskets[k].Get(e - eo[k])
  }

  /** The strings of entries es until ee, in entry order. */
  function Requested(baskets: map<int, StringArray>, eo: seq<int>, es: int, ee: int): (r: seq<seq<byte>>)
    requires StitchInputs(baskets, eo, es, ee)
    ensures |r| == ee - es
  {
    seq(ee - es, j requires 0 <= j < ee - es => EntryAt(baskets, eo, es, ee, es + j))
  }

  /** `offsets[at : at + hi - lo + 1] = shift + off[lo : hi + 1]`. */
  method WriteShifted(offsets: array<int>, at: int, off: seq<int>, lo: int, hi: int, shift: int)
    requires 0 <= lo <= hi < |off| && 0 <= at && at + (hi - lo) < offsets.Length
    modifies offsets
    ensures forall j :: at <= j <= at + (hi - lo) ==> offsets[j] == shift + off[lo + (j - at)]
    ensures forall j :: 0 <= j < offsets.Length && !(at <= j <= at + (hi - lo)) ==> offsets[j] == old(offsets[j])
  {
    for t := 0 to hi - lo + 1
      invariant forall j :: at <= j < at + t ==> offsets[j] == shift + off[lo + (j - at)]
      invariant forall j :: 0 <= j < offsets.Length && !(at <= j < at + t) ==> offsets[j] == old(offsets[j])
    {
      offsets[at + t] := shift + off[lo + t];
    }
  }

  /** Basket k, when the request reaches it, supplies `req` from position p on: its strings
      lo until hi, where p, lo and hi are its first requested entry counted in the request, in
      the basket, and its end in the basket. */
  predicate HoldsPiece(req: seq<seq<byte>>, baskets: map<int, StringArray>, eo: seq<int>, es: int, ee: int, k: int)
    requires es <= ee && 0 <= k < |eo| - 1
  {
    var p, lo, hi := Clip(eo[k], es, ee) - es, Clip(eo[k], es, ee) - eo[k], Clip(eo[k + 1], es, ee) - eo[k];
    Touches(eo[k], eo[k + 1], es, ee) ==>
      k in baskets && baskets[k].Valid() && 0 <= lo <= hi <= baskets[k].Len() && p + (hi - lo) <= |req| &&
      forall j :: p <= j < p + (hi - lo) ==> req[j] == baskets[k].Get(lo + (j - p))
  }

  /** Requested entry j is string `es + j - eo[k]` of the basket k whose entries hold it. */
  lemma RequestedAt(baskets: map<int, StringArray>, eo: seq<int>, es: int, ee: int, k: int, j: int)
    requires StitchInputs(baskets, eo, es, ee) && 0 <= k < |eo| - 1
    requires 0 <= j < ee - es && eo[k] <= es + j < eo[k + 1]
    ensures k in baskets && baskets[k].Valid() && 0 <= es + j - eo[k] < baskets[k].Len()
    ensures Requested(baskets, eo, es, ee)[j] == baskets[k].Get(es + j - eo[k])
  {
    BasketFromUnique(eo, es + j, k);
    assert BasketReady(baskets, eo, es, ee, k);
    assert Requested(baskets, eo, es, ee)[j] == EntryAt(baskets, eo, es, ee, es + j);
  }

  /** The requested entries that basket k holds are its strings from lo to hi. */
  lemma RequestedInBasket(baskets: map<int, StringArray>, eo: seq<int>, es: int, ee: int, k: int)
    requires StitchInputs(baskets, eo, es, ee) && 0 <= k < |eo| - 1
    ensures HoldsPiece(Requested(baskets, eo, es, ee), baskets, eo, es, ee, k)
  {
    if Touches(eo[k], eo[k + 1], es, ee) {
      assert BasketReady(baskets, eo, es, ee, k);
      var p, lo := Clip(eo[k], es, ee) - es, Clip(eo[k], es, ee) - eo[k];
      forall j | p <= j < Clip(eo[k + 1], es, ee) - es
        ensures Requested(baskets, eo, es, ee)[j] == baskets[k].Get(lo + (j - p))
      {
        RequestedAt(baskets, eo, es, ee, k, j);
      }
    }
  }

  /** The requested strings from position p to `next` are the basket strings lo until hi. */
  lemma ShiftedSlice(req: seq<seq<byte>>, p: int, b: StringArray, lo: int, hi: int, next: int)
    requires b.Valid() && 0 <= lo <= hi <= b.Len() && 0 <= p && next == p + (hi - lo) && next <= |req|
    requires forall j :: p <= j < next ==> req[j] == b.Get(lo + (j - p))
    ensures req[p..next] == b.Strings()[lo..hi]
  {
    forall j | p <= j < next
      ensures req[j] == b.Strings()[lo + (j - p)]
    {
    }
  }

  /** Offset p + t of a packed column of `req`, where the t strings after position p are basket
      strings lo.. : the basket's offset lo + t moved to start at offset p. */
  lemma ShiftedOffsetAt(req: seq<seq<byte>>, p: int, b: StringArray, lo: int, t: int)
    requires b.Valid() && 0 <= lo && 0 <= t && lo + t <= b.Len() && 0 <= p && p + t <= |req|
    requires req[p..p + t] == b.Strings()[lo..lo + t]
    ensures OffsetsOf(req)[p + t] == OffsetsOf(req)[p] + b.offsets[lo + t] - b.offsets[lo]
    ensures Concat(req[..p + t]) == Concat(req[..p]) + b.content[b.offsets[lo]..b.offsets[lo + t]]
  {
    OffsetsMeasure(req, p);
    OffsetsMeasure(req, p + t);
    assert req[..p + t] == req[..p] + req[p..p + t];
    ConcatAppend(req[..p], req[p..p + t]);
    ConcatRange(b, lo, lo + t);
  }

  /** The offsets of a packed column of `req` from position p on, where the strings are basket
      strings lo.. : the basket's offsets moved to start at offset p. */
  lemma ShiftedOffsets(req: seq<seq<byte>>, p: int, b: StringArray, lo: int, hi: int, next: int)
    requires b.Valid() && 0 <= lo <= hi <= b.Len() && 0 <= p && next == p + (hi - lo) && next <= |req|
    requires forall j :: p <= j < next ==> req[j] == b.Get(lo + (j - p))
    ensures forall i :: p <= i <= next ==> OffsetsOf(req)[i] == OffsetsOf(req)[p] + b.offsets[lo + (i - p)] - b.offsets[lo]
    ensures Concat(req[..next]) == Concat(req[..p]) + b.content[b.offsets[lo]..b.offsets[hi]]
  {
    ShiftedSlice(req, p, b, lo, hi, next);
    forall i | p <= i <= next
      ensures OffsetsOf(req)[i] == OffsetsOf(req)[p] + b.offsets[lo + (i - p)] - b.offsets[lo]
    {
      ShiftedOffsetWithin(req, p, b, lo, hi, next, i);
    }
    ShiftedOffsetAt(req, p, b, lo, hi - lo);
  }

  /** One offset inside the shifted run: what ShiftedOffsetAt says, for a prefix of the run. */
  lemma ShiftedOffsetWithin(req: seq<seq<byte>>, p: int, b: StringArray, lo: int, hi: int, next: int, i: int)
    requires b.Valid() && 0 <= lo <= hi <= b.Len() && 0 <= p && next == p + (hi - lo) && next <= |req|
    requires req[p..next] == b.Strings()[lo..hi] && p <= i <= next
    ensures OffsetsOf(req)[i] == OffsetsOf(req)[p] + b.offsets[lo + (i - p)] - b.offsets[lo]
  {
    assert req[p..i] == req[p..next][..i - p];
    assert b.Strings()[lo..lo + (i - p)] == b.Strings()[lo..hi][..i - p];
    ShiftedOffsetAt(req, p, b, lo, i - p);
  }

  /** How many offsets are in place once `done` requested entries are stitched. */
  function Written(done: int): int
  {
    if done == 0 then 0 else done + 1
  }

  /** The second pass's view of one basket: whether the request reaches it and, if so, its
      first and end entry counted in the basket (`local_start`, `local_stop`) and where its
      offsets go in the output (`local_offsets_start`). */
  method Window(start: int, stop: int, es: int, ee: int) returns (touch: bool, lo: int, hi: int, at: int)
    requires es < ee && start <= stop
    ensures touch == Touches(start, stop, es, ee)
    ensures touch ==> lo == Clip(start, es, ee) - start && hi == Clip(stop, es, ee) - start && at == Clip(start, es, ee) - es
    ensures !touch ==> Clip(start, es, ee) == Clip(stop, es, ee)
  {
    LocalRangeClipped(start, stop, es, ee);
    var c := Classify(start, stop, es, ee);
    touch := c != Disjoint;
    lo, hi := LocalStart(c, start, es), LocalStop(c, start, stop, ee);
    at := if c == Holds || c == StartsInside then 0 else start - es;
  }

  /** One basket's share of the second pass: its offsets lo..hi, moved to start where the
      content stands, written from position `at` on, and its slice of content. */
  method PlaceBasket(out: array<int>, ghost req: seq<seq<byte>>, b: StringArray, lo: int, hi: int, at: int, before: int,
                     contents: seq<seq<byte>>)
    returns (after: int, contents': seq<seq<byte>>)
    requires b.Valid() && 0 <= lo <= hi <= b.Len() && 0 <= at && at + (hi - lo) <= |req| && out.Length == |req| + 1
    requires forall j :: at <= j < at + (hi - lo) ==> req[j] == b.Get(lo + (j - at))
    requires before == OffsetsOf(req)[at] && Concat(contents) == Concat(req[..at])
    requires forall j :: 0 <= j < Written(at) ==> out[j] == OffsetsOf(req)[j]
    modifies out
    ensures after == OffsetsOf(req)[at + (hi - lo)]
    ensures forall j :: 0 <= j < Written(at + (hi - lo)) ==> out[j] == OffsetsOf(req)[j]
    ensures contents' == contents + [b.content[b.offsets[lo]..b.offsets[hi]]]
    ensures Concat(contents') == Concat(req[..at + (hi - lo)])
  {
    after := PlaceOffsets(out, req, b, lo, hi, at, before);
    var piece := b.content[b.offsets[lo]..b.offsets[hi]];
    contents' := contents + [piece];
    AppendPiece(contents, req, at, at + (hi - lo), piece);
  }

  /** The offsets half of a basket's share: `offsets[at : at + hi - lo + 1]` gets the basket's
      offsets moved by `before - off[lo]`, which are the requested column's own offsets there. */
  method PlaceOffsets(out: array<int>, ghost req: seq<seq<byte>>, b: StringArray, lo: int, hi: int, at: int, before: int)
    returns (after: int)
    requires b.Valid() && 0 <= lo <= hi <= b.Len() && 0 <= at && at + (hi - lo) <= |req| && out.Length == |req| + 1
    requires forall j :: at <= j < at + (hi - lo) ==> req[j] == b.Get(lo + (j - at))
    requires before == OffsetsOf(req)[at]
    requires forall j :: 0 <= j < Written(at) ==> out[j] == OffsetsOf(req)[j]
    modifies out
    ensures after == OffsetsOf(req)[at + (hi - lo)]
    ensures forall j :: 0 <= j < Written(at + (hi - lo)) ==> out[j] == OffsetsOf(req)[j]
    ensures Concat(req[..at + (hi - lo)]) == Concat(req[..at]) + b.content[b.offsets[lo]..b.offsets[hi]]
  {
    ShiftedOffsets(req, at, b, lo, hi, at + (hi - lo));
    WriteShifted(out, at, b.offsets, lo, hi, before - b.offsets[lo]);
    after := before + (b.offsets[hi] - b.offsets[lo]);
  }

  /** Appending a basket's piece to the content gathered so far gathers the content of
      the strings up to the basket's last one. */
  lemma AppendPiece(contents: seq<seq<byte>>, req: seq<seq<byte>>, at: int, next: int, piece: seq<byte>)
    requires 0 <= at <= next <= |req| && Concat(contents) == Concat(req[..at])
    requires Concat(req[..next]) == Concat(req[..at]) + piece
    ensures Concat(contents + [piece]) == Concat(req[..next])
  {
    ConcatAppend(contents, [piece]);
    ConcatSingle(piece);
  }

  /** The second pass: every basket the request reaches adds its offsets, moved to start where
      the content stands, and its slice of content. Whatever strings the baskets supply in
      order, the result is their packed column. */
  method Stitch(baskets: map<int, StringArray>, eo: seq<int>, es: int, ee: int, length: int, ghost req: seq<seq<byte>>)
    returns (offsets: seq<int>, content: seq<byte>)
    requires Covers(eo, es, ee) && length == ee - es && |req| == ee - es
    requires forall k :: 0 <= k < |eo| - 1 ==> HoldsPiece(req, baskets, eo, es, ee, k)
    ensures offsets == OffsetsOf(req) && content == Concat(req)
  {
    var out := new int[length + 1];
    ghost var want := OffsetsOf(req);
    OffsetsMeasure(req, 0);
    assert req[..0] == [];
    var before := 0;
    var start := eo[0];
    var contents: seq<seq<byte>> := [];
    ghost var done := 0;
    for k := 0 to |eo| - 1
      invariant start == eo[k] && done == Clip(start, es, ee) - es
      invariant before == want[done]
      invariant Concat(contents) == Concat(req[..done])
      invariant forall j :: 0 <= j < Written(done) ==> out[j] == want[j]
    {
      var stop := eo[k + 1];
      var touch, lo, hi, at := Window(start, stop, es, ee);
      if touch {
        assert HoldsPiece(req, baskets, eo, es, ee, k);
        before, contents := PlaceBasket(out, req, baskets[k], lo, hi, at, before, contents);
        done := done + (hi - lo);
      }
      start := stop;
    }
    assert req[..ee - es] == req;
    offsets, content := out[..], Concat(contents);
  }

  /** `final_array` up to the StringArray: an empty StringArray for an empty request,
      otherwise the packed column of exactly the requested entries, in entry order. */
  method FinalArray(baskets: map<int, StringArray>, es: int, ee: int, eo: seq<int>) returns (out: StringArray)
    requires es < ee ==> StitchInputs(baskets, eo, es, ee)
    ensures es >= ee ==> out == StringArray([0], [])
    ensures es < ee ==> out == FromStrings(Requested(baskets, eo, es, ee))
    ensures es < ee ==> out.Packed() && out.Len() == ee - es && out.Strings() == Requested(baskets, eo, es, ee)
  {
    if es >= ee {
      return StringArray([0], []);
    }
    var length := MeasureLength(eo, es, ee);
    ghost var req := Requested(baskets, eo, es, ee);
    forall k | 0 <= k < |eo| - 1
      ensures HoldsPiece(req, baskets, eo, es, ee, k)
    {
      RequestedInBasket(baskets, eo, es, ee, k);
    }
    var offsets, content := Stitch(baskets, eo, es, ee, length, req);
    out := StringArray(offsets, content);
    FromStringsStrings(req);
  }
}
