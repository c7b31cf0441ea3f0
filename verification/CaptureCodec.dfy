/** The composite parcel codecs of camera/CaptureResult.cpp and camera/camera2/CaptureRequest.cpp:
    counted lists of camera ids with metadata, built on the metadata blob. */
module CaptureCodec {
  import opened Parcels
  import opened Metadata
  import B = MetadataBlob

  // ---------------------------------------------------------------- lists of ids with metadata

  /** PhysicalCaptureResultInfo and PhysicalCameraSettings. */
  datatype Tagged = Tagged(id: string, metadata: Option<Meta>)

  ghost predicate Sendable(lib: B.Library, xs: seq<Tagged>, places: seq<B.Place>) {
    && |places| == |xs|
    && forall i :: 0 <= i < |xs| ==> B.Sendable(lib, xs[i].metadata) && B.Suits(lib, xs[i].metadata, places[i])
  }

  ghost function EncodeOne(lib: B.Library, x: Tagged, p: B.Place): seq<Item>
    requires B.Sendable(lib, x.metadata) && B.Suits(lib, x.metadata, p)
  {
    [Str16(x.id)] + B.Encode(lib, x.metadata, p.address, p.raw)
  }

  ghost function EncodeList(lib: B.Library, xs: seq<Tagged>, places: seq<B.Place>): seq<Item>
    requires Sendable(lib, xs, places)
    decreases |xs|
  {
    if xs == [] then [] else EncodeOne(lib, xs[0], places[0]) + EncodeList(lib, xs[1..], places[1..])
  }

  /** The reading loops; an id that cannot be read gives the reader's own error. */
  function DecodeOne(lib: B.Library, items: seq<Item>, idError: Status): Read<Tagged> {
    var id := ReadStr16(items);
    if id.Err? then Err(idError)
    else
      var (m, rest) :- B.Decode(lib, id.value.1);
      Ok((Tagged(id.value.0, m), rest))
  }

  function DecodeList(lib: B.Library, items: seq<Item>, n: nat, idError: Status): Read<seq<Tagged>>
    decreases n
  {
    if n == 0 then Ok(([], items))
    else
      var (x, rest) :- DecodeOne(lib, items, idError);
      var (xs, rest) :- DecodeList(lib, rest, n - 1, idError);
      Ok(([x] + xs, rest))
  }

  /** What a reader gets: the entries of the metadata in a compact buffer. */
  function ArrivesOne(x: Tagged): Tagged { Tagged(x.id, B.Arrives(x.metadata)) }

  function ArrivesList(xs: seq<Tagged>): seq<Tagged> { seq(|xs|, i requires 0 <= i < |xs| => ArrivesOne(xs[i])) }

  lemma OneIsRead(lib: B.Library, x: Tagged, p: B.Place, rest: seq<Item>, idError: Status)
    requires B.Sendable(lib, x.metadata) && B.Suits(lib, x.metadata, p)
    ensures DecodeOne(lib, EncodeOne(lib, x, p) + rest, idError) == Ok((ArrivesOne(x), rest))
  {
    hide B.Decode, B.Encode, B.Contract;
    var blob := B.Encode(lib, x.metadata, p.address, p.raw);
    var items := EncodeOne(lib, x, p) + rest;
    assert items[1..] == blob + rest;
    B.SendableRoundTrip(lib, x.metadata, p, rest);
  }

  lemma {:induction false} ListIsRead(lib: B.Library, xs: seq<Tagged>, places: seq<B.Place>, rest: seq<Item>, idError: Status)
    requires Sendable(lib, xs, places)
    ensures DecodeList(lib, EncodeList(lib, xs, places) + rest, |xs|, idError) == Ok((ArrivesList(xs), rest))
    decreases |xs|
  {
    hide DecodeOne, EncodeOne, ArrivesOne, B.Sendable, B.Suits;
    if xs == [] {
      assert EncodeList(lib, xs, places) + rest == rest;
    } else {
      var more := EncodeList(lib, xs[1..], places[1..]) + rest;
      assert EncodeList(lib, xs, places) + rest == EncodeOne(lib, xs[0], places[0]) + more;
      OneIsRead(lib, xs[0], places[0], more, idError);
      ListIsRead(lib, xs[1..], places[1..], rest, idError);
      assert [ArrivesOne(xs[0])] + ArrivesList(xs[1..]) == ArrivesList(xs);
    }
  }

  // ---------------------------------------------------------------- result extras

  datatype Extras = Extras(requestId: Int32, burstId: Int32, afTriggerId: Int32, precaptureTriggerId: Int32,
                           frameNumber: Int64, partialResultCount: Int32, errorStreamId: Int32)

  const NO_EXTRAS := Extras(-1, 0, 0, 0, 0, 0, -1)

  function EncodeExtras(e: Extras): seq<Item> {
    [I32(e.requestId), I32(e.burstId), I32(e.afTriggerId), I32(e.precaptureTriggerId),
     I64(e.frameNumber), I32(e.partialResultCount), I32(e.errorStreamId)]
  }

  /** readInt32 into a field, its status ignored: a failed read leaves the field. */
  function Int32Or(items: seq<Item>, old_: Int32): (Int32, seq<Item>) {
    if ReadI32(items).Ok? then ReadI32(items).value else (old_, items)
  }

  function Int64Or(items: seq<Item>, old_: Int64): (Int64, seq<Item>) {
    if ReadI64(items).Ok? then ReadI64(items).value else (old_, items)
  }

  /** Reading the extras never fails. */
  function DecodeExtras(e: Extras, items: seq<Item>): (Extras, seq<Item>) {
    var (requestId, items) := Int32Or(items, e.requestId);
    var (burstId, items) := Int32Or(items, e.burstId);
    var (afTriggerId, items) := Int32Or(items, e.afTriggerId);
    var (precaptureTriggerId, items) := Int32Or(items, e.precaptureTriggerId);
    var (frameNumber, items) := Int64Or(items, e.frameNumber);
    var (partialResultCount, items) := Int32Or(items, e.partialResultCount);
    var (errorStreamId, items) := Int32Or(items, e.errorStreamId);
    (Extras(requestId, burstId, afTriggerId, precaptureTriggerId, frameNumber, partialResultCount, errorStreamId), items)
  }

  lemma ExtrasAreRead(e: Extras, before: Extras, rest: seq<Item>)
    ensures DecodeExtras(before, EncodeExtras(e) + rest) == (e, rest)
  {
    var items := EncodeExtras(e) + rest;
    assert items[1..][1..][1..][1..][1..][1..][1..] == rest;
  }

  // ---------------------------------------------------------------- capture results

  datatype CaptureResultData = CaptureResultData(metadata: Option<Meta>, physicals: seq<Tagged>, extras: Extras)

  ghost predicate ResultSendable(lib: B.Library, r: CaptureResultData, p: B.Place, places: seq<B.Place>) {
    B.Sendable(lib, r.metadata) && B.Suits(lib, r.metadata, p) && Sendable(lib, r.physicals, places) && |r.physicals| < TWO31
  }

  ghost function EncodeResult(lib: B.Library, r: CaptureResultData, p: B.Place, places: seq<B.Place>): seq<Item>
    requires ResultSendable(lib, r, p, places)
  {
    B.Encode(lib, r.metadata, p.address, p.raw) + [I32(ToInt32(|r.physicals|))] + EncodeList(lib, r.physicals, places)
    + EncodeExtras(r.extras)
  }

  /** readFromParcel of an object whose extras are e. */
  function DecodeResult(lib: B.Library, e: Extras, items: seq<Item>): Read<CaptureResultData> {
    var (m, rest) :- B.Decode(lib, items);
    var (n, rest) :- ReadI32(rest);
    if n < 0 then Err(BadValue)
    else
      var (physicals, rest) :- DecodeList(lib, rest, n, NotEnoughData);
      var (extras, rest) := DecodeExtras(e, rest);
      Ok((CaptureResultData(m, physicals, extras), rest))
  }

  function ArrivesResult(r: CaptureResultData): CaptureResultData {
    CaptureResultData(B.Arrives(r.metadata), ArrivesList(r.physicals), r.extras)
  }

  lemma ResultByParts(lib: B.Library, e: Extras, items: seq<Item>, m: Option<Meta>, rest1: seq<Item>, n: nat, rest2: seq<Item>,
                      xs: seq<Tagged>, rest3: seq<Item>)
    requires B.Decode(lib, items) == Ok((m, rest1)) && ReadI32(rest1) == Ok((n, rest2))
    requires DecodeList(lib, rest2, n, NotEnoughData) == Ok((xs, rest3))
    ensures DecodeResult(lib, e, items) == Ok((CaptureResultData(m, xs, DecodeExtras(e, rest3).0), DecodeExtras(e, rest3).1))
  {
    hide B.Decode, DecodeList, DecodeExtras;
  }

  /** The encoding of a capture result is self-delimiting: whatever follows it in the parcel, the
      reader gets the result, nested physical results and all, and leaves exactly what follows. */
  lemma ResultRoundTrip(lib: B.Library, r: CaptureResultData, p: B.Place, places: seq<B.Place>, e: Extras, rest: seq<Item>)
    requires ResultSendable(lib, r, p, places)
    ensures DecodeResult(lib, e, EncodeResult(lib, r, p, places) + rest) == Ok((ArrivesResult(r), rest))
  {
    hide B.Decode, B.Encode, B.Contract, B.Arrives, DecodeList, EncodeList, DecodeExtras, EncodeExtras, Sendable, ArrivesList,
      DecodeResult;
    var n := |r.physicals|;
    var rest3 := EncodeExtras(r.extras) + rest;
    var rest2 := EncodeList(lib, r.physicals, places) + rest3;
    var rest1 := [I32(ToInt32(n))] + rest2;
    assert rest1[1..] == rest2;
    assert EncodeResult(lib, r, p, places) + rest == B.Encode(lib, r.metadata, p.address, p.raw) + rest1;
    B.SendableRoundTrip(lib, r.metadata, p, rest1);
    ListIsRead(lib, r.physicals, places, rest3, NotEnoughData);
    ExtrasAreRead(r.extras, e, rest);
    ResultByParts(lib, e, EncodeResult(lib, r, p, places) + rest, B.Arrives(r.metadata), rest1, n, rest2,
                  ArrivesList(r.physicals), rest3);
  }

  // ---------------------------------------------------------------- capture requests

  const SURFACE_CLASS := "android.view.Surface"

  /** A surface is its buffer producer. */
  datatype Request = Request(settings: seq<Tagged>, converted: bool, surfaces: seq<nat>, streamIdx: seq<Int32>,
                             surfaceIdx: seq<Int32>, isReprocess: bool)

  /** What readFromParcel fills in; a surface without a producer is null. */
  datatype Received = Received(settings: seq<Tagged>, isReprocess: bool, surfaces: seq<Option<nat>>,
                               streamIdx: seq<Int32>, surfaceIdx: seq<Int32>)

  ghost predicate RequestSendable(lib: B.Library, r: Request, places: seq<B.Place>) {
    && Sendable(lib, r.settings, places) && |r.settings| < TWO31 && |r.surfaces| < TWO31
    && |r.streamIdx| <= |r.surfaceIdx| && |r.streamIdx| < TWO31
  }

  function EncodeSurfaces(surfaces: seq<nat>): seq<Item> {
    if surfaces == [] then []
    else [Str16(SURFACE_CLASS), SurfaceShim(Some(surfaces[0]))] + EncodeSurfaces(surfaces[1..])
  }

  function EncodeIndexes(streamIdx: seq<Int32>, surfaceIdx: seq<Int32>): seq<Item>
    requires |streamIdx| <= |surfaceIdx|
  {
    if streamIdx == [] then []
    else [I32(streamIdx[0]), I32(surfaceIdx[0])] + EncodeIndexes(streamIdx[1..], surfaceIdx[1..])
  }

  /** The surfaces that go into the parcel. */
  function Sent(r: Request): seq<nat> { if r.converted then [] else r.surfaces }

  ghost function EncodeRequest(lib: B.Library, r: Request, places: seq<B.Place>): seq<Item>
    requires RequestSendable(lib, r, places)
  {
    [I32(ToInt32(|r.settings|))] + EncodeList(lib, r.settings, places) + [I32(if r.isReprocess then 1 else 0)]
    + [I32(ToInt32(|Sent(r)|))] + EncodeSurfaces(Sent(r))
    + [I32(ToInt32(|r.streamIdx|))] + EncodeIndexes(r.streamIdx, r.surfaceIdx)
  }

  /** readString16Inplace: NULL for a null string, and for anything that is no string. */
  function ReadStr16Inplace(items: seq<Item>): (Option<string>, seq<Item>) {
    if items != [] && items[0].Str16? then (Some(items[0].s16), items[1..])
    else if items != [] && items[0].NullStr16? then (None, items[1..])
    else (None, items)
  }

  function ReadShim(items: seq<Item>): Read<Option<nat>> {
    if items != [] && items[0].SurfaceShim? then Ok((items[0].producer, items[1..])) else Err(NotEnoughData)
  }

  /** The loop over the surfaces: a null class name skips one. */
  function DecodeSurfaces(items: seq<Item>, n: nat): Read<seq<Option<nat>>>
    decreases n
  {
    if n == 0 then Ok(([], items))
    else
      var (className, rest) := ReadStr16Inplace(items);
      if className.None? then DecodeSurfaces(rest, n - 1)
      else
        var (surface, rest) :- ReadShim(rest);
        var (surfaces, rest) :- DecodeSurfaces(rest, n - 1);
        Ok(([surface] + surfaces, rest))
  }

  function DecodeIndexes(items: seq<Item>, n: nat): Read<(seq<Int32>, seq<Int32>)>
    decreases n
  {
    if n == 0 then Ok((([], []), items))
    else
      var (streamIdx, rest) :- ReadI32(items);
      var (surfaceIdx, rest) :- ReadI32(rest);
      var (more, rest) :- DecodeIndexes(rest, n - 1);
      Ok((([streamIdx] + more.0, [surfaceIdx] + more.1), rest))
  }

  function DecodeRequest(lib: B.Library, items: seq<Item>): Read<Received> {
    var (settings, rest) :- DecodeSettings(lib, items);
    DecodeTargets(settings.0, settings.1, rest)
  }

  function DecodeSettings(lib: B.Library, items: seq<Item>): Read<(seq<Tagged>, bool)> {
    var (n, rest) :- ReadI32(items);
    if n <= 0 then Err(BadValue)
    else
      var (settings, rest) :- DecodeList(lib, rest, n, BadValue);
      var (reprocess, rest) :- ReadI32(rest);
      Ok(((settings, reprocess != 0), rest))
  }

  function DecodeTargets(settings: seq<Tagged>, isReprocess: bool, items: seq<Item>): Read<Received> {
    var (size, rest) :- ReadI32(items);
    var (surfaces, rest) :- DecodeSurfaces(rest, if size < 0 then 0 else size);
    var (k, rest) :- ReadI32(rest);
    if k < 0 then Err(BadValue)
    else
      var (idx, rest) :- DecodeIndexes(rest, k);
      Ok((Received(settings, isReprocess, surfaces, idx.0, idx.1), rest))
  }

  function Producers(surfaces: seq<nat>): seq<Option<nat>> { seq(|surfaces|, i requires 0 <= i < |surfaces| => Some(surfaces[i])) }

  function ArrivesRequest(r: Request): Received
    requires |r.streamIdx| <= |r.surfaceIdx|
  {
    Received(ArrivesList(r.settings), r.isReprocess, Producers(Sent(r)), r.streamIdx, r.surfaceIdx[..|r.streamIdx|])
  }

  lemma {:induction false} SurfacesAreRead(surfaces: seq<nat>, rest: seq<Item>)
    ensures DecodeSurfaces(EncodeSurfaces(surfaces) + rest, |surfaces|) == Ok((Producers(surfaces), rest))
  {
    if surfaces == [] {
      assert EncodeSurfaces(surfaces) + rest == rest;
    } else {
      var more := EncodeSurfaces(surfaces[1..]) + rest;
      var items := EncodeSurfaces(surfaces) + rest;
      assert items[0] == Str16(SURFACE_CLASS) && items[1] == SurfaceShim(Some(surfaces[0]));
      assert items[1..][0] == items[1] && items[1..][1..] == more;
      SurfacesAreRead(surfaces[1..], rest);
      assert [Some(surfaces[0])] + Producers(surfaces[1..]) == Producers(surfaces);
    }
  }

  lemma {:induction false} IndexesAreRead(streamIdx: seq<Int32>, surfaceIdx: seq<Int32>, rest: seq<Item>)
    requires |streamIdx| <= |surfaceIdx|
    ensures DecodeIndexes(EncodeIndexes(streamIdx, surfaceIdx) + rest, |streamIdx|)
         == Ok(((streamIdx, surfaceIdx[..|streamIdx|]), rest))
  {
    if streamIdx == [] {
      assert EncodeIndexes(streamIdx, surfaceIdx) + rest == rest;
    } else {
      var more := EncodeIndexes(streamIdx[1..], surfaceIdx[1..]) + rest;
      var items := EncodeIndexes(streamIdx, surfaceIdx) + rest;
      assert items[1..][1..] == more;
      IndexesAreRead(streamIdx[1..], surfaceIdx[1..], rest);
      assert [streamIdx[0]] + streamIdx[1..] == streamIdx;
      assert [surfaceIdx[0]] + surfaceIdx[1..][..|streamIdx| - 1] == surfaceIdx[..|streamIdx|];
    }
  }

  lemma TargetsByParts(settings: seq<Tagged>, isReprocess: bool, items: seq<Item>, size: nat, rest1: seq<Item>,
                       surfaces: seq<Option<nat>>, rest2: seq<Item>, k: nat, rest3: seq<Item>,
                       idx: (seq<Int32>, seq<Int32>), rest4: seq<Item>)
    requires ReadI32(items) == Ok((size, rest1)) && DecodeSurfaces(rest1, size) == Ok((surfaces, rest2))
    requires ReadI32(rest2) == Ok((k, rest3)) && DecodeIndexes(rest3, k) == Ok((idx, rest4))
    ensures DecodeTargets(settings, isReprocess, items) == Ok((Received(settings, isReprocess, surfaces, idx.0, idx.1), rest4))
  {
    hide DecodeSurfaces, DecodeIndexes;
  }

  lemma TargetsAreRead(settings: seq<Tagged>, isReprocess: bool, surfaces: seq<nat>, streamIdx: seq<Int32>,
                       surfaceIdx: seq<Int32>, rest: seq<Item>)
    requires |surfaces| < TWO31 && |streamIdx| <= |surfaceIdx| && |streamIdx| < TWO31
    ensures DecodeTargets(settings, isReprocess,
                          [I32(ToInt32(|surfaces|))] + (EncodeSurfaces(surfaces)
                          + ([I32(ToInt32(|streamIdx|))] + (EncodeIndexes(streamIdx, surfaceIdx) + rest))))
         == Ok((Received(settings, isReprocess, Producers(surfaces), streamIdx, surfaceIdx[..|streamIdx|]), rest))
  {
    hide DecodeSurfaces, DecodeIndexes, EncodeSurfaces, EncodeIndexes, DecodeTargets, Producers;
    var rest3 := EncodeIndexes(streamIdx, surfaceIdx) + rest;
    var rest2 := [I32(ToInt32(|streamIdx|))] + rest3;
    var rest1 := EncodeSurfaces(surfaces) + rest2;
    var items := [I32(ToInt32(|surfaces|))] + rest1;
    assert items[1..] == rest1 && rest2[1..] == rest3;
    SurfacesAreRead(surfaces, rest2);
    IndexesAreRead(streamIdx, surfaceIdx, rest);
    TargetsByParts(settings, isReprocess, items, |surfaces|, rest1, Producers(surfaces), rest2, |streamIdx|, rest3,
                   (streamIdx, surfaceIdx[..|streamIdx|]), rest);
  }

  lemma RequestByParts(lib: B.Library, items: seq<Item>, n: int, rest1: seq<Item>, settings: seq<Tagged>, rest2: seq<Item>,
                       reprocess: int, rest3: seq<Item>)
    requires n > 0 && ReadI32(items) == Ok((n, rest1)) && DecodeList(lib, rest1, n, BadValue) == Ok((settings, rest2))
    requires ReadI32(rest2) == Ok((reprocess, rest3))
    ensures DecodeRequest(lib, items) == DecodeTargets(settings, reprocess != 0, rest3)
  {
    hide DecodeList, DecodeTargets;
  }

  lemma RequestParts(a: Item, list: seq<Item>, b: Item, c: Item, d: seq<Item>, e: Item, f: seq<Item>, rest: seq<Item>)
    ensures [a] + list + [b] + [c] + d + [e] + f + rest == [a] + (list + ([b] + ([c] + (d + ([e] + (f + rest))))))
  {
  }

  /** The encoding of a capture request with at least one setting is self-delimiting: the reader
      gets its settings, surfaces and index pairs and leaves exactly what follows.  Converted
      surfaces are not sent, and surface indices beyond the stream indices are dropped.  A request
      without settings is refused. */
  lemma RequestRoundTrip(lib: B.Library, r: Request, places: seq<B.Place>, rest: seq<Item>)
    requires RequestSendable(lib, r, places)
    ensures DecodeRequest(lib, EncodeRequest(lib, r, places) + rest)
         == if r.settings == [] then Err(BadValue) else Ok((ArrivesRequest(r), rest))
  {
    hide DecodeList, EncodeList, DecodeTargets, EncodeSurfaces, EncodeIndexes, ArrivesList, Producers, Sendable;
    var indexes := EncodeIndexes(r.streamIdx, r.surfaceIdx);
    var targets := [I32(ToInt32(|Sent(r)|))] + (EncodeSurfaces(Sent(r)) + ([I32(ToInt32(|r.streamIdx|))] + (indexes + rest)));
    var flag := I32(if r.isReprocess then 1 else 0);
    var rest2 := [flag] + targets;
    var rest1 := EncodeList(lib, r.settings, places) + rest2;
    var items := [I32(ToInt32(|r.settings|))] + rest1;
    RequestParts(I32(ToInt32(|r.settings|)), EncodeList(lib, r.settings, places), flag, I32(ToInt32(|Sent(r)|)),
                 EncodeSurfaces(Sent(r)), I32(ToInt32(|r.streamIdx|)), indexes, rest);
    assert EncodeRequest(lib, r, places) + rest == items;
    assert items[1..] == rest1 && rest2[1..] == targets;
    if r.settings != [] {
      ListIsRead(lib, r.settings, places, rest2, BadValue);
      RequestByParts(lib, items, |r.settings|, rest1, ArrivesList(r.settings), rest2, if r.isReprocess then 1 else 0, targets);
      TargetsAreRead(ArrivesList(r.settings), r.isReprocess, Sent(r), r.streamIdx, r.surfaceIdx, rest);
    }
  }

  /** The targets come back unchanged exactly when the surfaces were not converted (or there were
      none) and the two index lists have the same length. */
  lemma TargetsSurviveIff(r: Request)
    requires |r.streamIdx| <= |r.surfaceIdx|
    ensures (ArrivesRequest(r).surfaces == Producers(r.surfaces) && ArrivesRequest(r).surfaceIdx == r.surfaceIdx)
       <==> (!r.converted || r.surfaces == []) && |r.streamIdx| == |r.surfaceIdx|
  {
    if |r.streamIdx| == |r.surfaceIdx| {
      assert r.surfaceIdx[..|r.streamIdx|] == r.surfaceIdx;
    }
    assert |Producers(Sent(r))| == |Sent(r)| && |Producers(r.surfaces)| == |r.surfaces|;
  }
}
