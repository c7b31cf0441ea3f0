/** What parcels of capture results and requests hold, item by item, and which ones the readers of
    camera/CaptureResult.cpp and camera/camera2/CaptureRequest.cpp refuse. */
module CaptureLayout {
  import opened Parcels
  import opened Metadata
  import opened CaptureCodec
  import B = MetadataBlob

  // ---------------------------------------------------------------- results

  /** The extras are seven numbers; the fifth, the frame number, has 64 bits. */
  lemma ExtrasLayout(e: Extras)
    ensures var items := EncodeExtras(e);
      && |items| == 7 && items[0] == I32(e.requestId) && items[1] == I32(e.burstId) && items[2] == I32(e.afTriggerId)
      && items[3] == I32(e.precaptureTriggerId) && items[4] == I64(e.frameNumber)
      && items[5] == I32(e.partialResultCount) && items[6] == I32(e.errorStreamId)
  {
  }

  /** A result without physical results is its metadata, a zero and the extras. */
  lemma PlainResultLayout(lib: B.Library, e: Extras, p: B.Place)
    requires ResultSendable(lib, CaptureResultData(None, [], e), p, [])
    ensures EncodeResult(lib, CaptureResultData(None, [], e), p, []) == [I32(0), I32(0)] + EncodeExtras(e)
  {
  }

  /** One more physical result is one more id followed by its metadata. */
  lemma ListLayout(lib: B.Library, x: Tagged, xs: seq<Tagged>, p: B.Place, places: seq<B.Place>)
    requires Sendable(lib, [x] + xs, [p] + places) && Sendable(lib, xs, places)
    requires B.Sendable(lib, x.metadata) && B.Suits(lib, x.metadata, p)
    ensures EncodeList(lib, [x] + xs, [p] + places)
         == [Str16(x.id)] + B.Encode(lib, x.metadata, p.address, p.raw) + EncodeList(lib, xs, places)
  {
    hide B.Encode, B.Sendable, B.Suits;
    assert ([x] + xs)[1..] == xs && ([p] + places)[1..] == places;
  }

  /** A negative count of physical results is refused. */
  lemma NegativePhysicalCount(lib: B.Library, e: Extras, items: seq<Item>, n: Int32, m: Option<Meta>, rest: seq<Item>)
    requires n < 0 && B.Decode(lib, items) == Ok((m, [I32(n)] + rest))
    ensures DecodeResult(lib, e, items) == Err(BadValue)
  {
    hide B.Decode;
  }

  // ---------------------------------------------------------------- requests

  /** Every surface is the name of its class followed by its buffer producer. */
  lemma SurfaceLayout(surfaces: seq<nat>, i: nat)
    requires i < |surfaces|
    ensures |EncodeSurfaces(surfaces)| == 2 * |surfaces|
    ensures EncodeSurfaces(surfaces)[2 * i] == Str16("android.view.Surface")
    ensures EncodeSurfaces(surfaces)[2 * i + 1] == SurfaceShim(Some(surfaces[i]))
  {
    SurfacesLength(surfaces);
    if i > 0 {
      SurfaceLayout(surfaces[1..], i - 1);
    }
  }

  lemma {:induction false} SurfacesLength(surfaces: seq<nat>)
    ensures |EncodeSurfaces(surfaces)| == 2 * |surfaces|
  {
    if surfaces != [] {
      SurfacesLength(surfaces[1..]);
    }
  }

  /** Every index pair is the stream index followed by the surface index. */
  lemma {:induction false} IndexLayout(streamIdx: seq<Int32>, surfaceIdx: seq<Int32>, i: nat)
    requires i < |streamIdx| <= |surfaceIdx|
    ensures 2 * i + 1 < |EncodeIndexes(streamIdx, surfaceIdx)|
    ensures EncodeIndexes(streamIdx, surfaceIdx)[2 * i] == I32(streamIdx[i])
    ensures EncodeIndexes(streamIdx, surfaceIdx)[2 * i + 1] == I32(surfaceIdx[i])
  {
    if i > 0 {
      IndexLayout(streamIdx[1..], surfaceIdx[1..], i - 1);
    }
  }

  /** A request starts with the number of its settings, and one without settings is refused. */
  lemma SettingsCountMustBePositive(lib: B.Library, n: Int32, rest: seq<Item>)
    requires n <= 0
    ensures DecodeRequest(lib, [I32(n)] + rest) == Err(BadValue)
  {
  }

  /** A null class name skips a surface without reading anything else. */
  lemma NullClassNameSkips(rest: seq<Item>, n: nat)
    ensures DecodeSurfaces([NullStr16] + rest, n + 1) == DecodeSurfaces(rest, n)
  {
    assert ([NullStr16] + rest)[1..] == rest;
  }

  /** A surface without a producer arrives as a null surface. */
  lemma SurfaceWithoutProducer(className: string, rest: seq<Item>)
    ensures DecodeSurfaces([Str16(className), SurfaceShim(None)] + rest, 1) == Ok(([None], rest))
  {
    var items := [Str16(className), SurfaceShim(None)] + rest;
    assert items[1..][1..] == rest;
    assert DecodeSurfaces(rest, 0) == Ok(([], rest));
    assert [items[1].producer] + [] == [None];
  }

  /** A negative number of surfaces counts as none, a negative number of index pairs is refused. */
  lemma NegativeTargetCounts(settings: seq<Tagged>, isReprocess: bool, n: Int32, k: Int32, rest: seq<Item>)
    requires n <= 0 && k < 0
    ensures DecodeTargets(settings, isReprocess, [I32(n), I32(k)] + rest) == Err(BadValue)
    ensures DecodeTargets(settings, isReprocess, [I32(n), I32(0)] + rest) == Ok((Received(settings, isReprocess, [], [], []), rest))
  {
    var items := [I32(n), I32(k)] + rest;
    assert items[1..] == [I32(k)] + rest && items[1..][1..] == rest;
    var zero := [I32(n), I32(0)] + rest;
    assert zero[1..] == [I32(0)] + rest && zero[1..][1..] == rest;
  }
}
