/** CaptureResult and CaptureRequest as objects that read themselves from a parcel and write
    themselves into one; every method is tied to the codecs of module CaptureCodec. */
module CaptureParcels {
  import opened Parcels
  import opened CaptureCodec
  import opened Metadata
  import B = MetadataBlob

  // ---------------------------------------------------------------- ids with metadata

  method WriteTagged(parcel: Parcel, lib: B.Library, x: Tagged, p: B.Place)
    requires B.Sendable(lib, x.metadata) && B.Suits(lib, x.metadata, p)
    modifies parcel`items
    ensures parcel.items == old(parcel.items) + EncodeOne(lib, x, p)
  {
    hide B.Encode;
    parcel.Write(Str16(x.id));
    B.WriteToParcel(parcel, lib, x.metadata, p);
  }

  method WriteTaggedList(parcel: Parcel, lib: B.Library, xs: seq<Tagged>, places: seq<B.Place>)
    requires Sendable(lib, xs, places)
    modifies parcel`items
    ensures parcel.items == old(parcel.items) + EncodeList(lib, xs, places)
  {
    hide EncodeOne, EncodeList, B.Sendable, B.Suits;
    ghost var all := parcel.items + EncodeList(lib, xs, places);
    assert xs[0..] == xs && places[0..] == places;
    for i := 0 to |xs|
      invariant parcel.items + EncodeList(lib, xs[i..], places[i..]) == all
    {
      ListStep(parcel.items, lib, xs, places, i);
      WriteTagged(parcel, lib, xs[i], places[i]);
    }
    NothingToWrite(parcel.items, lib, xs[|xs|..], places[|xs|..]);
  }

  lemma NothingToWrite(before: seq<Item>, lib: B.Library, xs: seq<Tagged>, places: seq<B.Place>)
    requires xs == [] && Sendable(lib, xs, places)
    ensures before + EncodeList(lib, xs, places) == before
  {
  }

  lemma ListStep(before: seq<Item>, lib: B.Library, xs: seq<Tagged>, places: seq<B.Place>, i: nat)
    requires i < |xs| && Sendable(lib, xs, places)
    ensures before + EncodeList(lib, xs[i..], places[i..])
         == before + EncodeOne(lib, xs[i], places[i]) + EncodeList(lib, xs[i + 1..], places[i + 1..])
  {
    hide EncodeOne;
    assert xs[i..][1..] == xs[i + 1..] && places[i..][1..] == places[i + 1..];
    var (a, b) := (EncodeOne(lib, xs[i], places[i]), EncodeList(lib, xs[i + 1..], places[i + 1..]));
    assert before + (a + b) == before + a + b;
  }

  /** PhysicalCaptureResultInfo::readFromParcel, and the body of the reading loops. */
  method ReadTagged(parcel: Parcel, lib: B.Library, idError: Status) returns (r: Result<Tagged>)
    requires parcel.Valid()
    modifies parcel`pos
    ensures parcel.Valid()
    ensures var d := DecodeOne(lib, old(parcel.Rest()), idError);
      if d.Ok? then r == Ok(d.value.0) && parcel.Rest() == d.value.1 else r == Err(d.status)
  {
    hide B.Decode;
    var id := parcel.Take(ReadStr16(parcel.Rest()));
    if id.Err? { return Err(idError); }
    var m := B.ReadFromParcel(parcel, lib);
    if m.Err? { return Err(m.status); }
    r := Ok(Tagged(id.value, m.value));
  }

  method ReadTaggedList(parcel: Parcel, lib: B.Library, n: nat, idError: Status) returns (r: Result<seq<Tagged>>)
    requires parcel.Valid()
    modifies parcel`pos
    ensures parcel.Valid()
    ensures var d := DecodeList(lib, old(parcel.Rest()), n, idError);
      if d.Ok? then r == Ok(d.value.0) && parcel.Rest() == d.value.1 else r == Err(d.status)
  {
    hide DecodeOne, DecodeList, Prepend;
    var xs: seq<Tagged> := [];
    ghost var spec := DecodeList(lib, parcel.Rest(), n, idError);
    PrependNothing(spec);
    for i := 0 to n
      invariant parcel.Valid()
      invariant spec == Prepend(xs, DecodeList(lib, parcel.Rest(), n - i, idError))
    {
      TaggedStep(lib, xs, parcel.Rest(), n - i, idError);
      var x := ReadTagged(parcel, lib, idError);
      if x.Err? { return Err(x.status); }
      xs := xs + [x.value];
    }
    TaggedDone(lib, xs, parcel.Rest(), idError);
    r := Ok(xs);
  }

  lemma PrependNothing<T>(r: Read<seq<T>>)
    ensures r == Prepend([], r)
  {
    assert r.Ok? ==> [] + r.value.0 == r.value.0;
  }

  lemma TaggedDone(lib: B.Library, xs: seq<Tagged>, items: seq<Item>, idError: Status)
    ensures Prepend(xs, DecodeList(lib, items, 0, idError)) == Ok((xs, items))
  {
    assert xs + [] == xs;
  }

  lemma TaggedStep(lib: B.Library, xs: seq<Tagged>, items: seq<Item>, n: nat, idError: Status)
    requires n > 0
    ensures var (x, r) := (DecodeOne(lib, items, idError), Prepend(xs, DecodeList(lib, items, n, idError)));
      && (x.Err? ==> r == Err(x.status))
      && (x.Ok? ==> r == Prepend(xs + [x.value.0], DecodeList(lib, x.value.1, n - 1, idError)))
  {
    hide DecodeOne;
    var x := DecodeOne(lib, items, idError);
    if x.Ok? && DecodeList(lib, x.value.1, n - 1, idError).Ok? {
      var more := DecodeList(lib, x.value.1, n - 1, idError).value.0;
      assert xs + ([x.value.0] + more) == (xs + [x.value.0]) + more;
    }
  }

  // ---------------------------------------------------------------- capture results

  class CaptureResult {
    var mMetadata: Option<Meta>
    var mPhysicalMetadatas: seq<Tagged>
    var mResultExtras: Extras

    function Abs(): CaptureResultData
      reads this
    {
      CaptureResultData(mMetadata, mPhysicalMetadatas, mResultExtras)
    }

    constructor ()
      ensures Abs() == CaptureResultData(None, [], NO_EXTRAS)
    {
      mMetadata, mPhysicalMetadatas, mResultExtras := None, [], NO_EXTRAS;
    }

    method ReadFromParcel(parcel: Parcel, lib: B.Library) returns (r: Result<()>)
      requires parcel.Valid()
      modifies this, parcel`pos
      ensures parcel.Valid()
      ensures var d := DecodeResult(lib, old(mResultExtras), old(parcel.Rest()));
        if d.Ok? then r.Ok? && Abs() == d.value.0 && parcel.Rest() == d.value.1 else r == Err(d.status)
    {
      hide B.Decode, DecodeList, DecodeExtras;
      mMetadata, mPhysicalMetadatas := None, [];
      var metadata := B.ReadFromParcel(parcel, lib);
      if metadata.Err? { return Err(metadata.status); }
      mMetadata := metadata.value;
      var count := parcel.Take(ReadI32(parcel.Rest()));
      if count.Err? { return Err(count.status); }
      if count.value < 0 { return Err(BadValue); }
      var physicals := ReadTaggedList(parcel, lib, count.value, NotEnoughData);
      if physicals.Err? { return Err(physicals.status); }
      mPhysicalMetadatas := physicals.value;
      mResultExtras := ReadExtras(parcel, mResultExtras);
      r := Ok(());
    }

    method WriteToParcel(parcel: Parcel, lib: B.Library, p: B.Place, places: seq<B.Place>)
      requires ResultSendable(lib, Abs(), p, places)
      modifies parcel`items
      ensures parcel.items == old(parcel.items) + EncodeResult(lib, Abs(), p, places)
    {
      hide B.Encode, EncodeList, Sendable;
      ghost var start := parcel.items;
      B.WriteToParcel(parcel, lib, mMetadata, p);
      parcel.Write(I32(ToInt32(|mPhysicalMetadatas|)));
      WriteTaggedList(parcel, lib, mPhysicalMetadatas, places);
      WriteExtras(parcel, mResultExtras);
      Together(start, B.Encode(lib, mMetadata, p.address, p.raw), I32(ToInt32(|mPhysicalMetadatas|)),
               EncodeList(lib, mPhysicalMetadatas, places), EncodeExtras(mResultExtras));
    }
  }

  lemma Together(start: seq<Item>, a: seq<Item>, x: Item, b: seq<Item>, c: seq<Item>)
    ensures start + a + [x] + b + c == start + (a + [x] + b + c)
  {
  }

  method WriteExtras(parcel: Parcel, e: Extras)
    modifies parcel`items
    ensures parcel.items == old(parcel.items) + EncodeExtras(e)
  {
    parcel.Write(I32(e.requestId));
    parcel.Write(I32(e.burstId));
    parcel.Write(I32(e.afTriggerId));
    parcel.Write(I32(e.precaptureTriggerId));
    parcel.Write(I64(e.frameNumber));
    parcel.Write(I32(e.partialResultCount));
    parcel.Write(I32(e.errorStreamId));
  }

  /** readInt32 into a field, its status ignored. */
  method TakeInt32Or(parcel: Parcel, field: Int32) returns (v: Int32)
    requires parcel.Valid()
    modifies parcel`pos
    ensures parcel.Valid() && (v, parcel.Rest()) == Int32Or(old(parcel.Rest()), field)
  {
    var read := parcel.Take(ReadI32(parcel.Rest()));
    v := if read.Ok? then read.value else field;
  }

  method ReadExtras(parcel: Parcel, e: Extras) returns (r: Extras)
    requires parcel.Valid()
    modifies parcel`pos
    ensures parcel.Valid() && (r, parcel.Rest()) == DecodeExtras(e, old(parcel.Rest()))
  {
    hide Int32Or, Int64Or;
    var requestId := TakeInt32Or(parcel, e.requestId);
    var burstId := TakeInt32Or(parcel, e.burstId);
    var afTriggerId := TakeInt32Or(parcel, e.afTriggerId);
    var precaptureTriggerId := TakeInt32Or(parcel, e.precaptureTriggerId);
    var frameNumber := TakeInt64Or(parcel, e.frameNumber);
    var partialResultCount := TakeInt32Or(parcel, e.partialResultCount);
    var errorStreamId := TakeInt32Or(parcel, e.errorStreamId);
    r := Extras(requestId, burstId, afTriggerId, precaptureTriggerId, frameNumber, partialResultCount, errorStreamId);
  }

  method TakeInt64Or(parcel: Parcel, field: Int64) returns (v: Int64)
    requires parcel.Valid()
    modifies parcel`pos
    ensures parcel.Valid() && (v, parcel.Rest()) == Int64Or(old(parcel.Rest()), field)
  {
    var read := parcel.Take(ReadI64(parcel.Rest()));
    v := if read.Ok? then read.value else field;
  }

  // ---------------------------------------------------------------- capture requests

  class CaptureRequest {
    var mPhysicalCameraSettings: seq<Tagged>
    var mSurfaceConverted: bool
    var mSurfaceList: seq<Option<nat>>
    var mStreamIdxList: seq<Int32>
    var mSurfaceIdxList: seq<Int32>
    var mIsReprocess: bool

    constructor ()
      ensures mPhysicalCameraSettings == [] && !mSurfaceConverted && mSurfaceList == []
      ensures mStreamIdxList == [] && mSurfaceIdxList == []
    {
      mPhysicalCameraSettings, mSurfaceConverted, mSurfaceList := [], false, [];
      mStreamIdxList, mSurfaceIdxList := [], [];
    }

    function Abs(): Received
      reads this
    {
      Received(mPhysicalCameraSettings, mIsReprocess, mSurfaceList, mStreamIdxList, mSurfaceIdxList)
    }

    method ReadFromParcel(parcel: Parcel, lib: B.Library) returns (r: Result<()>)
      requires parcel.Valid()
      modifies this, parcel`pos
      ensures parcel.Valid() && mSurfaceConverted == old(mSurfaceConverted)
      ensures var d := DecodeRequest(lib, old(parcel.Rest()));
        if d.Ok? then r.Ok? && Abs() == d.value.0 && parcel.Rest() == d.value.1 else r == Err(d.status)
    {
      hide DecodeSettings, DecodeTargets;
      mSurfaceList, mStreamIdxList, mSurfaceIdxList, mPhysicalCameraSettings := [], [], [], [];
      var settings := ReadSettings(parcel, lib);
      if settings.Err? { return Err(settings.status); }
      r := ReadTargets(parcel);
    }

    /** The settings and the reprocessing flag. */
    method ReadSettings(parcel: Parcel, lib: B.Library) returns (r: Result<()>)
      requires parcel.Valid()
      modifies this`mPhysicalCameraSettings, this`mIsReprocess, parcel`pos
      ensures parcel.Valid()
      ensures var d := DecodeSettings(lib, old(parcel.Rest()));
        if d.Ok? then r.Ok? && (mPhysicalCameraSettings, mIsReprocess) == d.value.0 && parcel.Rest() == d.value.1
        else r == Err(d.status)
    {
      hide DecodeList;
      var settingsCount := parcel.Take(ReadI32(parcel.Rest()));
      if settingsCount.Err? { return Err(settingsCount.status); }
      if settingsCount.value <= 0 { return Err(BadValue); }
      var settings := ReadTaggedList(parcel, lib, settingsCount.value, BadValue);
      if settings.Err? { return Err(settings.status); }
      mPhysicalCameraSettings := settings.value;
      var isReprocess := parcel.Take(ReadI32(parcel.Rest()));
      if isReprocess.Err? { return Err(isReprocess.status); }
      mIsReprocess := isReprocess.value != 0;
      r := Ok(());
    }

    /** The surfaces and the index pairs. */
    method ReadTargets(parcel: Parcel) returns (r: Result<()>)
      requires parcel.Valid()
      modifies this`mSurfaceList, this`mStreamIdxList, this`mSurfaceIdxList, parcel`pos
      ensures parcel.Valid()
      ensures var d := DecodeTargets(mPhysicalCameraSettings, mIsReprocess, old(parcel.Rest()));
        if d.Ok? then r.Ok? && Abs() == d.value.0 && parcel.Rest() == d.value.1 else r == Err(d.status)
    {
      hide DecodeSurfaces, DecodeIndexes;
      var size := parcel.Take(ReadI32(parcel.Rest()));
      if size.Err? { return Err(size.status); }
      var surfaces := ReadSurfaces(parcel, if size.value < 0 then 0 else size.value);
      if surfaces.Err? { return Err(surfaces.status); }
      mSurfaceList := surfaces.value;
      var streamSurfaceSize := parcel.Take(ReadI32(parcel.Rest()));
      if streamSurfaceSize.Err? { return Err(streamSurfaceSize.status); }
      if streamSurfaceSize.value < 0 { return Err(BadValue); }
      var idx := ReadIndexes(parcel, streamSurfaceSize.value);
      if idx.Err? { return Err(idx.status); }
      mStreamIdxList, mSurfaceIdxList := idx.value.0, idx.value.1;
      r := Ok(());
    }

    static method ReadSurfaces(parcel: Parcel, n: nat) returns (r: Result<seq<Option<nat>>>)
      requires parcel.Valid()
      modifies parcel`pos
      ensures parcel.Valid()
      ensures var d := DecodeSurfaces(old(parcel.Rest()), n);
        if d.Ok? then r == Ok(d.value.0) && parcel.Rest() == d.value.1 else r == Err(d.status)
    {
      hide DecodeSurfaces, Prepend;
      var surfaces: seq<Option<nat>> := [];
      ghost var spec := DecodeSurfaces(parcel.Rest(), n);
      PrependNothing(spec);
      for i := 0 to n
        invariant parcel.Valid()
        invariant spec == Prepend(surfaces, DecodeSurfaces(parcel.Rest(), n - i))
      {
        SurfaceStep(surfaces, parcel.Rest(), n - i);
        var className := TakeClassName(parcel);
        if className.None? {
          continue;
        }
        var surface := parcel.Take(ReadShim(parcel.Rest()));
        if surface.Err? { return Err(surface.status); }
        surfaces := surfaces + [surface.value];
      }
      SurfacesDone(surfaces, parcel.Rest());
      r := Ok(surfaces);
    }

    /** readString16Inplace. */
    static method TakeClassName(parcel: Parcel) returns (className: Option<string>)
      requires parcel.Valid()
      modifies parcel`pos
      ensures parcel.Valid() && (className, parcel.Rest()) == ReadStr16Inplace(old(parcel.Rest()))
    {
      className := ReadStr16Inplace(parcel.Rest()).0;
      parcel.pos := |parcel.items| - |ReadStr16Inplace(parcel.Rest()).1|;
    }

    static method ReadIndexes(parcel: Parcel, n: nat) returns (r: Result<(seq<Int32>, seq<Int32>)>)
      requires parcel.Valid()
      modifies parcel`pos
      ensures parcel.Valid()
      ensures var d := DecodeIndexes(old(parcel.Rest()), n);
        if d.Ok? then r == Ok(d.value.0) && parcel.Rest() == d.value.1 else r == Err(d.status)
    {
      hide DecodeIndexes, PrependBoth;
      var streamIdxList: seq<Int32>, surfaceIdxList: seq<Int32> := [], [];
      ghost var spec := DecodeIndexes(parcel.Rest(), n);
      IndexesStart(parcel.Rest(), n);
      for i := 0 to n
        invariant parcel.Valid()
        invariant spec == PrependBoth(streamIdxList, surfaceIdxList, DecodeIndexes(parcel.Rest(), n - i))
      {
        IndexStep(streamIdxList, surfaceIdxList, parcel.Rest(), n - i);
        var streamIdx := parcel.Take(ReadI32(parcel.Rest()));
        if streamIdx.Err? { return Err(streamIdx.status); }
        var surfaceIdx := parcel.Take(ReadI32(parcel.Rest()));
        if surfaceIdx.Err? { return Err(surfaceIdx.status); }
        streamIdxList := streamIdxList + [streamIdx.value];
        surfaceIdxList := surfaceIdxList + [surfaceIdx.value];
      }
      IndexesDone(streamIdxList, surfaceIdxList, parcel.Rest());
      r := Ok((streamIdxList, surfaceIdxList));
    }

    /** What writeToParcel sees; every surface has to be there. */
    function Outgoing(): Request
      requires forall i :: 0 <= i < |mSurfaceList| ==> mSurfaceList[i].Some?
      reads this
    {
      Request(mPhysicalCameraSettings, mSurfaceConverted,
              seq(|mSurfaceList|, i requires 0 <= i < |mSurfaceList| reads this
                                    requires i < |mSurfaceList| && mSurfaceList[i].Some? => mSurfaceList[i].value),
              mStreamIdxList, mSurfaceIdxList, mIsReprocess)
    }

    method WriteToParcel(parcel: Parcel, lib: B.Library, places: seq<B.Place>)
      requires forall i :: 0 <= i < |mSurfaceList| ==> mSurfaceList[i].Some?
      requires RequestSendable(lib, Outgoing(), places)
      modifies parcel`items
      ensures parcel.items == old(parcel.items) + EncodeRequest(lib, Outgoing(), places)
    {
      hide EncodeList, EncodeSurfaces, EncodeIndexes, Sendable;
      var r := Outgoing();
      ghost var start := parcel.items;
      parcel.Write(I32(ToInt32(|r.settings|)));
      WriteTaggedList(parcel, lib, r.settings, places);
      parcel.Write(I32(if r.isReprocess then 1 else 0));
      parcel.Write(I32(ToInt32(|Sent(r)|)));
      WriteSurfaces(parcel, Sent(r));
      parcel.Write(I32(ToInt32(|r.streamIdx|)));
      WriteIndexes(parcel, r.streamIdx, r.surfaceIdx);
      WrittenTogether(start, I32(ToInt32(|r.settings|)), EncodeList(lib, r.settings, places),
                      I32(if r.isReprocess then 1 else 0), I32(ToInt32(|Sent(r)|)), EncodeSurfaces(Sent(r)),
                      I32(ToInt32(|r.streamIdx|)), EncodeIndexes(r.streamIdx, r.surfaceIdx));
    }

    static method WriteSurfaces(parcel: Parcel, surfaces: seq<nat>)
      modifies parcel`items
      ensures parcel.items == old(parcel.items) + EncodeSurfaces(surfaces)
    {
      ghost var all := parcel.items + EncodeSurfaces(surfaces);
      assert surfaces[0..] == surfaces;
      for i := 0 to |surfaces|
        invariant parcel.items + EncodeSurfaces(surfaces[i..]) == all
      {
        ghost var before := parcel.items;
        assert surfaces[i..][1..] == surfaces[i + 1..];
        parcel.Write(Str16(SURFACE_CLASS));
        parcel.Write(SurfaceShim(Some(surfaces[i])));
        assert before + ([Str16(SURFACE_CLASS), SurfaceShim(Some(surfaces[i]))] + EncodeSurfaces(surfaces[i + 1..]))
            == parcel.items + EncodeSurfaces(surfaces[i + 1..]);
      }
      assert parcel.items + [] == parcel.items;
    }

    static method WriteIndexes(parcel: Parcel, streamIdx: seq<Int32>, surfaceIdx: seq<Int32>)
      requires |streamIdx| <= |surfaceIdx|
      modifies parcel`items
      ensures parcel.items == old(parcel.items) + EncodeIndexes(streamIdx, surfaceIdx)
    {
      ghost var all := parcel.items + EncodeIndexes(streamIdx, surfaceIdx);
      assert streamIdx[0..] == streamIdx && surfaceIdx[0..] == surfaceIdx;
      for i := 0 to |streamIdx|
        invariant parcel.items + EncodeIndexes(streamIdx[i..], surfaceIdx[i..]) == all
      {
        ghost var before := parcel.items;
        assert streamIdx[i..][1..] == streamIdx[i + 1..] && surfaceIdx[i..][1..] == surfaceIdx[i + 1..];
        parcel.Write(I32(streamIdx[i]));
        parcel.Write(I32(surfaceIdx[i]));
        assert before + ([I32(streamIdx[i]), I32(surfaceIdx[i])] + EncodeIndexes(streamIdx[i + 1..], surfaceIdx[i + 1..]))
            == parcel.items + EncodeIndexes(streamIdx[i + 1..], surfaceIdx[i + 1..]);
      }
      assert parcel.items + [] == parcel.items;
    }
  }

  lemma WrittenTogether(start: seq<Item>, a: Item, list: seq<Item>, b: Item, c: Item, d: seq<Item>, e: Item, f: seq<Item>)
    ensures start + [a] + list + [b] + [c] + d + [e] + f == start + ([a] + list + [b] + [c] + d + [e] + f)
  {
  }

  lemma SurfacesDone(surfaces: seq<Option<nat>>, items: seq<Item>)
    ensures Prepend(surfaces, DecodeSurfaces(items, 0)) == Ok((surfaces, items))
  {
    assert surfaces + [] == surfaces;
  }

  lemma SurfaceStep(surfaces: seq<Option<nat>>, items: seq<Item>, n: nat)
    requires n > 0
    ensures var (name, r) := (ReadStr16Inplace(items), Prepend(surfaces, DecodeSurfaces(items, n)));
      var shim := ReadShim(name.1);
      && (name.0.None? ==> r == Prepend(surfaces, DecodeSurfaces(name.1, n - 1)))
      && (name.0.Some? && shim.Err? ==> r == Err(shim.status))
      && (name.0.Some? && shim.Ok? ==> r == Prepend(surfaces + [shim.value.0], DecodeSurfaces(shim.value.1, n - 1)))
  {
    var name := ReadStr16Inplace(items);
    var shim := ReadShim(name.1);
    if shim.Ok? && DecodeSurfaces(shim.value.1, n - 1).Ok? {
      var more := DecodeSurfaces(shim.value.1, n - 1).value.0;
      assert surfaces + ([shim.value.0] + more) == (surfaces + [shim.value.0]) + more;
    }
  }

  ghost function PrependBoth(a: seq<Int32>, b: seq<Int32>, r: Read<(seq<Int32>, seq<Int32>)>): Read<(seq<Int32>, seq<Int32>)> {
    if r.Err? then r else Ok(((a + r.value.0.0, b + r.value.0.1), r.value.1))
  }

  lemma IndexesStart(items: seq<Item>, n: nat)
    ensures PrependBoth([], [], DecodeIndexes(items, n)) == DecodeIndexes(items, n)
  {
    var r := DecodeIndexes(items, n);
    assert r.Ok? ==> [] + r.value.0.0 == r.value.0.0 && [] + r.value.0.1 == r.value.0.1;
  }

  lemma IndexesDone(a: seq<Int32>, b: seq<Int32>, items: seq<Item>)
    ensures PrependBoth(a, b, DecodeIndexes(items, 0)) == Ok(((a, b), items))
  {
    assert a + [] == a && b + [] == b;
  }

  lemma IndexStep(a: seq<Int32>, b: seq<Int32>, items: seq<Item>, n: nat)
    requires n > 0
    ensures var (x, r) := (ReadI32(items), PrependBoth(a, b, DecodeIndexes(items, n)));
      && (x.Err? ==> r == Err(x.status))
      && (x.Ok? ==>
            var y := ReadI32(x.value.1);
            && (y.Err? ==> r == Err(y.status))
            && (y.Ok? ==> r == PrependBoth(a + [x.value.0], b + [y.value.0], DecodeIndexes(y.value.1, n - 1))))
  {
    var x := ReadI32(items);
    if x.Ok? {
      var y := ReadI32(x.value.1);
      if y.Ok? && DecodeIndexes(y.value.1, n - 1).Ok? {
        var more := DecodeIndexes(y.value.1, n - 1).value.0;
        assert a + ([x.value.0] + more.0) == (a + [x.value.0]) + more.0;
        assert b + ([y.value.0] + more.1) == (b + [y.value.0]) + more.1;
      }
    }
  }
}
