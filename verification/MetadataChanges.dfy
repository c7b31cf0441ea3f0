/** What resizing, updating and erasing do to a buffer of camera/CameraMetadata.cpp, entry by entry and
    in numbers, and what the blob reader accepts. */
module MetadataChanges {
  import opened Arithmetic
  import opened Parcels
  import opened Metadata
  import B = MetadataBlob

  // ---------------------------------------------------------------- capacities

  /** The capacities resizeIfNeeded leaves: twice the demand where it exceeds the capacity, otherwise
      what was there; without a buffer, twice what is asked for. */
  lemma ResizedCapacities(b: Option<Meta>, extraEntries: nat, extraData: nat)
    ensures var m := Resized(b, extraEntries, extraData);
      && (b.None? ==> m == Meta([], 2 * extraEntries, 2 * extraData))
      && (b.Some? ==>
            var (entries, data) := (|b.value.entries| + extraEntries, DataCount(b.value.entries) + extraData);
            && m.entries == b.value.entries
            && m.entryCap == (if entries > b.value.entryCap then 2 * entries else b.value.entryCap)
            && m.dataCap == (if data > b.value.dataCap then 2 * data else b.value.dataCap))
  {
  }

  /** Up to four bytes lie in the entry itself; more are rounded up to the next multiple of eight. */
  lemma DataSizeMeans(bytes: nat)
    ensures bytes <= 4 ==> DataSize(bytes) == 0
    ensures bytes > 4 ==> DataSize(bytes) % 8 == 0 && bytes <= DataSize(bytes) < bytes + 8
  {
  }

  /** An operation moves an existing buffer exactly when its demand exceeds a capacity. */
  lemma ReallocatesIff(m: Meta, op: Op)
    ensures Reallocates(Some(m), op) <==>
      !op.Erase? && (EntryDemand(Some(m), op) > m.entryCap || DataDemand(Some(m), op) > m.dataCap)
  {
  }

  // ---------------------------------------------------------------- entries

  /** An update changes the data of the first entry of its tag, in place; without one it adds an entry
      at the end. */
  lemma UpdateEntryByEntry(es: seq<Entry>, tag: nat, data: seq<Byte>)
    ensures var es' := ListUpdate(es, tag, data);
      && ((forall i :: 0 <= i < |es| ==> es[i].tag != tag) ==> es' == es + [Entry(tag, data)])
      && (forall i :: 0 <= i < |es| && es[i].tag == tag && (forall j :: 0 <= j < i ==> es[j].tag != tag) ==>
            |es'| == |es| && es'[i] == Entry(tag, data)
            && forall k :: 0 <= k < |es| && k != i ==> es'[k] == es[k])
  {
    hide FirstOf;
  }

  /** Erasing takes out the first entry of its tag and keeps the order of the others. */
  lemma EraseEntryByEntry(es: seq<Entry>, tag: nat)
    ensures var es' := ListErase(es, tag);
      && ((forall i :: 0 <= i < |es| ==> es[i].tag != tag) ==> es' == es)
      && (forall i :: 0 <= i < |es| && es[i].tag == tag && (forall j :: 0 <= j < i ==> es[j].tag != tag) ==>
            |es'| == |es| - 1 && (forall k :: 0 <= k < i ==> es'[k] == es[k])
            && forall k :: i <= k < |es| - 1 ==> es'[k] == es[k + 1])
  {
    hide FirstOf;
  }

  // ---------------------------------------------------------------- blobs from anywhere

  /** Whatever the parcel: what the reader does with a size, a blob of that size and an offset. */
  lemma BlobIsAcceptedIff(lib: B.Library, size: Int32, bytes: seq<Byte>, at: Int32, rest: seq<Item>)
    requires 0 < size == |bytes| && B.Alignment(lib) < TWO63
    ensures var d := B.Decode(lib, [I32(size), Blob(bytes), I32(at)] + rest);
      if size <= B.Alignment(lib) || at < 0 || at >= B.Alignment(lib) then d == Err(BadValue)
      else
        var m := lib.check(bytes[at..at + (size - B.Alignment(lib))]);
        d == if m.Some? then Ok((m, rest)) else Err(BadValue)
  {
    hide B.Alignment;
    var items := [I32(size), Blob(bytes), I32(at)] + rest;
    assert items[1..][1..][1..] == rest;
  }

  /** A negative size asks for a blob larger than memory, which no parcel holds. */
  lemma NegativeSizeIsRefused(lib: B.Library, size: Int32, rest: seq<Item>)
    requires size < 0 && forall i :: 0 <= i < |rest| && rest[i].Blob? ==> |rest[i].bytes| < TWO63
    ensures B.Decode(lib, [I32(size)] + rest).Err?
  {
    hide B.Alignment;
    assert ([I32(size)] + rest)[1..] == rest;
  }
}
