/** The parcel codec of camera/CameraMetadata.cpp: metadata as a blob with alignment padding. */
module MetadataBlob {
  import opened Arithmetic
  import opened Parcels
  import opened Metadata

  // ---------------------------------------------------------------- ALIGN_TO

  /** The & operator. */
  function And(x: nat, y: nat): nat {
    if x == 0 || y == 0 then 0 else (x % 2) * (y % 2) + 2 * And(x / 2, y / 2)
  }

  /** ALIGN_TO on 64-bit addresses: (val + (alignment - 1)) & ~(alignment - 1). */
  function AlignTo(val: nat, alignment: nat): nat
    requires 0 < alignment <= TWO64
  {
    And((val + (alignment - 1)) % TWO64, TWO64 - 1 - (alignment - 1))
  }

  /** Masking with 2^w - 2^k clears the low k bits of a w-bit number. */
  lemma {:induction false} MaskClearsLowBits(x: nat, k: nat, w: nat)
    requires k <= w && x < Pow2(w)
    ensures 0 < Pow2(k) <= Pow2(w)
    ensures And(x, Pow2(w) - Pow2(k)) == x - x % Pow2(k)
    decreases w
  {
    Pow2Positive(k);
    if w == 0 {
    } else if k == 0 {
      MaskClearsLowBits(x / 2, 0, w - 1);
      var half := Pow2(w - 1) - 1;
      assert Pow2(w) - 1 == 2 * half + 1;
      AndOdd(x, half);
    } else {
      MaskStep(x, k, w);
      MaskClearsLowBits(x / 2, k - 1, w - 1);
      hide And, Pow2;
      AndEven(x, Pow2(w - 1) - Pow2(k - 1));
    }
  }

  lemma MaskStep(x: nat, k: nat, w: nat)
    requires 0 < k <= w && x < Pow2(w)
    ensures Pow2(w) == 2 * Pow2(w - 1) && Pow2(k) == 2 * Pow2(k - 1) && x / 2 < Pow2(w - 1)
    ensures Pow2(k - 1) > 0 && x % Pow2(k) == 2 * ((x / 2) % Pow2(k - 1)) + x % 2
  {
    Pow2Positive(k - 1);
    HalfOfMod(x, Pow2(k - 1));
  }

  lemma AndOdd(x: nat, half: nat)
    ensures And(x, 2 * half + 1) == x % 2 + 2 * And(x / 2, half)
  {
    var y := 2 * half + 1;
    assert y % 2 == 1 && y / 2 == half;
    assert (x % 2) * 1 == x % 2;
  }

  lemma AndEven(x: nat, half: nat)
    ensures And(x, 2 * half) == 2 * And(x / 2, half)
  {
    var y := 2 * half;
    assert y % 2 == 0 && y / 2 == half;
    assert (x % 2) * 0 == 0;
  }

  lemma Pow2Of64()
    ensures Pow2(64) == TWO64
  {
    Pow2Add(2, 2);
    Pow2Add(4, 4);
    Pow2Add(8, 8);
    Pow2Add(16, 16);
    Pow2Add(32, 32);
  }

  /** For a power of two, and as long as the address does not run over the end of memory, ALIGN_TO
      is the least multiple of the alignment at or above the address. */
  lemma AlignToIsLeastMultiple(val: nat, k: nat)
    requires k < 64 && val + Pow2(k) <= TWO64
    ensures 0 < Pow2(k) <= TWO64
    ensures var a := AlignTo(val, Pow2(k));
      a % Pow2(k) == 0 && val <= a < val + Pow2(k)
    ensures forall n: nat :: n >= val && n % Pow2(k) == 0 ==> AlignTo(val, Pow2(k)) <= n
  {
    hide Pow2, And;
    AlignToRounds(val, k);
    var alignment := Pow2(k);
    var x := val + (alignment - 1);
    MultipleBelow(x, alignment);
    forall n: nat | n >= val && n % alignment == 0
      ensures AlignTo(val, alignment) <= n
    {
      NoMultipleBetween(x - x % alignment, n, alignment);
    }
  }

  lemma AlignToRounds(val: nat, k: nat)
    requires k < 64 && val + Pow2(k) <= TWO64
    ensures var alignment := Pow2(k);
      0 < alignment <= TWO64 && AlignTo(val, alignment) == val + (alignment - 1) - (val + (alignment - 1)) % alignment
  {
    hide Pow2, And;
    Pow2Of64();
    Pow2Positive(k);
    MaskClearsLowBits(val + (Pow2(k) - 1), k, 64);
  }

  lemma MultipleBelow(x: nat, d: nat)
    requires d > 0
    ensures (x - x % d) % d == 0
  {
    var q := x / d;
    assert x - x % d == q * d + 0;
    DivModUnique(x - x % d, d, q, 0);
  }

  lemma NextMultiple(p: nat, q: nat, d: nat)
    ensures p > q ==> p * d >= q * d + d
  {
    if p > q {
      TimesLe(d, q + 1, p);
      assert d * (q + 1) == q * d + d;
    }
  }

  lemma NoMultipleBetween(a: nat, n: nat, d: nat)
    requires d > 0 && a % d == 0 && n % d == 0 && a < n + d
    ensures a <= n
  {
    var p, q := a / d, n / d;
    assert a == p * d && n == q * d;
    NextMultiple(p, q, d);
  }

  // ---------------------------------------------------------------- the codec

  /** The camera_metadata library: its alignment, the compact copy of a buffer, the checked copy
      out of memory, and which buffers are structurally valid. */
  datatype Library = Library(alignBits: nat, compact: Meta -> seq<Byte>, check: seq<Byte> -> Option<Meta>,
                             isValid: Meta -> bool)

  /** copy_camera_metadata makes the capacities as small as the contents. */
  function Compacted(m: Meta): Meta { Meta(m.entries, |m.entries|, DataCount(m.entries)) }

  ghost predicate Contract(lib: Library) {
    && lib.alignBits < 64
    && (forall m :: |lib.compact(m)| > 0)
    && (forall m :: lib.check(lib.compact(m)) == if lib.isValid(m) then Some(Compacted(m)) else None)
  }

  function Alignment(lib: Library): nat { Pow2(lib.alignBits) }

  function BlobSize(lib: Library, m: Meta): nat { |lib.compact(m)| + Alignment(lib) }

  /** Where the metadata starts in a blob at this address. */
  function Offset(lib: Library, address: nat): int
    requires lib.alignBits < 64
  {
    Pow2Positive(lib.alignBits);
    Pow2Of64();
    MaskClearsLowBits(0, lib.alignBits, 64);
    AlignTo(address, Alignment(lib)) - address
  }

  /** A blob of this size lies in memory. */
  predicate InMemory(address: nat, size: nat) { address + size <= TWO64 }

  lemma OffsetIsInside(lib: Library, m: Meta, address: nat)
    requires Contract(lib) && InMemory(address, BlobSize(lib, m))
    ensures var offset := Offset(lib, address);
      && 0 <= offset < Alignment(lib)
      && offset + |lib.compact(m)| < BlobSize(lib, m)
      && (address + offset) % Alignment(lib) == 0
  {
    AlignToIsLeastMultiple(address, lib.alignBits);
  }

  /** The blob after copy_camera_metadata; `raw` is what was in it before. */
  function Padded(lib: Library, m: Meta, address: nat, raw: seq<Byte>): seq<Byte>
    requires lib.alignBits < 64 && |raw| == BlobSize(lib, m)
    requires 0 <= Offset(lib, address) && Offset(lib, address) + |lib.compact(m)| <= |raw|
  {
    var offset := Offset(lib, address);
    raw[..offset] + lib.compact(m) + raw[offset + |lib.compact(m)|..]
  }

  ghost function Encode(lib: Library, b: Option<Meta>, address: nat, raw: seq<Byte>): seq<Item>
    requires b.Some? ==> Contract(lib) && |raw| == BlobSize(lib, b.value) && InMemory(address, |raw|)
  {
    if b.None? then [I32(0)]
    else
      OffsetIsInside(lib, b.value, address);
      [I32(ToInt32(BlobSize(lib, b.value))), Blob(Padded(lib, b.value, address, raw)),
       I32(ToInt32(Offset(lib, address)))]
  }

  /** static_cast<size_t> of an int32_t. */
  function ToSize(x: Int32): nat { if x >= 0 then x else x + TWO64 }

  /** The static readFromParcel. */
  function Decode(lib: Library, items: seq<Item>): Read<Option<Meta>> {
    var (size, rest) :- ReadI32(items);
    var blobSize := ToSize(size);
    if blobSize == 0 then Ok((None, rest))
    else if blobSize <= Alignment(lib) then Err(BadValue)
    else
      var (bytes, rest) :- ReadBlob(rest, blobSize);
      var (at, rest) :- ReadI32(rest);
      if ToSize(at) >= Alignment(lib) then Err(BadValue)
      else
        var m := lib.check(bytes[ToSize(at)..ToSize(at) + (blobSize - Alignment(lib))]);
        if m.None? then Err(BadValue) else Ok((m, rest))
  }

  /** What a reader gets back. */
  function Arrives(b: Option<Meta>): Option<Meta> { if b.None? then None else Some(Compacted(b.value)) }

  lemma DecodeByParts(lib: Library, size: Int32, bytes: seq<Byte>, at: Int32, rest: seq<Item>)
    requires 0 < size && ToSize(at) < Alignment(lib) < size == |bytes|
    ensures Decode(lib, [I32(size), Blob(bytes), I32(at)] + rest)
         == var m := lib.check(bytes[at..at + (size - Alignment(lib))]);
            if m.None? then Err(BadValue) else Ok((m, rest))
  {
    var items := [I32(size), Blob(bytes), I32(at)] + rest;
    assert items[1..][1..][1..] == rest;
  }

  /** When the blob size does not fit 32 bits the reader asks for a blob of another size, or for none. */
  lemma OversizeIsNotRead(lib: Library, size: nat, bytes: seq<Byte>, last: Item, rest: seq<Item>)
    requires TWO31 <= size == |bytes| < TWO63
    ensures var d := Decode(lib, [I32(ToInt32(size)), Blob(bytes), last] + rest);
      d.Err? || d == Ok((None, [Blob(bytes), last] + rest))
  {
    var items := [I32(ToInt32(size)), Blob(bytes), last] + rest;
    assert items[1..] == [Blob(bytes), last] + rest;
    CastChanges(size);
  }

  lemma CastChanges(size: nat)
    requires TWO31 <= size < TWO63
    ensures ToSize(ToInt32(size)) != size
  {
    var c := ToInt32(size);
    assert -0x8000_0000 <= c < 0x8000_0000;
  }

  /** Written at any address and read at any other: valid metadata arrives with all its entries,
      and the parcel is left at what follows, exactly when size plus alignment is below 2^31. */
  lemma RoundTrip(lib: Library, m: Meta, address: nat, raw: seq<Byte>, rest: seq<Item>)
    requires Contract(lib) && |raw| == BlobSize(lib, m) && InMemory(address, |raw|) && |raw| < TWO63
    ensures Decode(lib, Encode(lib, Some(m), address, raw) + rest) == Ok((Arrives(Some(m)), rest))
       <==> lib.isValid(m) && |lib.compact(m)| + Alignment(lib) < TWO31
    ensures BlobSize(lib, m) < TWO31 && !lib.isValid(m) ==>
      Decode(lib, Encode(lib, Some(m), address, raw) + rest) == Err(BadValue)
  {
    OffsetIsInside(lib, m, address);
    var offset := Offset(lib, address);
    var bytes := Padded(lib, m, address, raw);
    Pow2Positive(lib.alignBits);
    if BlobSize(lib, m) < TWO31 {
      assert bytes[offset..offset + |lib.compact(m)|] == lib.compact(m);
      DecodeByParts(lib, BlobSize(lib, m), bytes, offset, rest);
    } else {
      OversizeIsNotRead(lib, BlobSize(lib, m), bytes, I32(ToInt32(offset)), rest);
    }
  }

  lemma NullRoundTrip(lib: Library, rest: seq<Item>)
    ensures Decode(lib, [I32(0)] + rest) == Ok((None, rest))
  {
    assert ([I32(0)] + rest)[1..] == rest;
  }

  /** Metadata that reaches the reader: none, or valid and not too large for the size field. */
  ghost predicate Sendable(lib: Library, b: Option<Meta>) {
    Contract(lib) && (b.Some? ==> lib.isValid(b.value) && BlobSize(lib, b.value) < TWO31)
  }

  /** A place in memory for the blob, with what was there before. */
  datatype Place = Place(address: nat, raw: seq<Byte>)

  ghost predicate Suits(lib: Library, b: Option<Meta>, p: Place) {
    b.Some? ==> |p.raw| == BlobSize(lib, b.value) && InMemory(p.address, |p.raw|)
  }

  lemma SendableRoundTrip(lib: Library, b: Option<Meta>, p: Place, rest: seq<Item>)
    requires Sendable(lib, b) && Suits(lib, b, p)
    ensures Decode(lib, Encode(lib, b, p.address, p.raw) + rest) == Ok((Arrives(b), rest))
  {
    if b.None? {
      NullRoundTrip(lib, rest);
    } else {
      RoundTrip(lib, b.value, p.address, p.raw, rest);
    }
  }

  // ---------------------------------------------------------------- the methods

  /** The static writeToParcel; the parcel puts its blob at p. */
  method WriteToParcel(parcel: Parcel, lib: Library, b: Option<Meta>, p: Place)
    requires Contract(lib) && Suits(lib, b, p)
    modifies parcel`items
    ensures parcel.items == old(parcel.items) + Encode(lib, b, p.address, p.raw)
  {
    if b.None? {
      parcel.Write(I32(0));
      return;
    }
    var metadata := lib.compact(b.value);
    OffsetIsInside(lib, b.value, p.address);
    var blobSize := |metadata| + Alignment(lib);
    parcel.Write(I32(ToInt32(blobSize)));
    var blob := new Byte[blobSize](i requires 0 <= i < |p.raw| => p.raw[i]);
    var offset := Offset(lib, p.address);
    forall i | 0 <= i < |metadata| {
      blob[offset + i] := metadata[i];
    }
    assert blob[..] == Padded(lib, b.value, p.address, p.raw);
    parcel.Write(Blob(blob[..]));
    parcel.Write(I32(ToInt32(offset)));
  }

  /** The static readFromParcel. */
  method ReadFromParcel(parcel: Parcel, lib: Library) returns (r: Result<Option<Meta>>)
    requires parcel.Valid()
    modifies parcel`pos
    ensures parcel.Valid()
    ensures var d := Decode(lib, old(parcel.Rest()));
      if d.Ok? then r == Ok(d.value.0) && parcel.Rest() == d.value.1 else r == Err(d.status)
  {
    var size := parcel.Take(ReadI32(parcel.Rest()));
    if size.Err? { return Err(size.status); }
    var blobSize := ToSize(size.value);
    if blobSize == 0 { return Ok(None); }
    if blobSize <= Alignment(lib) { return Err(BadValue); }
    var metadataSize := blobSize - Alignment(lib);
    var blob := parcel.Take(ReadBlob(parcel.Rest(), blobSize));
    if blob.Err? { return Err(blob.status); }
    var at := parcel.Take(ReadI32(parcel.Rest()));
    if at.Err? { return Err(at.status); }
    var offset := ToSize(at.value);
    if offset >= Alignment(lib) { return Err(BadValue); }
    var metadata := lib.check(blob.value[offset..offset + metadataSize]);
    if metadata.None? { return Err(BadValue); }
    r := Ok(metadata);
  }

  /** The member readFromParcel: on any failure the object keeps its metadata. */
  method ReadInto(self: CameraMetadata, parcel: Parcel, lib: Library) returns (r: Result<()>)
    requires parcel.Valid()
    modifies self`mBuffer, parcel`pos
    ensures parcel.Valid()
    ensures self.mLocked ==> r == Err(InvalidOperation)
    ensures var d := Decode(lib, old(parcel.Rest()));
      !self.mLocked ==>
        if d.Ok? then r.Ok? && self.Abs() == d.value.0 && parcel.Rest() == d.value.1 else r == Err(d.status)
    ensures r.Err? ==> self.mBuffer == old(self.mBuffer) && self.Abs() == old(self.Abs())
  {
    if self.mLocked { return Err(InvalidOperation); }
    var read := ReadFromParcel(parcel, lib);
    if read.Err? { return Err(read.status); }
    if read.value.None? {
      self.mBuffer := null;
    } else {
      self.mBuffer := new Buffer(read.value.value.entryCap, read.value.value.dataCap);
      self.mBuffer.entries := read.value.value.entries;
    }
    r := Ok(());
  }
}
