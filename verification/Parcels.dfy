/** Results, fixed-width integers and parcels.

    A parcel is a sequence of typed items; the byte layout of the binder library is not modelled.
    Reading takes the first remaining item when it has the requested type and fails otherwise. */
module Parcels {

  datatype Option<+T> = None | Some(value: T)

  /** Error codes, and three outcomes in which the code reports nothing: it reads past the end of a
      vector, it reads memory it has freed, or a fatal check stops the process. */
  datatype Status =
    | BadValue | NotEnoughData | NameNotFound | InvalidOperation | LibraryError
    | OutOfBounds | UseAfterFree | Aborted

  datatype Result<+T> = Ok(value: T) | Err(status: Status) {
    predicate IsFailure() { Err? }

    function PropagateFailure<U>(): Result<U>
      requires Err?
    {
      Err(status)
    }

    function Extract(): T
      requires Ok?
    {
      value
    }
  }

  const TWO31: int := 0x8000_0000
  const TWO32: int := 0x1_0000_0000
  const TWO63: int := 0x8000_0000_0000_0000
  const TWO64: int := 0x1_0000_0000_0000_0000

  type Int32 = x: int | -0x8000_0000 <= x < 0x8000_0000
  type UInt32 = x: int | 0 <= x < 0x1_0000_0000
  type Int64 = x: int | -0x8000_0000_0000_0000 <= x < 0x8000_0000_0000_0000

  newtype Byte = x: int | 0 <= x < 256

  /** static_cast<int32_t> of any integer. */
  function ToInt32(x: int): Int32 {
    if -0x8000_0000 <= x < 0x8000_0000 then x
    else
      var r := ToUInt32(x);
      if r < 0x8000_0000 then r else r - 0x1_0000_0000
  }

  /** static_cast<uint32_t> of any integer. */
  function ToUInt32(x: int): UInt32 {
    if 0 <= x < 0x1_0000_0000 then x else x % 0x1_0000_0000
  }

  datatype Item =
    | I32(i32: Int32)
    | I64(i64: Int64)
    | U64(u64: nat)
    | Str8(s8: string)
    | Str16(s16: string)
    | NullStr16
    | Blob(bytes: seq<Byte>)
    | Handle(frame: nat)
    | SurfaceShim(producer: Option<nat>)

  type Read<T> = Result<(T, seq<Item>)>

  /** What a reading loop has read, in front of what it will still read. */
  function Prepend<T>(xs: seq<T>, r: Read<seq<T>>): Read<seq<T>> {
    if r.Err? then r else Ok((xs + r.value.0, r.value.1))
  }

  function ReadI32(items: seq<Item>): Read<Int32> {
    if items != [] && items[0].I32? then Ok((items[0].i32, items[1..])) else Err(NotEnoughData)
  }

  function ReadI64(items: seq<Item>): Read<Int64> {
    if items != [] && items[0].I64? then Ok((items[0].i64, items[1..])) else Err(NotEnoughData)
  }

  function ReadU64(items: seq<Item>): Read<nat> {
    if items != [] && items[0].U64? then Ok((items[0].u64, items[1..])) else Err(NotEnoughData)
  }

  function ReadU32(items: seq<Item>): Read<UInt32> {
    var (v, rest) :- ReadI32(items);
    Ok((ToUInt32(v), rest))
  }

  function ReadStr16(items: seq<Item>): Read<string> {
    if items != [] && items[0].Str16? then Ok((items[0].s16, items[1..])) else Err(NotEnoughData)
  }

  function ReadHandle(items: seq<Item>): Read<nat> {
    if items != [] && items[0].Handle? then Ok((items[0].frame, items[1..])) else Err(NotEnoughData)
  }

  /** readString8, which has no status: a failed read gives the empty string. */
  function ReadStr8(items: seq<Item>): (string, seq<Item>) {
    if items != [] && items[0].Str8? then (items[0].s8, items[1..]) else ("", items)
  }

  /** Parcel::readBlob(size): the next item has to be a blob of that size. */
  function ReadBlob(items: seq<Item>, size: int): Read<seq<Byte>> {
    if items != [] && items[0].Blob? && |items[0].bytes| == size then Ok((items[0].bytes, items[1..]))
    else Err(NotEnoughData)
  }

  class Parcel {
    var items: seq<Item>
    var pos: nat

    ghost predicate Valid()
      reads this
    {
      pos <= |items|
    }

    /** What has not been read yet. */
    function Rest(): seq<Item>
      requires Valid()
      reads this
    {
      items[pos..]
    }

    constructor ()
      ensures Valid() && items == [] && pos == 0
    {
      items, pos := [], 0;
    }

    method Write(item: Item)
      modifies this`items
      ensures items == old(items) + [item]
    {
      items := items + [item];
    }

    /** Takes what a read function says about the remaining items: on success the value is
        returned and the read position moves on, on failure the position stays. */
    method Take<T>(read: Read<T>) returns (r: Result<T>)
      requires Valid()
      requires read.Ok? ==> IsSuffix(read.value.1, Rest())
      modifies this`pos
      ensures Valid()
      ensures read.Ok? ==> r == Ok(read.value.0) && Rest() == read.value.1
      ensures read.Err? ==> r == Err(read.status) && Rest() == old(Rest())
    {
      if read.Err? { return Err(read.status); }
      pos := |items| - |read.value.1|;
      r := Ok(read.value.0);
    }

    /** readString8. */
    method TakeStr8() returns (s: string)
      requires Valid()
      modifies this`pos
      ensures Valid() && (s, Rest()) == ReadStr8(old(Rest()))
    {
      s := ReadStr8(Rest()).0;
      pos := |items| - |ReadStr8(Rest()).1|;
    }
  }

  predicate IsSuffix<T(==)>(s: seq<T>, t: seq<T>) {
    |s| <= |t| && s == t[|t| - |s|..]
  }
}
