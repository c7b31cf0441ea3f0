/** The metadata container of camera/CameraMetadata.cpp: a wrapper around the camera_metadata C
    library that reallocates the library's buffer before every write.

    The library is not part of this model.  Its buffers are a list of entries with two
    capacities; finding takes the first entry of a tag, adding, appending and growing an entry
    fail when a capacity would be exceeded, and deleting or updating gives back the data space. */
module Metadata {
  import opened Arithmetic
  import opened Parcels

  // ---------------------------------------------------------------- the library's buffers

  /** The type of an entry is the type of its tag. */
  datatype Entry = Entry(tag: nat, data: seq<Byte>)

  /** calculate_camera_metadata_entry_data_size: short values live in the entry itself. */
  function DataSize(bytes: nat): nat { if bytes <= 4 then 0 else (bytes + 7) / 8 * 8 }

  /** get_camera_metadata_data_count. */
  function DataCount(es: seq<Entry>): nat {
    if es == [] then 0 else DataSize(|es[0].data|) + DataCount(es[1..])
  }

  datatype Meta = Meta(entries: seq<Entry>, entryCap: nat, dataCap: nat)

  predicate Fits(b: Option<Meta>) {
    b.Some? ==> |b.value.entries| <= b.value.entryCap && DataCount(b.value.entries) <= b.value.dataCap
  }

  function Entries(b: Option<Meta>): seq<Entry> { if b.None? then [] else b.value.entries }

  /** find_camera_metadata_entry; on a NULL buffer it fails with an error of its own. */
  function LibFind(b: Option<Meta>, tag: nat): Result<nat> {
    if b.None? then Err(LibraryError)
    else
      var i := FirstOf(b.value.entries, tag);
      if i < |b.value.entries| then Ok(i) else Err(NameNotFound)
  }

  /** The index of the first entry of the tag, or the number of entries. */
  function FirstOf(es: seq<Entry>, tag: nat): (i: nat)
    ensures i <= |es|
    ensures i < |es| ==> es[i].tag == tag
    ensures forall j :: 0 <= j < i ==> es[j].tag != tag
  {
    if es == [] then 0 else if es[0].tag == tag then 0 else 1 + FirstOf(es[1..], tag)
  }

  function Store(m: Meta, es: seq<Entry>): Result<Meta> {
    if |es| <= m.entryCap && DataCount(es) <= m.dataCap then Ok(m.(entries := es)) else Err(LibraryError)
  }

  function LibAdd(m: Meta, e: Entry): Result<Meta> { Store(m, m.entries + [e]) }

  function LibAppend(m: Meta, es: seq<Entry>): Result<Meta> { Store(m, m.entries + es) }

  function LibUpdate(m: Meta, i: nat, data: seq<Byte>): Result<Meta>
    requires i < |m.entries|
  {
    Store(m, m.entries[i := Entry(m.entries[i].tag, data)])
  }

  function RemoveAt(es: seq<Entry>, i: nat): seq<Entry>
    requires i < |es|
  {
    es[..i] + es[i + 1..]
  }

  // ---------------------------------------------------------------- the container's operations

  /** The capacity resizeIfNeeded asks for. */
  function Grown(count: nat, extra: nat, cap: nat): nat {
    if count + extra > cap then (count + extra) * 2 else cap
  }

  predicate MustGrow(m: Meta, extraEntries: nat, extraData: nat) {
    |m.entries| + extraEntries > m.entryCap || DataCount(m.entries) + extraData > m.dataCap
  }

  /** resizeIfNeeded, when the allocation succeeds. */
  function Resized(b: Option<Meta>, extraEntries: nat, extraData: nat): Meta {
    if b.None? then Meta([], extraEntries * 2, extraData * 2)
    else
      var m := b.value;
      if MustGrow(m, extraEntries, extraData) then
        Meta(m.entries, Grown(|m.entries|, extraEntries, m.entryCap),
             Grown(DataCount(m.entries), extraData, m.dataCap))
      else m
  }

  /** The part of updateImpl after its checks. */
  function Updated(b: Option<Meta>, tag: nat, data: seq<Byte>): (Option<Meta>, Result<()>) {
    var m := Resized(b, 1, DataSize(|data|));
    var at := LibFind(Some(m), tag);
    var r := if at.Ok? then LibUpdate(m, at.value, data) else LibAdd(m, Entry(tag, data));
    if r.Ok? then (Some(r.value), Ok(())) else (Some(m), Err(r.status))
  }

  function Appended(b: Option<Meta>, es: seq<Entry>): (Option<Meta>, Result<()>) {
    var m := Resized(b, |es|, DataCount(es));
    var r := LibAppend(m, es);
    if r.Ok? then (Some(r.value), Ok(())) else (Some(m), Err(r.status))
  }

  function Erased(b: Option<Meta>, tag: nat): (Option<Meta>, Result<()>) {
    var at := LibFind(b, tag);
    if at == Err(NameNotFound) then (b, Ok(()))
    else if at.Err? then (b, Err(at.status))
    else (Some(b.value.(entries := RemoveAt(b.value.entries, at.value))), Ok(()))
  }

  // ---------------------------------------------------------------- room is always made

  lemma {:induction false} DataCountAppends(es: seq<Entry>, more: seq<Entry>)
    ensures DataCount(es + more) == DataCount(es) + DataCount(more)
    decreases |es|
  {
    if es == [] {
      assert es + more == more;
    } else {
      assert (es + more)[1..] == es[1..] + more;
      DataCountAppends(es[1..], more);
    }
  }

  lemma DataCountAt(es: seq<Entry>, i: nat)
    requires i < |es|
    ensures DataCount(es) == DataCount(RemoveAt(es, i)) + DataSize(|es[i].data|)
  {
    assert es == es[..i] + ([es[i]] + es[i + 1..]);
    DataCountAppends(es[..i], [es[i]] + es[i + 1..]);
    DataCountAppends(es[..i], es[i + 1..]);
    assert ([es[i]] + es[i + 1..])[1..] == es[i + 1..];
  }

  /** resizeIfNeeded keeps all entries and leaves room for the pending write. */
  lemma ResizedHasRoom(b: Option<Meta>, extraEntries: nat, extraData: nat)
    requires Fits(b)
    ensures var m := Resized(b, extraEntries, extraData);
      && m.entries == Entries(b) && Fits(Some(m))
      && |m.entries| + extraEntries <= m.entryCap && DataCount(m.entries) + extraData <= m.dataCap
  {
  }

  /** The entry lists without capacities: what update, append and erase are meant to do. */
  function ListUpdate(es: seq<Entry>, tag: nat, data: seq<Byte>): seq<Entry> {
    var i := FirstOf(es, tag);
    if i < |es| then es[i := Entry(tag, data)] else es + [Entry(tag, data)]
  }

  function ListErase(es: seq<Entry>, tag: nat): seq<Entry> {
    var i := FirstOf(es, tag);
    if i < |es| then RemoveAt(es, i) else es
  }

  /** An update always succeeds and does to the entries what it would do without capacities. */
  lemma UpdateSucceeds(b: Option<Meta>, tag: nat, data: seq<Byte>)
    requires Fits(b)
    ensures var (b', r) := Updated(b, tag, data);
      r.Ok? && b'.Some? && Fits(b') && Entries(b') == ListUpdate(Entries(b), tag, data)
    ensures var (m, m') := (Resized(b, 1, DataSize(|data|)), Updated(b, tag, data).0);
      m'.Some? && m'.value.entryCap == m.entryCap && m'.value.dataCap == m.dataCap
  {
    var m := Resized(b, 1, DataSize(|data|));
    ResizedHasRoom(b, 1, DataSize(|data|));
    var es := m.entries;
    var i := FirstOf(es, tag);
    if i < |es| {
      var es' := es[i := Entry(tag, data)];
      DataCountAt(es, i);
      DataCountAt(es', i);
      assert RemoveAt(es', i) == RemoveAt(es, i);
    } else {
      DataCountAppends(es, [Entry(tag, data)]);
      assert [Entry(tag, data)][1..] == [];
    }
  }

  lemma AppendSucceeds(b: Option<Meta>, es: seq<Entry>)
    requires Fits(b)
    ensures var (b', r) := Appended(b, es);
      r.Ok? && b'.Some? && Fits(b') && Entries(b') == Entries(b) + es
    ensures var (m, m') := (Resized(b, |es|, DataCount(es)), Appended(b, es).0);
      m'.Some? && m'.value.entryCap == m.entryCap && m'.value.dataCap == m.dataCap
  {
    ResizedHasRoom(b, |es|, DataCount(es));
    DataCountAppends(Entries(b), es);
  }

  /** Erasing succeeds on every buffer; without a buffer it reports the library's error. */
  lemma EraseSucceeds(b: Option<Meta>, tag: nat)
    requires Fits(b)
    ensures var (b', r) := Erased(b, tag);
      && (r.Ok? <==> b.Some?) && Fits(b') && Entries(b') == ListErase(Entries(b), tag)
      && (b.Some? <==> b'.Some?)
      && (b.Some? ==> b'.value.entryCap == b.value.entryCap && b'.value.dataCap == b.value.dataCap)
  {
    if b.Some? && FirstOf(Entries(b), tag) < |Entries(b)| {
      DataCountAt(Entries(b), FirstOf(Entries(b), tag));
    }
  }

  // ---------------------------------------------------------------- what a reader sees

  /** How often a tag occurs. */
  function Occurrences(es: seq<Entry>, tag: nat): nat {
    if es == [] then 0 else (if es[0].tag == tag then 1 else 0) + Occurrences(es[1..], tag)
  }

  lemma {:induction false} OccurrencesAppend(es: seq<Entry>, more: seq<Entry>, tag: nat)
    ensures Occurrences(es + more, tag) == Occurrences(es, tag) + Occurrences(more, tag)
    decreases |es|
  {
    if es == [] {
      assert es + more == more;
    } else {
      assert (es + more)[1..] == es[1..] + more;
      OccurrencesAppend(es[1..], more, tag);
    }
  }

  lemma OccurrencesAt(es: seq<Entry>, i: nat, tag: nat)
    requires i < |es|
    ensures Occurrences(es, tag) == Occurrences(RemoveAt(es, i), tag) + (if es[i].tag == tag then 1 else 0)
  {
    assert es == es[..i] + ([es[i]] + es[i + 1..]);
    OccurrencesAppend(es[..i], [es[i]] + es[i + 1..], tag);
    OccurrencesAppend(es[..i], es[i + 1..], tag);
    assert ([es[i]] + es[i + 1..])[1..] == es[i + 1..];
  }

  lemma {:induction false} FoundIffOccurs(es: seq<Entry>, tag: nat)
    ensures FirstOf(es, tag) < |es| <==> Occurrences(es, tag) > 0
    decreases |es|
  {
    if es != [] {
      FoundIffOccurs(es[1..], tag);
    }
  }

  /** What find(tag) shows: the data of the first entry. */
  function Shown(es: seq<Entry>, tag: nat): Option<seq<Byte>> {
    var i := FirstOf(es, tag);
    if i < |es| then Some(es[i].data) else None
  }

  lemma FirstIs(es: seq<Entry>, tag: nat, i: nat)
    requires i < |es| && es[i].tag == tag && forall j :: 0 <= j < i ==> es[j].tag != tag
    ensures FirstOf(es, tag) == i
  {
  }

  lemma FirstIsNone(es: seq<Entry>, tag: nat)
    requires forall j :: 0 <= j < |es| ==> es[j].tag != tag
    ensures FirstOf(es, tag) == |es|
  {
  }

  lemma UpdateCounts(es: seq<Entry>, tag: nat, data: seq<Byte>, other: nat)
    ensures Occurrences(ListUpdate(es, tag, data), other)
         == if other == tag && Occurrences(es, tag) == 0 then 1 else Occurrences(es, other)
  {
    var es' := ListUpdate(es, tag, data);
    var i := FirstOf(es, tag);
    FoundIffOccurs(es, tag);
    if i < |es| {
      OccurrencesAt(es, i, other);
      OccurrencesAt(es', i, other);
      assert RemoveAt(es', i) == RemoveAt(es, i);
    } else {
      OccurrencesAppend(es, [Entry(tag, data)], other);
      assert [Entry(tag, data)][1..] == [];
    }
  }

  /** After an update, find shows the new data for its tag and what it showed before for every
      other; no tag becomes duplicated. */
  lemma UpdateIsSeen(es: seq<Entry>, tag: nat, data: seq<Byte>, other: nat)
    ensures Shown(ListUpdate(es, tag, data), tag) == Some(data)
    ensures other != tag ==> Shown(ListUpdate(es, tag, data), other) == Shown(es, other)
    ensures Occurrences(ListUpdate(es, tag, data), other)
         == if other == tag && Occurrences(es, tag) == 0 then 1 else Occurrences(es, other)
  {
    hide FirstOf, Occurrences;
    UpdateCounts(es, tag, data, other);
    var es' := ListUpdate(es, tag, data);
    var i, k := FirstOf(es, tag), FirstOf(es, other);
    FirstIs(es', tag, i);
    if other != tag {
      if k < |es| {
        FirstIs(es', other, k);
      } else {
        FirstIsNone(es', other);
      }
    }
  }

  lemma EraseRemovesOne(es: seq<Entry>, tag: nat)
    ensures Occurrences(ListErase(es, tag), tag) == if Occurrences(es, tag) == 0 then 0 else Occurrences(es, tag) - 1
  {
    FoundIffOccurs(es, tag);
    if FirstOf(es, tag) < |es| {
      OccurrencesAt(es, FirstOf(es, tag), tag);
    }
  }

  lemma EraseKeepsOthers(es: seq<Entry>, tag: nat, other: nat)
    requires other != tag
    ensures Shown(ListErase(es, tag), other) == Shown(es, other)
  {
    hide FirstOf;
    var es' := ListErase(es, tag);
    var i, k := FirstOf(es, tag), FirstOf(es, other);
    if i < |es| {
      if k < |es| {
        FirstIs(es', other, if k < i then k else k - 1);
      } else {
        FirstIsNone(es', other);
      }
    }
  }

  /** After erase the tag is gone exactly when it occurred at most once: erase removes one entry,
      and append can put a tag in twice.  Every other tag shows what it showed before. */
  lemma EraseIsSeen(es: seq<Entry>, tag: nat, other: nat)
    ensures Shown(ListErase(es, tag), tag).None? <==> Occurrences(es, tag) <= 1
    ensures other != tag ==> Shown(ListErase(es, tag), other) == Shown(es, other)
  {
    hide ListErase, Occurrences, FirstOf;
    EraseRemovesOne(es, tag);
    FoundIffOccurs(ListErase(es, tag), tag);
    if other != tag {
      EraseKeepsOthers(es, tag, other);
    }
  }

  /** Append lets what was there win. */
  lemma AppendIsSeen(es: seq<Entry>, more: seq<Entry>, tag: nat)
    ensures Shown(es + more, tag) == if Shown(es, tag).Some? then Shown(es, tag) else Shown(more, tag)
  {
    var i, k := FirstOf(es, tag), FirstOf(more, tag);
    if i < |es| {
      FirstIs(es + more, tag, i);
    } else if k < |more| {
      FirstIs(es + more, tag, |es| + k);
    } else {
      FirstIsNone(es + more, tag);
    }
  }

  // ---------------------------------------------------------------- growth over whole runs

  /** AppendSelf appends an object to itself, which the interface allows. */
  datatype Op = Update(tag: nat, data: seq<Byte>) | Append(entries: seq<Entry>) | AppendSelf | Erase(tag: nat)

  function Apply(b: Option<Meta>, op: Op): Option<Meta> {
    match op
    case Update(tag, data) => Updated(b, tag, data).0
    case Append(es) => Appended(b, es).0
    case AppendSelf => Appended(b, Entries(b)).0
    case Erase(tag) => Erased(b, tag).0
  }

  function ListApply(es: seq<Entry>, op: Op): seq<Entry> {
    match op
    case Update(tag, data) => ListUpdate(es, tag, data)
    case Append(more) => es + more
    case AppendSelf => es + es
    case Erase(tag) => ListErase(es, tag)
  }

  /** An object is appended to itself after resizeIfNeeded has run: when the buffer has to grow, the
      one that is to be appended has been freed by then. */
  predicate AppendsFreed(m: Meta) { MustGrow(m, |m.entries|, DataCount(m.entries)) }

  /** One operation with the outcome that reading freed memory is. */
  function Exec(b: Option<Meta>, op: Op): Result<Option<Meta>> {
    if op.AppendSelf? && b.None? then Err(LibraryError)
    else if op.AppendSelf? && AppendsFreed(b.value) then Err(UseAfterFree)
    else Ok(Apply(b, op))
  }

  function ExecRun(b: Option<Meta>, ops: seq<Op>): Result<Option<Meta>>
    decreases |ops|
  {
    if ops == [] then Ok(b)
    else
      var b' :- Exec(b, ops[0]);
      ExecRun(b', ops[1..])
  }

  /** Appending an object to itself doubles its entries exactly when there is room for them as it is. */
  lemma SelfAppendIsSafeIffRoom(m: Meta)
    requires Fits(Some(m))
    ensures Exec(Some(m), AppendSelf).Ok? <==>
      2 * |m.entries| <= m.entryCap && 2 * DataCount(m.entries) <= m.dataCap
    ensures Exec(Some(m), AppendSelf).Ok? ==> Exec(Some(m), AppendSelf).value == Some(m.(entries := m.entries + m.entries))
    ensures Exec(Some(m), AppendSelf).Err? ==> Exec(Some(m), AppendSelf) == Err(UseAfterFree)
  {
    DataCountAppends(m.entries, m.entries);
  }

  /** It fails for every full buffer that is not empty, such as one just read from a parcel. */
  lemma FullBufferAppendsFreed(es: seq<Entry>, dataCap: nat)
    requires es != []
    ensures Exec(Some(Meta(es, |es|, dataCap)), AppendSelf) == Err(UseAfterFree)
  {
  }

  function Run(b: Option<Meta>, ops: seq<Op>): Option<Meta>
    decreases |ops|
  {
    if ops == [] then b else Run(Apply(b, ops[0]), ops[1..])
  }

  function ListRun(es: seq<Entry>, ops: seq<Op>): seq<Entry>
    decreases |ops|
  {
    if ops == [] then es else ListRun(ListApply(es, ops[0]), ops[1..])
  }

  /** The room an operation asks for: extra entries and extra data. */
  function Extra(b: Option<Meta>, op: Op): (nat, nat) {
    match op
    case Update(_, data) => (1, DataSize(|data|))
    case Append(es) => (|es|, DataCount(es))
    case AppendSelf => (|Entries(b)|, DataCount(Entries(b)))
    case Erase(_) => (0, 0)
  }

  /** Entries and data there would be if nothing were replaced. */
  function EntryDemand(b: Option<Meta>, op: Op): nat { |Entries(b)| + Extra(b, op).0 }
  function DataDemand(b: Option<Meta>, op: Op): nat { DataCount(Entries(b)) + Extra(b, op).1 }

  function Larger(a: nat, b: nat): nat { if a >= b then a else b }

  function PeakEntries(b: Option<Meta>, ops: seq<Op>): nat
    decreases |ops|
  {
    if ops == [] then 0 else Larger(EntryDemand(b, ops[0]), PeakEntries(Apply(b, ops[0]), ops[1..]))
  }

  function PeakData(b: Option<Meta>, ops: seq<Op>): nat
    decreases |ops|
  {
    if ops == [] then 0 else Larger(DataDemand(b, ops[0]), PeakData(Apply(b, ops[0]), ops[1..]))
  }

  /** Whether the operation moves an existing buffer to a larger one. */
  predicate Reallocates(b: Option<Meta>, op: Op) {
    b.Some? && !op.Erase? && MustGrow(b.value, Extra(b, op).0, Extra(b, op).1)
  }

  function Reallocations(b: Option<Meta>, ops: seq<Op>): nat
    decreases |ops|
  {
    if ops == [] then 0
    else
      (if Reallocates(b, ops[0]) then 1 else 0) + Reallocations(Apply(b, ops[0]), ops[1..])
  }

  function EntryCap(b: Option<Meta>): nat { if b.None? then 0 else b.value.entryCap }
  function DataCap(b: Option<Meta>): nat { if b.None? then 0 else b.value.dataCap }

  function Volume(b: Option<Meta>): nat { (EntryCap(b) + 1) * (DataCap(b) + 1) }

  lemma ProductGrows(a: nat, b: nat, c: nat, d: nat)
    requires a <= c && b <= d
    ensures a * b <= c * d
    ensures 2 * a <= c || 2 * b <= d ==> 2 * (a * b) <= c * d
  {
    TimesLe(b, a, c);
    TimesLe(c, b, d);
    if 2 * a <= c {
      TimesLe(b, 2 * a, c);
      assert b * (2 * a) == 2 * (a * b);
    } else if 2 * b <= d {
      TimesLe(a, 2 * b, d);
      TimesLe(d, a, c);
      assert a * (2 * b) == 2 * (a * b);
    }
  }

  /** One operation: the entries are those of the capacity-free list, and the capacities either
      stay or become twice the demand. */
  lemma ApplyStep(b: Option<Meta>, op: Op)
    requires Fits(b)
    ensures var b' := Apply(b, op);
      && Fits(b') && Entries(b') == ListApply(Entries(b), op)
      && EntryCap(b') >= EntryCap(b) && DataCap(b') >= DataCap(b)
      && (EntryCap(b') == EntryCap(b) || EntryCap(b') == 2 * EntryDemand(b, op))
      && (DataCap(b') == DataCap(b) || DataCap(b') == 2 * DataDemand(b, op))
      && (Reallocates(b, op) ==> EntryCap(b') >= 2 * EntryCap(b) + 2 || DataCap(b') >= 2 * DataCap(b) + 2)
  {
    hide FirstOf, DataSize, Store;
    match op
    case Update(tag, data) => UpdateSucceeds(b, tag, data);
    case Append(es) => AppendSucceeds(b, es);
    case AppendSelf => AppendSucceeds(b, Entries(b));
    case Erase(tag) => EraseSucceeds(b, tag);
  }

  /** Over any run, reallocation is invisible: the entries are those of the run on plain lists, unless
      the run appends an object to itself without having room for it. */
  lemma {:induction false} RunKeepsEntries(b: Option<Meta>, ops: seq<Op>)
    requires Fits(b)
    ensures var r := ExecRun(b, ops);
      r.Ok? ==> r.value == Run(b, ops) && Fits(r.value) && Entries(r.value) == ListRun(Entries(b), ops)
    ensures (forall i :: 0 <= i < |ops| ==> !ops[i].AppendSelf?) ==> ExecRun(b, ops).Ok?
    decreases |ops|
  {
    hide Apply, ListApply;
    if ops != [] {
      ApplyStep(b, ops[0]);
      RunKeepsEntries(Apply(b, ops[0]), ops[1..]);
    }
  }

  lemma VolumeGrows(b: Option<Meta>, op: Op)
    requires Fits(b)
    ensures Volume(Apply(b, op)) >= Volume(b) >= 1
    ensures Reallocates(b, op) ==> Volume(Apply(b, op)) >= 2 * Volume(b)
  {
    hide Apply, Reallocates, ListApply, EntryDemand, DataDemand, Fits, EntryCap, DataCap;
    ApplyStep(b, op);
    VolumeOf(EntryCap(b), DataCap(b), EntryCap(Apply(b, op)), DataCap(Apply(b, op)));
  }

  lemma VolumeOf(c: nat, d: nat, c': nat, d': nat)
    requires c <= c' && d <= d'
    ensures (c' + 1) * (d' + 1) >= (c + 1) * (d + 1) >= 1
    ensures c' >= 2 * c + 2 || d' >= 2 * d + 2 ==> (c' + 1) * (d' + 1) >= 2 * ((c + 1) * (d + 1))
  {
    ProductGrows(1, 1, c + 1, d + 1);
    ProductGrows(c + 1, d + 1, c' + 1, d' + 1);
  }

  lemma PowerTimes(k: nat, v: nat, w: nat)
    ensures w >= v ==> Pow2(k) * w >= Pow2(k) * v
    ensures w >= 2 * v ==> Pow2(k) * w >= Pow2(k + 1) * v
    ensures v >= 1 ==> Pow2(k) * v >= Pow2(k)
  {
    var p := Pow2(k);
    if w >= v { TimesLe(p, v, w); }
    if v >= 1 { TimesLe(p, 1, v); }
    if w >= 2 * v {
      TimesLe(p, 2 * v, w);
      assert p * (2 * v) == (2 * p) * v;
    }
  }

  /** After k growth reallocations (entryCap+1)*(dataCap+1) has grown by a factor of at least 2^k. */
  lemma {:induction false} GrowthIsExponential(b: Option<Meta>, ops: seq<Op>)
    requires Fits(b)
    ensures Volume(Run(b, ops)) >= Pow2(Reallocations(b, ops)) * Volume(b) >= Pow2(Reallocations(b, ops))
    decreases |ops|
  {
    hide Volume, Reallocates, Apply;
    if ops == [] {
      VolumeGrows(b, Erase(0));
    } else {
      var b' := Apply(b, ops[0]);
      ApplyStep(b, ops[0]);
      VolumeGrows(b, ops[0]);
      GrowthIsExponential(b', ops[1..]);
      PowerTimes(Reallocations(b', ops[1..]), Volume(b), Volume(b'));
      PowerTimes(Reallocations(b, ops), Volume(b), Volume(b));
    }
  }

  /** Each capacity stays within the larger of its starting value and twice its peak demand. */
  lemma {:induction false} CapacitiesStayBounded(b: Option<Meta>, ops: seq<Op>)
    requires Fits(b)
    ensures EntryCap(Run(b, ops)) <= Larger(EntryCap(b), 2 * PeakEntries(b, ops))
    ensures DataCap(Run(b, ops)) <= Larger(DataCap(b), 2 * PeakData(b, ops))
    decreases |ops|
  {
    if ops != [] {
      ApplyStep(b, ops[0]);
      CapacitiesStayBounded(Apply(b, ops[0]), ops[1..]);
    }
  }

  // ---------------------------------------------------------------- the classes

  /** camera_metadata_t. */
  class Buffer {
    const entryCap: nat
    const dataCap: nat
    var entries: seq<Entry>
    var freed: bool

    function Abs(): Meta
      reads this
    {
      Meta(entries, entryCap, dataCap)
    }

    /** allocate_camera_metadata. */
    constructor (entryCapacity: nat, dataCapacity: nat)
      ensures Abs() == Meta([], entryCapacity, dataCapacity) && !freed
    {
      entryCap, dataCap, entries, freed := entryCapacity, dataCapacity, [], false;
    }

    /** free_camera_metadata. */
    method Free()
      requires !freed
      modifies this`freed
      ensures freed
    {
      freed := true;
    }

    /** Adding, appending and updating an entry; nothing is written when a capacity does not suffice. */
    method Put(es: seq<Entry>) returns (r: Result<()>)
      requires !freed
      modifies this`entries
      ensures Store(old(Abs()), es).Ok? ==> r.Ok? && Abs() == Store(old(Abs()), es).value
      ensures Store(old(Abs()), es).Err? ==> r == Err(LibraryError) && Abs() == old(Abs())
    {
      if |es| > entryCap || DataCount(es) > dataCap { return Err(LibraryError); }
      entries := es;
      r := Ok(());
    }
  }

  class CameraMetadata {
    var mBuffer: Buffer?
    var mLocked: bool
    const tagTypes: map<nat, nat>    // get_local_camera_metadata_tag_type

    function Abs(): Option<Meta>
      reads this, mBuffer
    {
      if mBuffer == null then None else Some(mBuffer.Abs())
    }

    /** The buffer is in use, and its contents are within its capacities. */
    ghost predicate Valid()
      reads this, mBuffer
    {
      (mBuffer != null ==> !mBuffer.freed) && Fits(Abs())
    }

    constructor (types: map<nat, nat>)
      ensures mBuffer == null && !mLocked && tagTypes == types
    {
      mBuffer, mLocked, tagTypes := null, false, types;
    }

    method GetAndLock() returns (buffer: Buffer?)
      modifies this`mLocked
      ensures mLocked && buffer == mBuffer
    {
      mLocked := true;
      buffer := mBuffer;
    }

    method Unlock(buffer: Buffer?) returns (r: Result<()>)
      modifies this`mLocked
      ensures r.Ok? <==> old(mLocked) && buffer == mBuffer
      ensures mLocked == (old(mLocked) && r.Err?)
      ensures r.Err? ==> r.status == if old(mLocked) then BadValue else InvalidOperation
    {
      if !mLocked { return Err(InvalidOperation); }
      if buffer != mBuffer { return Err(BadValue); }
      mLocked := false;
      r := Ok(());
    }

    /** resizeIfNeeded, when the allocation succeeds. */
    method ResizeIfNeeded(extraEntries: nat, extraData: nat)
      requires Valid()
      modifies this`mBuffer, mBuffer
      ensures old(mBuffer) != null ==> old(mBuffer).entries == old(mBuffer.entries)
      ensures Valid() && Abs() == Some(Resized(old(Abs()), extraEntries, extraData))
      ensures mBuffer == old(mBuffer) <==> old(mBuffer) != null && !MustGrow(old(Abs()).value, extraEntries, extraData)
      ensures mBuffer != old(mBuffer) ==> fresh(mBuffer) && (old(mBuffer) != null ==> old(mBuffer).freed)
    {
      ResizedHasRoom(Abs(), extraEntries, extraData);
      if mBuffer == null {
        mBuffer := new Buffer(extraEntries * 2, extraData * 2);
      } else {
        var currentEntryCap := mBuffer.entryCap;
        var newEntryCount := |mBuffer.entries| + extraEntries;
        newEntryCount := if newEntryCount > currentEntryCap then newEntryCount * 2 else currentEntryCap;
        var currentDataCap := mBuffer.dataCap;
        var newDataCount := DataCount(mBuffer.entries) + extraData;
        newDataCount := if newDataCount > currentDataCap then newDataCount * 2 else currentDataCap;
        if newEntryCount > currentEntryCap || newDataCount > currentDataCap {
          var oldBuffer := mBuffer;
          mBuffer := new Buffer(newEntryCount, newDataCount);
          var copied := mBuffer.Put(mBuffer.entries + oldBuffer.entries);
          assert [] + oldBuffer.entries == oldBuffer.entries;
          oldBuffer.Free();
        }
      }
    }

    /** The update overloads: `expected` is the type the overload stands for.  The buffer lies in memory
        at bufAddr with bufferSize bytes, and the data at dataAddr. */
    method Update(tag: nat, expected: nat, data: seq<Byte>, bufAddr: nat, bufferSize: nat, dataAddr: nat)
      returns (r: Result<()>)
      requires Valid()
      modifies this`mBuffer, mBuffer
      ensures Valid()
      ensures r.Ok? <==>
        !mLocked && tag in tagTypes && tagTypes[tag] == expected && !(bufAddr < dataAddr < bufAddr + bufferSize)
      ensures r.Ok? ==> Abs() == Updated(old(Abs()), tag, data).0
      ensures r.Ok? ==> Entries(Abs()) == ListUpdate(Entries(old(Abs())), tag, data)
      ensures r.Err? ==> r.status == InvalidOperation && mBuffer == old(mBuffer) && Abs() == old(Abs())
    {
      if mLocked { return Err(InvalidOperation); }
      if tag !in tagTypes || tagTypes[tag] != expected { return Err(InvalidOperation); }
      if dataAddr > bufAddr && dataAddr < bufAddr + bufferSize { return Err(InvalidOperation); }
      UpdateSucceeds(Abs(), tag, data);
      ResizeIfNeeded(1, DataSize(|data|));
      var found := FirstOf(mBuffer.entries, tag);
      if found == |mBuffer.entries| {
        r := mBuffer.Put(mBuffer.entries + [Entry(tag, data)]);
      } else {
        r := mBuffer.Put(mBuffer.entries[found := Entry(tag, data)]);
      }
    }

    /** append; `other` may be the object's own buffer. */
    method Append(other: Buffer) returns (r: Result<()>)
      requires Valid() && !other.freed
      modifies this`mBuffer, mBuffer
      ensures Valid()
      ensures mLocked ==> r == Err(InvalidOperation) && mBuffer == old(mBuffer) && Abs() == old(Abs())
      ensures !mLocked && !(other == old(mBuffer) && AppendsFreed(old(other.Abs()))) ==>
        r.Ok? && Abs() == Appended(old(Abs()), old(other.entries)).0
        && Entries(Abs()) == Entries(old(Abs())) + old(other.entries)
      ensures !mLocked && other == old(mBuffer) && AppendsFreed(old(other.Abs())) ==> r == Err(UseAfterFree)
    {
      if mLocked { return Err(InvalidOperation); }
      AppendSucceeds(Abs(), other.entries);
      var extraEntries, extraData := |other.entries|, DataCount(other.entries);
      ResizeIfNeeded(extraEntries, extraData);
      if other.freed { return Err(UseAfterFree); }
      r := mBuffer.Put(mBuffer.entries + other.entries);
    }

    method Erase(tag: nat) returns (r: Result<()>)
      requires Valid()
      modifies mBuffer
      ensures Valid()
      ensures mLocked ==> r == Err(InvalidOperation) && Abs() == old(Abs())
      ensures !mLocked ==> (Abs(), r) == Erased(old(Abs()), tag)
    {
      if mLocked { return Err(InvalidOperation); }
      EraseSucceeds(Abs(), tag);
      if mBuffer == null { return Err(LibraryError); }
      var found := FirstOf(mBuffer.entries, tag);
      if found == |mBuffer.entries| { return Ok(()); }
      mBuffer.entries := RemoveAt(mBuffer.entries, found);
      r := Ok(());
    }

    method Exists(tag: nat) returns (found: bool)
      ensures found <==> Shown(Entries(Abs()), tag).Some?
    {
      found := mBuffer != null && FirstOf(mBuffer.entries, tag) < |mBuffer.entries|;
    }
  }
}
