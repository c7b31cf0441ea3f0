/** The native handles of recording frames on their way from the camera service to the app or a
    recorder and back: camera/Camera.cpp and the ICamera* proxies and stubs.

    Every hop reads a duplicate of the handle, and the proxy that passes a frame on closes the
    duplicate it was given once its transaction is done.  `World` holds the handles and parcels of
    all processes; its steps are the deliveries of parcels, the proxies' close loops and what the
    service, the app and the recorder may do in between, in any interleaving. */
module RecordingHandles {
  import opened Parcels

  // ---------------------------------------------------------------- parcels of frames

  function I64s(ts: seq<Int64>): seq<Item> { seq(|ts|, i requires 0 <= i < |ts| => I64(ts[i])) }

  function Handles(fs: seq<nat>): seq<Item> { seq(|fs|, i requires 0 <= i < |fs| => Handle(fs[i])) }

  /** RECORDING_FRAME_HANDLE_CALLBACK_TIMESTAMP and its batch form. */
  function EncodeFrames(batch: bool, ts: seq<Int64>, fs: seq<nat>): seq<Item> {
    (if batch then [I32(ToInt32(|ts|))] else []) + I64s(ts) + Handles(fs)
  }

  /** RELEASE_RECORDING_FRAME_HANDLE and its batch form. */
  function EncodeRelease(batch: bool, fs: seq<nat>): seq<Item> {
    (if batch then [I32(ToInt32(|fs|))] else []) + Handles(fs)
  }

  function ReadI64s(items: seq<Item>, n: nat): Read<seq<Int64>> {
    if n == 0 then Ok(([], items))
    else
      var (t, rest) :- ReadI64(items);
      var (ts, rest') :- ReadI64s(rest, n - 1);
      Ok(([t] + ts, rest'))
  }

  function ReadHandles(items: seq<Item>, n: nat): Read<seq<nat>> {
    if n == 0 then Ok(([], items))
    else
      var (f, rest) :- ReadHandle(items);
      var (fs, rest') :- ReadHandles(rest, n - 1);
      Ok(([f] + fs, rest'))
  }

  lemma {:induction false} ReadI64sBack(ts: seq<Int64>, rest: seq<Item>)
    ensures ReadI64s(I64s(ts) + rest, |ts|) == Ok((ts, rest))
    decreases |ts|
  {
    if ts != [] {
      assert (I64s(ts) + rest)[1..] == I64s(ts[1..]) + rest;
      ReadI64sBack(ts[1..], rest);
      assert [ts[0]] + ts[1..] == ts;
    } else {
      assert I64s(ts) + rest == rest;
    }
  }

  lemma {:induction false} ReadHandlesBack(fs: seq<nat>, rest: seq<Item>)
    ensures ReadHandles(Handles(fs) + rest, |fs|) == Ok((fs, rest))
    decreases |fs|
  {
    if fs != [] {
      assert (Handles(fs) + rest)[1..] == Handles(fs[1..]) + rest;
      ReadHandlesBack(fs[1..], rest);
      assert [fs[0]] + fs[1..] == fs;
    } else {
      assert Handles(fs) + rest == rest;
    }
  }

  lemma CountSurvives(n: nat)
    requires n < TWO32
    ensures ToUInt32(ToInt32(n)) == n
  {
  }

  /** What a stub's loops read is what the proxy's loops wrote, in the single and in the batch form. */
  lemma FramesAreRead(batch: bool, ts: seq<Int64>, fs: seq<nat>)
    requires |ts| == |fs| < TWO32 && (batch || |fs| == 1)
    ensures var items := EncodeFrames(batch, ts, fs);
      && (batch ==> ReadU32(items).Ok? && ReadU32(items).value.0 == |fs|)
      && var rest := if batch then ReadU32(items).value.1 else items;
         ReadI64s(rest, |fs|) == Ok((ts, Handles(fs))) && ReadHandles(Handles(fs), |fs|) == Ok((fs, []))
  {
    var items := EncodeFrames(batch, ts, fs);
    CountSurvives(|ts|);
    assert (if batch then items[1..] else items) == I64s(ts) + Handles(fs);
    ReadI64sBack(ts, Handles(fs));
    assert Handles(fs) + [] == Handles(fs);
    ReadHandlesBack(fs, []);
  }

  lemma ReleaseIsRead(batch: bool, fs: seq<nat>)
    requires |fs| < TWO32 && (batch || |fs| == 1)
    ensures var items := EncodeRelease(batch, fs);
      && (batch ==> ReadU32(items).Ok? && ReadU32(items).value.0 == |fs|)
      && ReadHandles(if batch then ReadU32(items).value.1 else items, |fs|) == Ok((fs, []))
  {
    var items := EncodeRelease(batch, fs);
    CountSurvives(|fs|);
    assert (if batch then items[1..] else items) == Handles(fs) + [];
    ReadHandlesBack(fs, []);
  }

  // ---------------------------------------------------------------- the world

  datatype Kind = FrameToApp | FrameToRecorder | ReleaseToApp | ReleaseToService

  /** A parcel in flight, as the stub will read it. */
  datatype Packet = Packet(tx: nat, kind: Kind, batch: bool, ts: seq<Int64>, fs: seq<nat>)

  /** A proxy's close loop that is still to run: over `handles`, once transaction `after` has
      returned (at once for a one-way call); running it lets transaction `completes` return. */
  datatype Closing = Closing(handles: seq<nat>, after: Option<nat>, completes: Option<nat>)

  datatype World = World(
    nextHandle: nat,                 // the identity of the next duplicate
    nextTx: nat,
    inflight: seq<Packet>,
    closing: seq<Closing>,
    done: set<nat>,                  // synchronous transactions that have returned
    appHeld: map<nat, nat>,          // the app listener's handles, with their frames
    recorderHeld: map<nat, nat>,     // the recorder's handles
    returned: map<nat, nat>,         // handles the service has been given back
    closes: seq<nat>,                // history: native_handle_close calls
    sent: seq<nat>,                  // history: frames sent by the service
    listener: bool,                  // Camera::mListener is set
    proxyListener: bool)             // Camera::mRecordingProxyListener is set

  function Ids(next: nat, n: nat): seq<nat> { seq(n, i => next + i) }

  /** The duplicates a stub's loop over readNativeHandle creates for frames fs. */
  function Dups(next: nat, fs: seq<nat>): map<nat, nat> {
    if fs == [] then map[]
    else Dups(next, fs[..|fs| - 1])[next + |fs| - 1 := fs[|fs| - 1]]
  }

  /** The frame forwarded by BpCameraRecordingProxyListener; mismatched vectors are refused. */
  function ForwardFrames(w: World, batch: bool, ts: seq<Int64>, hs: seq<nat>, fs: seq<nat>): World {
    if ToUInt32(|ts|) != |hs| then w
    else
      w.(nextTx := w.nextTx + 1,
         inflight := w.inflight + [Packet(w.nextTx, FrameToRecorder, batch, ts, fs)],
         closing := w.closing + [Closing(hs, None, None)])
  }

  /** The release call of BpCamera and BpCameraRecordingProxy. */
  function Release(w: World, kind: Kind, batch: bool, hs: seq<nat>, fs: seq<nat>, completes: Option<nat>): World {
    w.(nextTx := w.nextTx + 1,
       inflight := w.inflight + [Packet(w.nextTx, kind, batch, [], fs)],
       closing := w.closing + [Closing(hs, Some(w.nextTx), completes)])
  }

  function Without<T>(s: seq<T>, k: nat): seq<T>
    requires k < |s|
  {
    s[..k] + s[k + 1..]
  }

  /** Camera::recordingFrameHandleCallbackTimestamp(Batch): a registered proxy listener comes first, ... */
  predicate Forwards(w: World, kind: Kind) { kind.FrameToApp? && w.proxyListener }

  /** ... without any listener the frame goes straight back, as every release does. */
  predicate GoesBack(w: World, kind: Kind) {
    kind.ReleaseToApp? || (kind.FrameToApp? && !w.proxyListener && !w.listener)
  }

  /** The frames reach the app's listener, the recorder or the service. */
  function Hold(w: World, kind: Kind, tx: nat, dups: map<nat, nat>): World {
    match kind
    case FrameToApp => w.(appHeld := w.appHeld + dups)
    case FrameToRecorder => w.(recorderHeld := w.recorderHeld + dups)
    case _ => w.(returned := w.returned + dups, done := w.done + {tx})
  }

  /** What a stub does with the frames it has read, up to the proxies it calls. */
  function Deliver(w: World, kind: Kind, tx: nat, batch: bool, ts: seq<Int64>, fs: seq<nat>): World {
    var hs := Ids(w.nextHandle, |fs|);
    var w' := w.(nextHandle := w.nextHandle + |fs|);
    if Forwards(w, kind) then ForwardFrames(w', batch, ts, hs, fs)
    else if GoesBack(w, kind) then
      Release(w', ReleaseToService, batch, hs, fs, if kind.ReleaseToApp? then Some(tx) else None)
    else Hold(w', kind, tx, Dups(w.nextHandle, fs))
  }

  datatype Event =
    | Send(batch: bool, ts: seq<Int64>, fs: seq<nat>)     // the service sends frames
    | Receive(k: nat)                                     // the k-th parcel is delivered
    | Close(k: nat)                                       // the k-th close loop runs
    | AppRelease(batch: bool, hs: seq<nat>)
    | RecorderRelease(batch: bool, hs: seq<nat>)
    | SetListener(set_: bool)
    | StartRecording
    | StopRecording

  predicate DistinctIn(hs: seq<nat>, m: map<nat, nat>) {
    && (forall h :: h in hs ==> h in m)
    && (forall i, j :: 0 <= i < j < |hs| ==> hs[i] != hs[j])
  }

  /** A holder releases handles it holds, each once; a batch is counted in 32 bits. */
  predicate CanRelease(batch: bool, hs: seq<nat>, m: map<nat, nat>) {
    DistinctIn(hs, m) && |hs| < TWO32 && (batch || |hs| == 1)
  }

  predicate CanClose(w: World, c: Closing) { c.after.Some? ==> c.after.value in w.done }

  predicate Enabled(w: World, e: Event) {
    match e
    case Send(batch, ts, fs) => |ts| < TWO32 && (batch || (|ts| == 1 && |fs| == 1))
    case Receive(k) => k < |w.inflight|
    case Close(k) => k < |w.closing| && CanClose(w, w.closing[k])
    case AppRelease(batch, hs) => CanRelease(batch, hs, w.appHeld)
    case RecorderRelease(batch, hs) => CanRelease(batch, hs, w.recorderHeld)
    case SetListener(_) => true
    case StartRecording => true
    case StopRecording => true
  }

  function Lookup(m: map<nat, nat>, hs: seq<nat>): seq<nat>
    requires forall h :: h in hs ==> h in m
  {
    seq(|hs|, i requires 0 <= i < |hs| => m[hs[i]])
  }

  /** m without the handles hs. */
  function Drop(m: map<nat, nat>, hs: seq<nat>): map<nat, nat> {
    if hs == [] then m else Drop(m, hs[..|hs| - 1]) - {hs[|hs| - 1]}
  }

  function Step(w: World, e: Event): World
    requires Enabled(w, e)
  {
    match e
    case Send(batch, ts, fs) =>
      if ToUInt32(|ts|) != |fs| then w
      else w.(nextTx := w.nextTx + 1,
              inflight := w.inflight + [Packet(w.nextTx, FrameToApp, batch, ts, fs)],
              sent := w.sent + fs)
    case Receive(k) =>
      var p := w.inflight[k];
      Deliver(w.(inflight := Without(w.inflight, k)), p.kind, p.tx, p.batch, p.ts, p.fs)
    case Close(k) =>
      var c := w.closing[k];
      w.(closing := Without(w.closing, k), closes := w.closes + c.handles,
         done := if c.completes.Some? then w.done + {c.completes.value} else w.done)
    case AppRelease(batch, hs) =>
      Release(w.(appHeld := Drop(w.appHeld, hs)), ReleaseToService, batch, hs, Lookup(w.appHeld, hs), None)
    case RecorderRelease(batch, hs) =>
      Release(w.(recorderHeld := Drop(w.recorderHeld, hs)), ReleaseToApp, batch, hs,
              Lookup(w.recorderHeld, hs), None)
    case SetListener(set_) => w.(listener := set_)
    case StartRecording => w.(proxyListener := true)
    case StopRecording => w.(proxyListener := false)
  }

  // ---------------------------------------------------------------- counting

  function One(b: bool): nat { if b then 1 else 0 }

  /** How often x occurs in s. */
  function Count(s: seq<nat>, x: nat): nat {
    if s == [] then 0 else Count(s[..|s| - 1], x) + One(s[|s| - 1] == x)
  }

  lemma {:induction false} CountConcat(s: seq<nat>, t: seq<nat>, x: nat)
    ensures Count(s + t, x) == Count(s, x) + Count(t, x)
    decreases |t|
  {
    if t == [] {
      assert s + t == s;
    } else {
      CountConcat(s, t[..|t| - 1], x);
      assert (s + t)[..|s + t| - 1] == s + t[..|t| - 1];
    }
  }

  lemma {:induction false} CountIds(next: nat, n: nat, h: nat)
    ensures Count(Ids(next, n), h) == One(next <= h < next + n)
  {
    if n > 0 {
      CountIds(next, n - 1, h);
      assert Ids(next, n)[..n - 1] == Ids(next, n - 1);
    }
  }

  lemma {:induction false} CountDistinct(hs: seq<nat>, m: map<nat, nat>, h: nat)
    requires DistinctIn(hs, m)
    ensures Count(hs, h) == One(h in hs)
    decreases |hs|
  {
    if hs != [] {
      CountDistinct(hs[..|hs| - 1], m, h);
      assert hs == hs[..|hs| - 1] + [hs[|hs| - 1]];
    }
  }

  /** How many handles in m have frame f. */
  ghost function HeldCount(m: map<nat, nat>, f: nat): nat
    decreases |m|
  {
    if m == map[] then 0
    else
      var h :| h in m;
      HeldCount(m - {h}, f) + One(m[h] == f)
  }

  lemma {:induction false} HeldRemove(m: map<nat, nat>, h: nat, f: nat)
    requires h in m
    ensures HeldCount(m, f) == HeldCount(m - {h}, f) + One(m[h] == f)
    decreases |m|
  {
    var g :| g in m && HeldCount(m, f) == HeldCount(m - {g}, f) + One(m[g] == f);
    if g != h {
      HeldRemove(m - {g}, h, f);
      assert m - {g} - {h} == m - {h} - {g};
      HeldRemove(m - {h}, g, f);
    }
  }

  lemma HeldAdd(m: map<nat, nat>, h: nat, f: nat, g: nat)
    requires h !in m
    ensures HeldCount(m[h := f], g) == HeldCount(m, g) + One(f == g)
  {
    HeldRemove(m[h := f], h, g);
    assert m[h := f] - {h} == m;
  }

  lemma {:induction false} DupsKeys(next: nat, fs: seq<nat>)
    ensures forall h :: h in Dups(next, fs) <==> next <= h < next + |fs|
    decreases |fs|
  {
    if fs != [] {
      DupsKeys(next, fs[..|fs| - 1]);
    }
  }

  lemma {:induction false} HeldAddDups(m: map<nat, nat>, next: nat, fs: seq<nat>, g: nat)
    requires forall h :: h in m ==> h < next
    ensures HeldCount(m + Dups(next, fs), g) == HeldCount(m, g) + Count(fs, g)
    decreases |fs|
  {
    if fs == [] {
      assert m + Dups(next, fs) == m;
    } else {
      var last := |fs| - 1;
      HeldAddDups(m, next, fs[..last], g);
      DupsKeys(next, fs[..last]);
      HeldAdd(m + Dups(next, fs[..last]), next + last, fs[last], g);
      assert m + Dups(next, fs) == (m + Dups(next, fs[..last]))[next + last := fs[last]];
    }
  }

  lemma {:induction false} DropKeys(m: map<nat, nat>, hs: seq<nat>)
    ensures forall h :: h in Drop(m, hs) <==> h in m && h !in hs
    ensures forall h :: h in Drop(m, hs) ==> Drop(m, hs)[h] == m[h]
    decreases |hs|
  {
    if hs != [] {
      DropKeys(m, hs[..|hs| - 1]);
      assert hs == hs[..|hs| - 1] + [hs[|hs| - 1]];
    }
  }

  lemma {:induction false} HeldDrop(m: map<nat, nat>, hs: seq<nat>, g: nat)
    requires DistinctIn(hs, m)
    ensures HeldCount(m, g) == HeldCount(Drop(m, hs), g) + Count(Lookup(m, hs), g)
    decreases |hs|
  {
    if hs != [] {
      var most, h := hs[..|hs| - 1], hs[|hs| - 1];
      DropKeys(m, most);
      HeldDrop(m, most, g);
      assert h !in most && h in hs;
      HeldRemove(Drop(m, most), h, g);
      assert Lookup(m, hs)[..|hs| - 1] == Lookup(m, most);
    }
  }

  /** Adds up the numbers f(x) of the elements x. */
  function Sum<T>(f: T -> nat, s: seq<T>): nat {
    if s == [] then 0 else Sum(f, s[..|s| - 1]) + f(s[|s| - 1])
  }

  lemma SumAppend<T>(f: T -> nat, s: seq<T>, x: T)
    ensures Sum(f, s + [x]) == Sum(f, s) + f(x)
  {
    assert (s + [x])[..|s|] == s;
  }

  lemma {:induction false} SumWithout<T>(f: T -> nat, s: seq<T>, k: nat)
    requires k < |s|
    ensures Sum(f, s) == Sum(f, Without(s, k)) + f(s[k])
    decreases |s|
  {
    var last := |s| - 1;
    if k == last {
      assert Without(s, k) == s[..last];
    } else {
      SumWithout(f, s[..last], k);
      assert Without(s, k)[..last - 1] == Without(s[..last], k);
    }
  }

  function PacketCount(f: nat): Packet -> nat {
    (p: Packet) => Count(p.fs, f)
  }

  function ClosingCount(h: nat): Closing -> nat {
    (c: Closing) => Count(c.handles, h)
  }

  // ---------------------------------------------------------------- the invariant

  /** In how many places handle h is: with the app, the recorder or the service, waiting to be
      closed, or closed. */
  function Places(w: World, h: nat): nat {
    One(h in w.appHeld) + One(h in w.recorderHeld) + One(h in w.returned)
    + Sum(ClosingCount(h), w.closing) + Count(w.closes, h)
  }

  /** How many owners frame f has: parcels, the app's listener, the recorder, or the service that got it back. */
  ghost function Owners(w: World, f: nat): nat {
    Sum(PacketCount(f), w.inflight) + HeldCount(w.appHeld, f) + HeldCount(w.recorderHeld, f) + HeldCount(w.returned, f)
  }

  /** A close loop that waits will be woken: the call it waits for has returned, is in flight, or
      returns when a later close loop has run. */
  ghost predicate WillReturn(w: World, t: nat) {
    || t in w.done
    || (exists p :: p in w.inflight && p.tx == t && (p.kind.ReleaseToApp? || p.kind.ReleaseToService?))
    || (exists c :: c in w.closing && c.completes == Some(t))
  }

  /** Single parcels hold one frame; batches of frames have as many timestamps as handles. */
  ghost predicate WellShaped(kind: Kind, batch: bool, ts: seq<Int64>, fs: seq<nat>) {
    && |fs| < TWO32 && (batch || |fs| == 1)
    && |ts| == (if kind.FrameToApp? || kind.FrameToRecorder? then |fs| else 0)
  }

  /** The parts of the invariant that say which close loop waits for what. */
  ghost predicate Linked(w: World) {
    && (forall p :: p in w.inflight ==> WellShaped(p.kind, p.batch, p.ts, p.fs) && p.tx < w.nextTx)
    && (forall c :: c in w.closing && c.after.Some? ==> c.after.value < w.nextTx && WillReturn(w, c.after.value))
    && (forall c :: c in w.closing && c.completes.Some? ==> c.after.Some? && c.completes.value < c.after.value)
  }

  ghost predicate Inv(w: World) {
    && (forall h: nat :: Places(w, h) == One(h < w.nextHandle))
    && (forall f: nat :: Owners(w, f) == Count(w.sent, f))
    && Linked(w)
  }

  // ---------------------------------------------------------------- every step keeps it

  lemma ReleasePlaces(w: World, kind: Kind, batch: bool, hs: seq<nat>, fs: seq<nat>, completes: Option<nat>, h: nat)
    ensures Places(Release(w, kind, batch, hs, fs, completes), h) == Places(w, h) + Count(hs, h)
  {
    SumAppend(ClosingCount(h), w.closing, Closing(hs, Some(w.nextTx), completes));
  }

  lemma ReleaseOwners(w: World, kind: Kind, batch: bool, hs: seq<nat>, fs: seq<nat>, completes: Option<nat>, f: nat)
    ensures Owners(Release(w, kind, batch, hs, fs, completes), f) == Owners(w, f) + Count(fs, f)
  {
    SumAppend(PacketCount(f), w.inflight, Packet(w.nextTx, kind, batch, [], fs));
  }

  lemma ForwardPlaces(w: World, batch: bool, ts: seq<Int64>, hs: seq<nat>, fs: seq<nat>, h: nat)
    requires |ts| == |hs| < TWO32
    ensures Places(ForwardFrames(w, batch, ts, hs, fs), h) == Places(w, h) + Count(hs, h)
  {
    SumAppend(ClosingCount(h), w.closing, Closing(hs, None, None));
  }

  lemma ForwardOwners(w: World, batch: bool, ts: seq<Int64>, hs: seq<nat>, fs: seq<nat>, f: nat)
    requires |ts| == |hs| < TWO32
    ensures Owners(ForwardFrames(w, batch, ts, hs, fs), f) == Owners(w, f) + Count(fs, f)
  {
    SumAppend(PacketCount(f), w.inflight, Packet(w.nextTx, FrameToRecorder, batch, ts, fs));
  }

  /** Delivering puts every duplicate it creates in one place ... */
  lemma DeliverPlaces(w: World, kind: Kind, tx: nat, batch: bool, ts: seq<Int64>, fs: seq<nat>, h: nat)
    requires WellShaped(kind, batch, ts, fs)
    requires h in w.appHeld || h in w.recorderHeld || h in w.returned ==> h < w.nextHandle
    ensures Places(Deliver(w, kind, tx, batch, ts, fs), h)
         == Places(w, h) + One(w.nextHandle <= h < w.nextHandle + |fs|)
  {
    var hs := Ids(w.nextHandle, |fs|);
    var w0 := w.(nextHandle := w.nextHandle + |fs|);
    CountIds(w.nextHandle, |fs|, h);
    if Forwards(w, kind) {
      assert Deliver(w, kind, tx, batch, ts, fs) == ForwardFrames(w0, batch, ts, hs, fs);
      ForwardPlaces(w0, batch, ts, hs, fs, h);
    } else if GoesBack(w, kind) {
      var completes := if kind.ReleaseToApp? then Some(tx) else None;
      assert Deliver(w, kind, tx, batch, ts, fs) == Release(w0, ReleaseToService, batch, hs, fs, completes);
      ReleasePlaces(w0, ReleaseToService, batch, hs, fs, completes, h);
    } else {
      assert Deliver(w, kind, tx, batch, ts, fs) == Hold(w0, kind, tx, Dups(w.nextHandle, fs));
      HoldPlaces(w0, kind, tx, w.nextHandle, fs, h);
    }
  }

  lemma HoldPlaces(w: World, kind: Kind, tx: nat, next: nat, fs: seq<nat>, h: nat)
    requires h in w.appHeld || h in w.recorderHeld || h in w.returned ==> h < next
    ensures Places(Hold(w, kind, tx, Dups(next, fs)), h) == Places(w, h) + One(next <= h < next + |fs|)
  {
    DupsKeys(next, fs);
  }

  /** ... and gives every frame one owner, whichever way the camera routes it. */
  lemma DeliverOwners(w: World, kind: Kind, tx: nat, batch: bool, ts: seq<Int64>, fs: seq<nat>, f: nat)
    requires WellShaped(kind, batch, ts, fs)
    requires forall h :: h in w.appHeld || h in w.recorderHeld || h in w.returned ==> h < w.nextHandle
    ensures Owners(Deliver(w, kind, tx, batch, ts, fs), f) == Owners(w, f) + Count(fs, f)
  {
    var hs := Ids(w.nextHandle, |fs|);
    var w0 := w.(nextHandle := w.nextHandle + |fs|);
    if Forwards(w, kind) {
      assert Deliver(w, kind, tx, batch, ts, fs) == ForwardFrames(w0, batch, ts, hs, fs);
      ForwardOwners(w0, batch, ts, hs, fs, f);
    } else if GoesBack(w, kind) {
      var completes := if kind.ReleaseToApp? then Some(tx) else None;
      assert Deliver(w, kind, tx, batch, ts, fs) == Release(w0, ReleaseToService, batch, hs, fs, completes);
      ReleaseOwners(w0, ReleaseToService, batch, hs, fs, completes, f);
    } else {
      assert Deliver(w, kind, tx, batch, ts, fs) == Hold(w0, kind, tx, Dups(w.nextHandle, fs));
      HoldOwners(w0, kind, tx, w.nextHandle, fs, f);
    }
  }

  lemma HoldOwners(w: World, kind: Kind, tx: nat, next: nat, fs: seq<nat>, f: nat)
    requires forall h :: h in w.appHeld || h in w.recorderHeld || h in w.returned ==> h < next
    ensures Owners(Hold(w, kind, tx, Dups(next, fs)), f) == Owners(w, f) + Count(fs, f)
  {
    match kind
    case FrameToApp => HeldAddDups(w.appHeld, next, fs, f);
    case FrameToRecorder => HeldAddDups(w.recorderHeld, next, fs, f);
    case _ => HeldAddDups(w.returned, next, fs, f);
  }

  lemma DeliverKeeps(w: World, kind: Kind, tx: nat, batch: bool, ts: seq<Int64>, fs: seq<nat>)
    ensures var w' := Deliver(w, kind, tx, batch, ts, fs);
      w'.nextHandle == w.nextHandle + |fs| && w'.sent == w.sent
  {
  }

  lemma ReceivePlaces(w: World, k: nat, h: nat)
    requires Inv(w) && k < |w.inflight|
    ensures Places(Step(w, Receive(k)), h) == One(h < Step(w, Receive(k)).nextHandle)
  {
    var p := w.inflight[k];
    assert p in w.inflight;
    var w0 := w.(inflight := Without(w.inflight, k));
    assert Places(w, h) == One(h < w.nextHandle);
    assert Places(w0, h) == Places(w, h);
    DeliverPlaces(w0, p.kind, p.tx, p.batch, p.ts, p.fs, h);
    DeliverKeeps(w0, p.kind, p.tx, p.batch, p.ts, p.fs);
  }

  lemma ReceiveOwners(w: World, k: nat, f: nat)
    requires Inv(w) && k < |w.inflight|
    ensures Owners(Step(w, Receive(k)), f) == Count(Step(w, Receive(k)).sent, f)
  {
    var p := w.inflight[k];
    assert p in w.inflight;
    var w0 := w.(inflight := Without(w.inflight, k));
    forall h | h in w.appHeld || h in w.recorderHeld || h in w.returned
      ensures h < w.nextHandle
    {
      assert Places(w, h) >= 1;
    }
    SumWithout(PacketCount(f), w.inflight, k);
    DeliverOwners(w0, p.kind, p.tx, p.batch, p.ts, p.fs, f);
    DeliverKeeps(w0, p.kind, p.tx, p.batch, p.ts, p.fs);
  }

  lemma ClosePlaces(w: World, k: nat, h: nat)
    requires k < |w.closing| && CanClose(w, w.closing[k])
    ensures Places(Step(w, Close(k)), h) == Places(w, h)
  {
    SumWithout(ClosingCount(h), w.closing, k);
    CountConcat(w.closes, w.closing[k].handles, h);
  }

  lemma AppReleasePlaces(w: World, batch: bool, hs: seq<nat>, h: nat)
    requires CanRelease(batch, hs, w.appHeld)
    ensures Places(Step(w, AppRelease(batch, hs)), h) == Places(w, h)
  {
    DropKeys(w.appHeld, hs);
    CountDistinct(hs, w.appHeld, h);
    ReleasePlaces(w.(appHeld := Drop(w.appHeld, hs)), ReleaseToService, batch, hs, Lookup(w.appHeld, hs), None, h);
  }

  lemma AppReleaseOwners(w: World, batch: bool, hs: seq<nat>, f: nat)
    requires CanRelease(batch, hs, w.appHeld)
    ensures Owners(Step(w, AppRelease(batch, hs)), f) == Owners(w, f)
  {
    HeldDrop(w.appHeld, hs, f);
    ReleaseOwners(w.(appHeld := Drop(w.appHeld, hs)), ReleaseToService, batch, hs, Lookup(w.appHeld, hs), None, f);
  }

  lemma RecorderReleasePlaces(w: World, batch: bool, hs: seq<nat>, h: nat)
    requires CanRelease(batch, hs, w.recorderHeld)
    ensures Places(Step(w, RecorderRelease(batch, hs)), h) == Places(w, h)
  {
    DropKeys(w.recorderHeld, hs);
    CountDistinct(hs, w.recorderHeld, h);
    ReleasePlaces(w.(recorderHeld := Drop(w.recorderHeld, hs)), ReleaseToApp, batch, hs,
                  Lookup(w.recorderHeld, hs), None, h);
  }

  lemma RecorderReleaseOwners(w: World, batch: bool, hs: seq<nat>, f: nat)
    requires CanRelease(batch, hs, w.recorderHeld)
    ensures Owners(Step(w, RecorderRelease(batch, hs)), f) == Owners(w, f)
  {
    HeldDrop(w.recorderHeld, hs, f);
    ReleaseOwners(w.(recorderHeld := Drop(w.recorderHeld, hs)), ReleaseToApp, batch, hs,
                  Lookup(w.recorderHeld, hs), None, f);
  }

  lemma SendOwners(w: World, batch: bool, ts: seq<Int64>, fs: seq<nat>, f: nat)
    requires Inv(w) && Enabled(w, Send(batch, ts, fs))
    ensures Owners(Step(w, Send(batch, ts, fs)), f) == Count(Step(w, Send(batch, ts, fs)).sent, f)
  {
    assert Owners(w, f) == Count(w.sent, f);
    SumAppend(PacketCount(f), w.inflight, Packet(w.nextTx, FrameToApp, batch, ts, fs));
    CountConcat(w.sent, fs, f);
  }

  lemma StepPlaces(w: World, e: Event, h: nat)
    requires Inv(w) && Enabled(w, e)
    ensures Places(Step(w, e), h) == One(h < Step(w, e).nextHandle)
  {
    assert Places(w, h) == One(h < w.nextHandle);
    match e
    case Send(batch, ts, fs) =>
    case Receive(k) => ReceivePlaces(w, k, h);
    case Close(k) => ClosePlaces(w, k, h);
    case AppRelease(batch, hs) => AppReleasePlaces(w, batch, hs, h);
    case RecorderRelease(batch, hs) => RecorderReleasePlaces(w, batch, hs, h);
    case SetListener(_) =>
    case StartRecording =>
    case StopRecording =>
  }

  lemma StepOwners(w: World, e: Event, f: nat)
    requires Inv(w) && Enabled(w, e)
    ensures Owners(Step(w, e), f) == Count(Step(w, e).sent, f)
  {
    assert Owners(w, f) == Count(w.sent, f);
    match e
    case Send(batch, ts, fs) => SendOwners(w, batch, ts, fs, f);
    case Receive(k) => ReceiveOwners(w, k, f);
    case Close(k) =>
    case AppRelease(batch, hs) => AppReleaseOwners(w, batch, hs, f);
    case RecorderRelease(batch, hs) => RecorderReleaseOwners(w, batch, hs, f);
    case SetListener(_) =>
    case StartRecording =>
    case StopRecording =>
  }

  lemma WithoutMembers<T>(s: seq<T>, k: nat)
    requires k < |s|
    ensures forall x :: x in Without(s, k) ==> x in s
    ensures forall x :: x in s && x != s[k] ==> x in Without(s, k)
  {
    forall x | x in s && x != s[k]
      ensures x in Without(s, k)
    {
      var i :| 0 <= i < |s| && s[i] == x;
      assert Without(s, k)[if i < k then i else i - 1] == x;
    }
  }

  lemma WillReturnStays(w: World, w': World, t: nat)
    requires WillReturn(w, t)
    requires w.done <= w'.done
    requires forall p :: p in w.inflight ==> p in w'.inflight
    requires forall c :: c in w.closing ==> c in w'.closing
    ensures WillReturn(w', t)
  {
  }

  lemma ReleaseLinked(w: World, kind: Kind, batch: bool, hs: seq<nat>, fs: seq<nat>, completes: Option<nat>)
    requires Linked(w) && (kind.ReleaseToApp? || kind.ReleaseToService?)
    requires |fs| < TWO32 && (batch || |fs| == 1)
    requires completes.Some? ==> completes.value < w.nextTx
    ensures Linked(Release(w, kind, batch, hs, fs, completes))
  {
    var w' := Release(w, kind, batch, hs, fs, completes);
    var p := Packet(w.nextTx, kind, batch, [], fs);
    assert p in w'.inflight;
    forall c | c in w'.closing && c.after.Some?
      ensures WillReturn(w', c.after.value)
    {
      if c in w.closing {
        WillReturnStays(w, w', c.after.value);
      }
    }
  }

  lemma ForwardLinked(w: World, batch: bool, ts: seq<Int64>, hs: seq<nat>, fs: seq<nat>)
    requires Linked(w) && WellShaped(FrameToRecorder, batch, ts, fs)
    ensures Linked(ForwardFrames(w, batch, ts, hs, fs))
  {
    var w' := ForwardFrames(w, batch, ts, hs, fs);
    forall c | c in w'.closing && c.after.Some?
      ensures WillReturn(w', c.after.value)
    {
      WillReturnStays(w, w', c.after.value);
    }
  }

  /** Linked, but for the transaction `tx` whose parcel is being delivered. */
  ghost predicate LinkedBut(w: World, tx: nat) {
    && (forall p :: p in w.inflight ==> WellShaped(p.kind, p.batch, p.ts, p.fs) && p.tx < w.nextTx)
    && (forall c :: c in w.closing && c.after.Some? ==>
          c.after.value < w.nextTx && (c.after.value == tx || WillReturn(w, c.after.value)))
    && (forall c :: c in w.closing && c.completes.Some? ==> c.after.Some? && c.completes.value < c.after.value)
  }

  lemma DeliverFramesLinked(w: World, kind: Kind, tx: nat, batch: bool, ts: seq<Int64>, fs: seq<nat>)
    requires kind.FrameToApp? || kind.FrameToRecorder?
    requires WellShaped(kind, batch, ts, fs) && Linked(w)
    ensures Linked(Deliver(w, kind, tx, batch, ts, fs))
  {
    var hs := Ids(w.nextHandle, |fs|);
    var w0 := w.(nextHandle := w.nextHandle + |fs|);
    assert Linked(w0);
    if Forwards(w, kind) {
      assert Deliver(w, kind, tx, batch, ts, fs) == ForwardFrames(w0, batch, ts, hs, fs);
      ForwardLinked(w0, batch, ts, hs, fs);
    } else if GoesBack(w, kind) {
      assert Deliver(w, kind, tx, batch, ts, fs) == Release(w0, ReleaseToService, batch, hs, fs, None);
      ReleaseLinked(w0, ReleaseToService, batch, hs, fs, None);
    }
  }

  lemma DeliverReleaseLinked(w: World, kind: Kind, tx: nat, batch: bool, fs: seq<nat>)
    requires kind.ReleaseToApp? || kind.ReleaseToService?
    requires WellShaped(kind, batch, [], fs) && LinkedBut(w, tx) && tx < w.nextTx
    ensures Linked(Deliver(w, kind, tx, batch, [], fs))
  {
    var w' := Deliver(w, kind, tx, batch, [], fs);
    if kind.ReleaseToApp? {
      assert Closing(Ids(w.nextHandle, |fs|), Some(w.nextTx), Some(tx)) in w'.closing;
      assert Packet(w.nextTx, ReleaseToService, batch, [], fs) in w'.inflight;
    }
    assert WillReturn(w', tx);
    forall c | c in w'.closing && c.after.Some?
      ensures WillReturn(w', c.after.value)
    {
      if c in w.closing && c.after.value != tx {
        WillReturnStays(w, w', c.after.value);
      }
    }
  }

  lemma ReceiveLinked(w: World, k: nat)
    requires Linked(w) && k < |w.inflight|
    ensures Linked(Step(w, Receive(k)))
  {
    var p := w.inflight[k];
    assert p in w.inflight;
    var w0 := w.(inflight := Without(w.inflight, k));
    WithoutMembers(w.inflight, k);
    forall c | c in w.closing && c.after.Some? && (c.after.value != p.tx || p.kind.FrameToApp? || p.kind.FrameToRecorder?)
      ensures WillReturn(w0, c.after.value)
    {
      assert WillReturn(w, c.after.value);
    }
    if p.kind.FrameToApp? || p.kind.FrameToRecorder? {
      DeliverFramesLinked(w0, p.kind, p.tx, p.batch, p.ts, p.fs);
    } else {
      DeliverReleaseLinked(w0, p.kind, p.tx, p.batch, p.fs);
    }
  }

  lemma CloseLinked(w: World, k: nat)
    requires Linked(w) && Enabled(w, Close(k))
    ensures Linked(Step(w, Close(k)))
  {
    var w' := Step(w, Close(k));
    WithoutMembers(w.closing, k);
    forall c | c in w'.closing && c.after.Some?
      ensures WillReturn(w', c.after.value)
    {
      assert c in w.closing && WillReturn(w, c.after.value);
    }
  }

  lemma StepLinked(w: World, e: Event)
    requires Linked(w) && Enabled(w, e)
    ensures Linked(Step(w, e))
  {
    match e
    case Send(batch, ts, fs) => SendLinked(w, batch, ts, fs);
    case Receive(k) => ReceiveLinked(w, k);
    case Close(k) => CloseLinked(w, k);
    case AppRelease(batch, hs) =>
      ReleaseLinked(w.(appHeld := Drop(w.appHeld, hs)), ReleaseToService, batch, hs, Lookup(w.appHeld, hs), None);
    case RecorderRelease(batch, hs) =>
      ReleaseLinked(w.(recorderHeld := Drop(w.recorderHeld, hs)), ReleaseToApp, batch, hs, Lookup(w.recorderHeld, hs), None);
    case SetListener(_) =>
    case StartRecording =>
    case StopRecording =>
  }

  lemma SendLinked(w: World, batch: bool, ts: seq<Int64>, fs: seq<nat>)
    requires Linked(w) && Enabled(w, Send(batch, ts, fs))
    ensures Linked(Step(w, Send(batch, ts, fs)))
  {
    var w' := Step(w, Send(batch, ts, fs));
    forall c | c in w'.closing && c.after.Some?
      ensures WillReturn(w', c.after.value)
    {
      WillReturnStays(w, w', c.after.value);
    }
  }

  // ---------------------------------------------------------------- whole runs

  lemma StepKeepsInv(w: World, e: Event)
    requires Inv(w) && Enabled(w, e)
    ensures Inv(Step(w, e))
  {
    StepLinked(w, e);
    forall h: nat
      ensures Places(Step(w, e), h) == One(h < Step(w, e).nextHandle)
    {
      StepPlaces(w, e, h);
    }
    forall f: nat
      ensures Owners(Step(w, e), f) == Count(Step(w, e).sent, f)
    {
      StepOwners(w, e, f);
    }
  }

  const START := World(0, 0, [], [], {}, map[], map[], map[], [], [], false, false)

  predicate IsRun(w: World, es: seq<Event>)
    decreases |es|
  {
    es == [] || (Enabled(w, es[0]) && IsRun(Step(w, es[0]), es[1..]))
  }

  function Run(w: World, es: seq<Event>): World
    requires IsRun(w, es)
    decreases |es|
  {
    if es == [] then w else Run(Step(w, es[0]), es[1..])
  }

  lemma {:induction false} RunKeepsInv(w: World, es: seq<Event>)
    requires Inv(w) && IsRun(w, es)
    ensures Inv(Run(w, es))
    decreases |es|
  {
    if es != [] {
      StepKeepsInv(w, es[0]);
      RunKeepsInv(Step(w, es[0]), es[1..]);
    }
  }

  function Recording(on: bool): Event { if on then StartRecording else StopRecording }

  /** The two steps that set both listeners. */
  function SetBoth(listener: bool, proxyListener: bool): seq<Event> { [SetListener(listener)] + [Recording(proxyListener)] }

  lemma SetBothRuns(w: World, listener: bool, proxyListener: bool, es: seq<Event>)
    ensures var w' := w.(listener := listener, proxyListener := proxyListener);
      && (IsRun(w, SetBoth(listener, proxyListener) + es) <==> IsRun(w', es))
      && (IsRun(w', es) ==> Run(w, SetBoth(listener, proxyListener) + es) == Run(w', es))
  {
    hide IsRun, Run;
    var more := [Recording(proxyListener)] + es;
    assert SetBoth(listener, proxyListener) + es == [SetListener(listener)] + more;
    RunCons(w, SetListener(listener), more);
    RunCons(w.(listener := listener), Recording(proxyListener), es);
  }

  /** The camera reads its two listeners in two critical sections, so they may change in between.  A
      frame routed by any pair of observed listeners is still a run of the protocol: what holds for
      every run holds with the race. */
  lemma RacingListenersAreARun(w: World, k: nat, listener: bool, proxyListener: bool)
    requires k < |w.inflight|
    ensures var es := SetBoth(listener, proxyListener) + ([Receive(k)] + (SetBoth(w.listener, w.proxyListener) + []));
      && IsRun(w, es)
      && Run(w, es) == Step(w.(listener := listener, proxyListener := proxyListener), Receive(k))
           .(listener := w.listener, proxyListener := w.proxyListener)
  {
    hide Deliver, SetBoth;
    var seen := w.(listener := listener, proxyListener := proxyListener);
    var restore := SetBoth(w.listener, w.proxyListener) + [];
    SetBothRuns(w, listener, proxyListener, [Receive(k)] + restore);
    RunCons(seen, Receive(k), restore);
    SetBothRuns(Step(seen, Receive(k)), w.listener, w.proxyListener, []);
  }

  lemma RunCons(w: World, e: Event, es: seq<Event>)
    requires Enabled(w, e)
    ensures IsRun(w, [e] + es) <==> IsRun(Step(w, e), es)
    ensures IsRun(w, [e] + es) ==> Run(w, [e] + es) == Run(Step(w, e), es)
  {
    hide Step;
    assert ([e] + es)[1..] == es;
  }

  /** In every interleaving: no handle is closed twice, or closed while somebody still holds it, or
      held by two; a frame the service sent once has exactly one owner; and every batch in flight
      has as many timestamps as handles. */
  lemma EveryHandleHasOnePlace(es: seq<Event>, h: nat, f: nat)
    requires IsRun(START, es)
    ensures var w := Run(START, es);
      && Count(w.closes, h) <= 1
      && (h in w.appHeld || h in w.recorderHeld || h in w.returned ==>
            Count(w.closes, h) == 0 && Sum(ClosingCount(h), w.closing) == 0)
      && !(h in w.appHeld && h in w.recorderHeld)
      && Owners(w, f) == Count(w.sent, f)
      && (forall p :: p in w.inflight ==> p.kind.FrameToApp? || p.kind.FrameToRecorder? ==> |p.ts| == |p.fs|)
  {
    assert Inv(START);
    RunKeepsInv(START, es);
    var w := Run(START, es);
    assert Places(w, h) == One(h < w.nextHandle) && Owners(w, f) == Count(w.sent, f);
  }

  /** Parcels still to be delivered and close loops still to be run, weighted by what they cause. */
  function Work(w: World): nat {
    Sum(Weight, w.inflight) + |w.closing|
  }

  function Weight(p: Packet): nat { if p.kind.FrameToApp? || p.kind.ReleaseToApp? then 3 else 1 }

  /** Deliveries and close loops only use up work, so all of them come to an end ... */
  lemma WorkFalls(w: World, e: Event)
    requires Enabled(w, e) && (e.Receive? || e.Close?)
    ensures Work(Step(w, e)) < Work(w)
  {
    match e
    case Receive(k) =>
      var p := w.inflight[k];
      SumWithout(Weight, w.inflight, k);
      DeliverWork(w.(inflight := Without(w.inflight, k)), p.kind, p.tx, p.batch, p.ts, p.fs);
    case Close(k) =>
  }

  lemma DeliverWork(w: World, kind: Kind, tx: nat, batch: bool, ts: seq<Int64>, fs: seq<nat>)
    ensures Work(Deliver(w, kind, tx, batch, ts, fs)) < Work(w) + Weight(Packet(tx, kind, batch, ts, fs))
  {
    var hs := Ids(w.nextHandle, |fs|);
    var w0 := w.(nextHandle := w.nextHandle + |fs|);
    if Forwards(w, kind) {
      SumAppend(Weight, w.inflight, Packet(w.nextTx, FrameToRecorder, batch, ts, fs));
    } else if GoesBack(w, kind) {
      var completes := if kind.ReleaseToApp? then Some(tx) else None;
      SumAppend(Weight, w.inflight, Packet(w.nextTx, ReleaseToService, batch, [], fs));
    }
  }

  /** ... and when none is left nothing waits to be closed: while parcels or close loops remain,
      one of them can go on. */
  lemma {:induction false} NoneWaitsForever(w: World, k: nat)
    requires Linked(w) && k < |w.closing|
    ensures exists e: Event :: (e.Receive? || e.Close?) && Enabled(w, e)
    decreases if w.closing[k].after.Some? then w.nextTx - w.closing[k].after.value else 0
  {
    var c := w.closing[k];
    assert c in w.closing;
    if w.inflight != [] {
      assert Enabled(w, Receive(0));
    } else if CanClose(w, c) {
      assert Enabled(w, Close(k));
    } else {
      assert WillReturn(w, c.after.value);
      var c' :| c' in w.closing && c'.completes == Some(c.after.value);
      var j :| 0 <= j < |w.closing| && w.closing[j] == c';
      NoneWaitsForever(w, j);
    }
  }

  /** A quiet world has no leak: every duplicate ever made has been closed exactly once, or is
      still held by the app, the recorder or the service.  Once the app and the recorder hold
      nothing, every frame has come back to the service as often as it was sent. */
  lemma QuietMeansNothingLeaked(es: seq<Event>, h: nat, f: nat)
    requires IsRun(START, es)
    requires var w := Run(START, es);
      forall e: Event :: e.Receive? || e.Close? ==> !Enabled(w, e)
    ensures var w := Run(START, es);
      && w.inflight == [] && w.closing == []
      && (h < w.nextHandle && h !in w.appHeld && h !in w.recorderHeld && h !in w.returned ==> Count(w.closes, h) == 1)
      && (w.appHeld == map[] && w.recorderHeld == map[] ==> HeldCount(w.returned, f) == Count(w.sent, f))
  {
    assert Inv(START);
    RunKeepsInv(START, es);
    var w := Run(START, es);
    assert Places(w, h) == One(h < w.nextHandle) && Owners(w, f) == Count(w.sent, f);
    assert !Enabled(w, Receive(0));
    if w.closing != [] {
      NoneWaitsForever(w, 0);
    }
  }
}
