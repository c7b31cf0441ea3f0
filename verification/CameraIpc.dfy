/** The proxies and stubs of camera/ICameraClient.cpp, ICameraRecordingProxyListener.cpp,
    ICameraRecordingProxy.cpp and ICamera.cpp, and the routing of camera/Camera.cpp.

    Here the calls run as the code runs them: a one-way call leaves a parcel in the queue, a
    synchronous one executes the remote stub before the caller's close loop.  Every method is shown
    to be a run of the protocol in RecordingHandles. */
module CameraIpc {
  import opened Parcels
  import opened RecordingHandles
  import opened RecordingRoutes

  /** A native_handle_t: the identity of this duplicate and the frame it refers to. */
  datatype NativeHandle = NativeHandle(id: nat, frame: nat)

  datatype Transaction = Transaction(tx: nat, kind: Kind, batch: bool, items: seq<Item>)

  function IdsOf(hs: seq<NativeHandle>): seq<nat> { seq(|hs|, i requires 0 <= i < |hs| => hs[i].id) }

  function FramesOf(hs: seq<NativeHandle>): seq<nat> { seq(|hs|, i requires 0 <= i < |hs| => hs[i].frame) }

  ghost predicate Carries(t: Transaction, p: Packet) {
    && t.tx == p.tx && t.kind == p.kind && t.batch == p.batch
    && WellShaped(p.kind, p.batch, p.ts, p.fs)
    && t.items == if p.kind.FrameToApp? || p.kind.FrameToRecorder? then EncodeFrames(p.batch, p.ts, p.fs)
                  else EncodeRelease(p.batch, p.fs)
  }

  // ---------------------------------------------------------------- what the calls amount to

  /** Some run of the protocol leads from w to w'. */
  ghost predicate Reaches(w: World, w': World) {
    exists es :: IsRun(w, es) && Run(w, es) == w'
  }

  lemma StepReaches(w: World, e: Event)
    requires Enabled(w, e)
    ensures Reaches(w, Step(w, e))
  {
    assert [e][1..] == [];
    assert IsRun(Step(w, e), []);
    assert IsRun(w, [e]) && Run(w, [e]) == Step(w, e);
  }

  lemma {:induction false} RunConcat(w: World, es: seq<Event>, es': seq<Event>)
    requires IsRun(w, es) && IsRun(Run(w, es), es')
    ensures IsRun(w, es + es') && Run(w, es + es') == Run(Run(w, es), es')
    decreases |es|
  {
    if es == [] {
      assert es + es' == es';
    } else {
      RunConcat(Step(w, es[0]), es[1..], es');
      assert (es + es')[1..] == es[1..] + es';
    }
  }

  lemma ReachesFurther(w: World, w': World, w'': World)
    requires Reaches(w, w') && Reaches(w', w'')
    ensures Reaches(w, w'')
  {
    var es :| IsRun(w, es) && Run(w, es) == w';
    var es' :| IsRun(w', es') && Run(w', es') == w'';
    RunConcat(w, es, es');
  }

  lemma ReceiveLast(w: World, p: Packet)
    ensures Step(w.(inflight := w.inflight + [p]), Receive(|w.inflight|)) == Deliver(w, p.kind, p.tx, p.batch, p.ts, p.fs)
  {
    assert Without(w.inflight + [p], |w.inflight|) == w.inflight;
  }

  lemma CloseLast(w: World, c: Closing)
    requires CanClose(w, c)
    ensures var w' := w.(closing := w.closing + [c]);
      && Enabled(w', Close(|w.closing|))
      && Step(w', Close(|w.closing|))
         == w.(closes := w.closes + c.handles, done := if c.completes.Some? then w.done + {c.completes.value} else w.done)
  {
    assert Without(w.closing + [c], |w.closing|) == w.closing;
  }

  /** The world after BpCamera's release call has returned. */
  function Released(w: World, hs: seq<nat>, fs: seq<nat>): World {
    w.(nextTx := w.nextTx + 1, nextHandle := w.nextHandle + |fs|,
       returned := w.returned + Dups(w.nextHandle, fs), done := w.done + {w.nextTx}, closes := w.closes + hs)
  }

  /** A synchronous release by way of BpCamera: the service's stub takes the parcel, then the
      close loop runs. */
  lemma ReleaseRuns(w: World, batch: bool, hs: seq<nat>, fs: seq<nat>, completes: Option<nat>)
    ensures var r := Released(w, hs, fs);
      Reaches(Release(w, ReleaseToService, batch, hs, fs, completes),
              r.(done := if completes.Some? then r.done + {completes.value} else r.done))
  {
    var w1 := Release(w, ReleaseToService, batch, hs, fs, completes);
    var c := Closing(hs, Some(w.nextTx), completes);
    ReceiveLast(w.(nextTx := w.nextTx + 1, closing := w.closing + [c]), Packet(w.nextTx, ReleaseToService, batch, [], fs));
    var w2 := Step(w1, Receive(|w.inflight|));
    StepReaches(w1, Receive(|w.inflight|));
    CloseLast(Released(w, [], fs), c);
    assert w.closes + [] == w.closes;
    assert Released(w, [], fs).(closing := w.closing + [c]) == w2;
    StepReaches(w2, Close(|w.closing|));
    ReachesFurther(w1, w2, Step(w2, Close(|w.closing|)));
  }

  /** The world in which the app's stub is about to pass on the recorder's release. */
  function InsideApp(w: World, hs: seq<nat>, n: nat): World {
    w.(nextTx := w.nextTx + 1, nextHandle := w.nextHandle + n, closing := w.closing + [Closing(hs, Some(w.nextTx), None)])
  }

  lemma AppPassesOn(w: World, batch: bool, hs: seq<nat>, fs: seq<nat>)
    ensures Reaches(Release(w, ReleaseToApp, batch, hs, fs, None),
                    Release(InsideApp(w, hs, |fs|), ReleaseToService, batch, Ids(w.nextHandle, |fs|), fs, Some(w.nextTx)))
  {
    var w0 := w.(nextTx := w.nextTx + 1, closing := w.closing + [Closing(hs, Some(w.nextTx), None)]);
    ReceiveLast(w0, Packet(w.nextTx, ReleaseToApp, batch, [], fs));
    StepReaches(Release(w, ReleaseToApp, batch, hs, fs, None), Receive(|w.inflight|));
  }

  /** The world after BpCameraRecordingProxy's release call has returned. */
  function ReleasedByRecorder(w: World, hs: seq<nat>, fs: seq<nat>): World {
    var r := Released(w.(nextTx := w.nextTx + 1, nextHandle := w.nextHandle + |fs|), Ids(w.nextHandle, |fs|), fs);
    r.(done := r.done + {w.nextTx}, closes := r.closes + hs)
  }

  /** A synchronous release by the recorder: the app's stub, inside it the service's stub and the
      app's close loop, then the recorder's close loop. */
  lemma RecorderReleaseRuns(w: World, batch: bool, hs: seq<nat>, fs: seq<nat>)
    ensures Reaches(Release(w, ReleaseToApp, batch, hs, fs, None), ReleasedByRecorder(w, hs, fs))
  {
    var w1 := Release(w, ReleaseToApp, batch, hs, fs, None);
    var outer := Closing(hs, Some(w.nextTx), None);
    AppPassesOn(w, batch, hs, fs);
    var v0 := InsideApp(w, hs, |fs|);
    ReleaseRuns(v0, batch, Ids(w.nextHandle, |fs|), fs, Some(w.nextTx));
    var v := ReleasedByRecorder(w, [], fs);
    var w3 := v.(closing := v.closing + [outer]);
    assert w.closes + Ids(w.nextHandle, |fs|) + [] == w.closes + Ids(w.nextHandle, |fs|);
    ReachesFurther(w1, Release(v0, ReleaseToService, batch, Ids(w.nextHandle, |fs|), fs, Some(w.nextTx)), w3);
    CloseLast(v, outer);
    StepReaches(w3, Close(|w.closing|));
    ReachesFurther(w1, w3, Step(w3, Close(|w.closing|)));
  }

  lemma AppReleaseRuns(w: World, batch: bool, hs: seq<nat>)
    requires CanRelease(batch, hs, w.appHeld)
    ensures Reaches(w, Released(w.(appHeld := Drop(w.appHeld, hs)), hs, Lookup(w.appHeld, hs)))
  {
    StepReaches(w, AppRelease(batch, hs));
    var w0 := w.(appHeld := Drop(w.appHeld, hs));
    ReleaseRuns(w0, batch, hs, Lookup(w.appHeld, hs), None);
    ReachesFurther(w, Step(w, AppRelease(batch, hs)), Released(w0, hs, Lookup(w.appHeld, hs)));
  }

  lemma FullRecorderReleaseRuns(w: World, batch: bool, hs: seq<nat>)
    requires CanRelease(batch, hs, w.recorderHeld)
    ensures Reaches(w, ReleasedByRecorder(w.(recorderHeld := Drop(w.recorderHeld, hs)), hs, Lookup(w.recorderHeld, hs)))
  {
    StepReaches(w, RecorderRelease(batch, hs));
    var w0 := w.(recorderHeld := Drop(w.recorderHeld, hs));
    RecorderReleaseRuns(w0, batch, hs, Lookup(w.recorderHeld, hs));
    ReachesFurther(w, Step(w, RecorderRelease(batch, hs)), ReleasedByRecorder(w0, hs, Lookup(w.recorderHeld, hs)));
  }

  /** The world in which the k-th parcel has been read. */
  function Taken(w: World, k: nat): World
    requires k < |w.inflight|
  {
    w.(inflight := Without(w.inflight, k), nextHandle := w.nextHandle + |w.inflight[k].fs|)
  }

  /** The world after Camera has dealt with frames fs it was given as duplicates from `next` on:
      forwarded to the recorder, kept by the app's listener, or returned to the service. */
  function Routed(u: World, next: nat, batch: bool, ts: seq<Int64>, fs: seq<nat>): World {
    var hs := Ids(next, |fs|);
    if u.proxyListener then
      u.(nextTx := u.nextTx + 1, closes := u.closes + hs,
         inflight := u.inflight + [Packet(u.nextTx, FrameToRecorder, batch, ts, fs)])
    else if u.listener then u.(appHeld := u.appHeld + Dups(next, fs))
    else Released(u, hs, fs)
  }

  lemma RoutingRuns(w: World, k: nat)
    requires k < |w.inflight| && w.inflight[k].kind.FrameToApp?
    requires |w.inflight[k].ts| == |w.inflight[k].fs| < TWO32
    ensures var p := w.inflight[k];
      Reaches(w, Routed(Taken(w, k), w.nextHandle, p.batch, p.ts, p.fs))
  {
    var (p, u, w1) := (w.inflight[k], Taken(w, k), Step(w, Receive(k)));
    var r := Routed(u, w.nextHandle, p.batch, p.ts, p.fs);
    StepReaches(w, Receive(k));
    if w.proxyListener {
      var c := Closing(Ids(w.nextHandle, |p.fs|), None, None);
      var v := r.(closes := w.closes);
      assert w1 == v.(closing := v.closing + [c]);
      CloseLast(v, c);
      StepReaches(w1, Close(|w.closing|));
      ReachesFurther(w, w1, r);
    } else if !w.listener {
      ReleaseRuns(u, p.batch, Ids(w.nextHandle, |p.fs|), p.fs, None);
      ReachesFurther(w, w1, r);
    }
  }

  /** Who has the frames after that, said of the fields: the recorder if one is registered, whatever
      the app's listener is; else the app's listener; else the service. */
  ghost predicate WellRouted(w: World, w': World, k: nat)
    requires k < |w.inflight|
  {
    var p := w.inflight[k];
    && w'.recorderHeld == w.recorderHeld && w'.closing == w.closing
    && (w.proxyListener ==>
          && w'.inflight == Others(w, k) + [Packet(w.nextTx, FrameToRecorder, p.batch, p.ts, p.fs)]
          && w'.appHeld == w.appHeld && w'.returned == w.returned
          && w'.closes == w.closes + seq(|p.fs|, i => w.nextHandle + i))
    && (!w.proxyListener && w.listener ==>
          && w'.inflight == Others(w, k) && Gains(w.appHeld, w'.appHeld, w.nextHandle, p.fs)
          && w'.returned == w.returned && w'.closes == w.closes)
    && (!w.proxyListener && !w.listener ==>
          && w'.inflight == Others(w, k) && Gains(w.returned, w'.returned, w.nextHandle + |p.fs|, p.fs)
          && w'.appHeld == w.appHeld && w'.closes == w.closes + seq(|p.fs|, i => w.nextHandle + i))
  }

  lemma RoutedIsWellRouted(w: World, k: nat)
    requires k < |w.inflight|
    ensures var p := w.inflight[k]; WellRouted(w, Routed(Taken(w, k), w.nextHandle, p.batch, p.ts, p.fs), k)
  {
    hide Dups, Gains;
    var fs := w.inflight[k].fs;
    GainsDups(w.appHeld, w.nextHandle, fs);
    GainsDups(w.returned, w.nextHandle + |fs|, fs);
  }

  /** What a release leaves behind: its frames are with the service, its handles are closed. */
  lemma ReleasedMeans(w: World, hs: seq<nat>, fs: seq<nat>)
    ensures var w' := Released(w, hs, fs);
      && Gains(w.returned, w'.returned, w.nextHandle, fs) && w'.closes == w.closes + hs
      && w'.inflight == w.inflight && w'.closing == w.closing
      && w'.appHeld == w.appHeld && w'.recorderHeld == w.recorderHeld
    ensures var w' := ReleasedByRecorder(w, hs, fs);
      && Gains(w.returned, w'.returned, w.nextHandle + |fs|, fs)
      && w'.closes == w.closes + seq(|fs|, i => w.nextHandle + i) + hs
      && w'.inflight == w.inflight && w'.closing == w.closing
      && w'.appHeld == w.appHeld && w'.recorderHeld == w.recorderHeld
  {
    hide Dups, Gains;
    GainsDups(w.returned, w.nextHandle, fs);
    GainsDups(w.returned, w.nextHandle + |fs|, fs);
  }

  // ---------------------------------------------------------------- the code

  class Ipc {
    var nextHandle: nat
    var nextTx: nat
    var queue: seq<Transaction>
    var appHeld: map<nat, nat>
    var recorderHeld: map<nat, nat>
    var returned: map<nat, nat>
    var closes: seq<nat>
    var sent: seq<nat>
    var mListener: bool
    var mRecordingProxyListener: bool
    ghost var world: World

    /** Between calls the fields are those of a world some run of the protocol leads to, and no
        close loop is pending. */
    ghost predicate Valid()
      reads this
    {
      Reaches(START, world) && Mirrors()
    }

    ghost predicate Mirrors()
      reads this
    {
      && world.closing == []
      && nextHandle == world.nextHandle && nextTx == world.nextTx
      && appHeld == world.appHeld && recorderHeld == world.recorderHeld && returned == world.returned
      && closes == world.closes && sent == world.sent
      && mListener == world.listener && mRecordingProxyListener == world.proxyListener
      && |queue| == |world.inflight|
      && (forall i :: 0 <= i < |queue| ==> Carries(queue[i], world.inflight[i]))
    }

    constructor ()
      ensures Valid() && world == START
    {
      nextHandle, nextTx, queue, closes, sent := 0, 0, [], [], [];
      appHeld, recorderHeld, returned := map[], map[], map[];
      mListener, mRecordingProxyListener := false, false;
      world := START;
      assert IsRun(START, []) && Run(START, []) == START;
    }

    // ---- the loops shared by the proxies and stubs

    /** The writing loops of the frame callbacks. */
    method WriteFrames(batch: bool, ts: seq<Int64>, handles: seq<NativeHandle>) returns (items: seq<Item>)
      ensures items == EncodeFrames(batch, ts, FramesOf(handles))
    {
      items := if batch then [I32(ToInt32(|ts|))] else [];
      ghost var head := items;
      for i := 0 to |ts|
        invariant items == head + I64s(ts)[..i]
      {
        items := items + [I64(ts[i])];
      }
      assert items == head + I64s(ts);
      items := WriteHandles(items, handles);
    }

    /** writeNativeHandle for every handle: the parcel gets its own duplicate. */
    method WriteHandles(before: seq<Item>, handles: seq<NativeHandle>) returns (items: seq<Item>)
      ensures items == before + Handles(FramesOf(handles))
    {
      items := before;
      for i := 0 to |handles|
        invariant items == before + Handles(FramesOf(handles))[..i]
      {
        items := items + [Handle(handles[i].frame)];
      }
    }

    /** The writing loop of the release calls. */
    method WriteRelease(batch: bool, handles: seq<NativeHandle>) returns (items: seq<Item>)
      ensures items == EncodeRelease(batch, FramesOf(handles))
    {
      items := WriteHandles(if batch then [I32(ToInt32(|handles|))] else [], handles);
    }

    /** native_handle_close and native_handle_delete for every handle. */
    method CloseAll(handles: seq<NativeHandle>)
      modifies this`closes
      ensures closes == old(closes) + IdsOf(handles)
    {
      for i := 0 to |handles|
        invariant closes == old(closes) + IdsOf(handles[..i])
      {
        closes := closes + [handles[i].id];
        assert IdsOf(handles[..i + 1]) == IdsOf(handles[..i]) + [handles[i].id];
      }
      assert handles[..|handles|] == handles;
    }

    /** The loop over readInt64 of the frame stubs. */
    method ReadTimestamps(items: seq<Item>, n: nat) returns (r: Result<(seq<Int64>, seq<Item>)>)
      ensures ReadI64s(items, n).Ok? ==> r == ReadI64s(items, n)
      ensures ReadI64s(items, n).Err? ==> r == Err(BadValue)
    {
      var ts: seq<Int64>, rest := [], items;
      assert ReadI64s(items, n).Ok? ==> [] + ReadI64s(items, n).value.0 == ReadI64s(items, n).value.0;
      for i := 0 to n
        invariant |ts| == i
        invariant ReadI64s(items, n).Ok? <==> ReadI64s(rest, n - i).Ok?
        invariant ReadI64s(items, n).Ok? ==>
          ReadI64s(items, n) == Ok((ts + ReadI64s(rest, n - i).value.0, ReadI64s(rest, n - i).value.1))
      {
        var read := ReadI64(rest);
        if read.Err? {
          return Err(BadValue);
        }
        ghost var before := ts;
        ghost var was := rest;
        ts := ts + [read.value.0];
        rest := read.value.1;
        assert ReadI64s(was, n - i).Ok? ==> before + ReadI64s(was, n - i).value.0 == ts + ReadI64s(rest, n - i - 1).value.0;
      }
      assert ts + [] == ts;
      r := Ok((ts, rest));
    }

    /** The loop over readNativeHandle: every handle read is a new duplicate. */
    method ReadNativeHandles(items: seq<Item>, n: nat) returns (r: Result<seq<NativeHandle>>)
      modifies this`nextHandle
      ensures ReadHandles(items, n).Ok? ==> r.Ok? && FramesOf(r.value) == ReadHandles(items, n).value.0
      ensures ReadHandles(items, n).Ok? ==> IdsOf(r.value) == Ids(old(nextHandle), n)
      ensures ReadHandles(items, n).Ok? ==> nextHandle == old(nextHandle) + n
      ensures ReadHandles(items, n).Err? ==> r == Err(BadValue)
    {
      var handles, rest := [], items;
      for i := 0 to n
        invariant |handles| == i && nextHandle == old(nextHandle) + i
        invariant IdsOf(handles) == Ids(old(nextHandle), i)
        invariant ReadHandles(items, n).Ok? <==> ReadHandles(rest, n - i).Ok?
        invariant ReadHandles(items, n).Ok? ==>
          ReadHandles(items, n).value.0 == FramesOf(handles) + ReadHandles(rest, n - i).value.0
      {
        var read := ReadHandle(rest);
        if read.Err? {
          return Err(BadValue);
        }
        ghost var before := FramesOf(handles);
        ghost var was := rest;
        handles := handles + [NativeHandle(nextHandle, read.value.0)];
        nextHandle := nextHandle + 1;
        rest := read.value.1;
        assert FramesOf(handles) == before + [read.value.0];
        assert IdsOf(handles) == Ids(old(nextHandle), i) + [old(nextHandle) + i] == Ids(old(nextHandle), i + 1);
        assert ReadHandles(was, n - i).Ok? ==>
          before + ReadHandles(was, n - i).value.0 == FramesOf(handles) + ReadHandles(rest, n - i - 1).value.0;
      }
      assert FramesOf(handles) + [] == FramesOf(handles);
      r := Ok(handles);
    }

    /** The reading part of onTransact for frames: BnCameraClient and BnCameraRecordingProxyListener. */
    method ReadFrameCall(t: Transaction, ghost ts: seq<Int64>, ghost fs: seq<nat>)
      returns (timestamps: seq<Int64>, handles: seq<NativeHandle>)
      requires t.items == EncodeFrames(t.batch, ts, fs) && WellShaped(FrameToApp, t.batch, ts, fs)
      modifies this`nextHandle
      ensures timestamps == ts && FramesOf(handles) == fs
      ensures IdsOf(handles) == Ids(old(nextHandle), |fs|) && nextHandle == old(nextHandle) + |fs|
    {
      FramesAreRead(t.batch, ts, fs);
      var n, rest := 1, t.items;
      if t.batch {
        var count := ReadU32(t.items).value;
        n, rest := count.0, count.1;
      }
      var first := ReadTimestamps(rest, n);
      timestamps := first.value.0;
      var second := ReadNativeHandles(first.value.1, n);
      handles := second.value;
    }

    /** The reading part of onTransact for releases: BnCamera and BnCameraRecordingProxy. */
    method ReadReleaseCall(t: Transaction, ghost fs: seq<nat>) returns (handles: seq<NativeHandle>)
      requires t.items == EncodeRelease(t.batch, fs) && |fs| < TWO32 && (t.batch || |fs| == 1)
      modifies this`nextHandle
      ensures FramesOf(handles) == fs
      ensures IdsOf(handles) == Ids(old(nextHandle), |fs|) && nextHandle == old(nextHandle) + |fs|
    {
      ReleaseIsRead(t.batch, fs);
      var n, rest := 1, t.items;
      if t.batch {
        var count := ReadU32(t.items).value;
        n, rest := count.0, count.1;
      }
      var read := ReadNativeHandles(rest, n);
      handles := read.value;
    }

    /** A listener takes over the handles it is given. */
    method TakeOver(m: map<nat, nat>, handles: seq<NativeHandle>, ghost next: nat) returns (m': map<nat, nat>)
      requires IdsOf(handles) == Ids(next, |handles|)
      ensures m' == m + Dups(next, FramesOf(handles))
    {
      m' := m;
      for i := 0 to |handles|
        invariant m' == m + Dups(next, FramesOf(handles)[..i])
      {
        assert IdsOf(handles)[i] == next + i;
        m' := m'[handles[i].id := handles[i].frame];
        assert FramesOf(handles)[..i + 1][..i] == FramesOf(handles)[..i];
      }
      assert FramesOf(handles)[..|handles|] == FramesOf(handles);
    }

    // ---- the release path

    /** BnCamera: the service takes the handles over. */
    method BnCameraRelease(t: Transaction, ghost fs: seq<nat>)
      requires t.items == EncodeRelease(t.batch, fs) && |fs| < TWO32 && (t.batch || |fs| == 1)
      modifies this`nextHandle, this`returned
      ensures nextHandle == old(nextHandle) + |fs| && returned == old(returned) + Dups(old(nextHandle), fs)
    {
      var handles := ReadReleaseCall(t, fs);
      returned := TakeOver(returned, handles, old(nextHandle));
    }

    /** BpCamera::releaseRecordingFrameHandle(Batch). */
    method BpCameraRelease(batch: bool, handles: seq<NativeHandle>)
      requires |handles| < TWO32 && (batch || |handles| == 1)
      modifies this`nextHandle, this`nextTx, this`returned, this`closes
      ensures nextTx == old(nextTx) + 1 && nextHandle == old(nextHandle) + |handles|
      ensures returned == old(returned) + Dups(old(nextHandle), FramesOf(handles))
      ensures closes == old(closes) + IdsOf(handles)
    {
      var items := WriteRelease(batch, handles);
      var tx := nextTx;
      nextTx := nextTx + 1;
      BnCameraRelease(Transaction(tx, ReleaseToService, batch, items), FramesOf(handles));
      CloseAll(handles);
    }

    /** BpCameraRecordingProxy::releaseRecordingFrameHandle(Batch), with BnCameraRecordingProxy and
        Camera::RecordingProxy at the other end. */
    method BpRecordingProxyRelease(batch: bool, handles: seq<NativeHandle>)
      requires |handles| < TWO32 && (batch || |handles| == 1)
      modifies this`nextHandle, this`nextTx, this`returned, this`closes
      ensures var (next, n) := (old(nextHandle), |handles|);
        && nextTx == old(nextTx) + 2 && nextHandle == next + n + n
        && returned == old(returned) + Dups(next + n, FramesOf(handles))
        && closes == old(closes) + Ids(next, n) + IdsOf(handles)
    {
      var items := WriteRelease(batch, handles);
      var t := Transaction(nextTx, ReleaseToApp, batch, items);
      nextTx := nextTx + 1;
      var dups := ReadReleaseCall(t, FramesOf(handles));
      assert |dups| == |FramesOf(dups)|;
      BpCameraRelease(batch, dups);
      CloseAll(handles);
    }

    // ---- the callback path

    /** BpCameraClient: the service sends frames; it keeps its own handles. */
    method BpCameraClientSend(batch: bool, ts: seq<Int64>, handles: seq<NativeHandle>)
      requires Valid() && Enabled(world, Send(batch, ts, FramesOf(handles)))
      modifies this
      ensures Valid() && world == Step(old(world), Send(batch, ts, FramesOf(handles)))
    {
      StepReaches(world, Send(batch, ts, FramesOf(handles)));
      ReachesFurther(START, world, Step(world, Send(batch, ts, FramesOf(handles))));
      world := Step(world, Send(batch, ts, FramesOf(handles)));
      if ToUInt32(|ts|) != |handles| {
        return;
      }
      var items := WriteFrames(batch, ts, handles);
      queue := queue + [Transaction(nextTx, FrameToApp, batch, items)];
      nextTx := nextTx + 1;
      sent := sent + FramesOf(handles);
    }

    /** BpCameraRecordingProxyListener: forwards frames, then closes the app's duplicates. */
    method BpListenerForward(batch: bool, ts: seq<Int64>, handles: seq<NativeHandle>)
      modifies this`queue, this`nextTx, this`closes
      ensures ToUInt32(|ts|) != |handles| ==> unchanged(this)
      ensures ToUInt32(|ts|) == |handles| ==>
        && queue == old(queue) + [Transaction(old(nextTx), FrameToRecorder, batch, EncodeFrames(batch, ts, FramesOf(handles)))]
        && nextTx == old(nextTx) + 1 && closes == old(closes) + IdsOf(handles)
    {
      if ToUInt32(|ts|) != |handles| {
        return;
      }
      var items := WriteFrames(batch, ts, handles);
      queue := queue + [Transaction(nextTx, FrameToRecorder, batch, items)];
      nextTx := nextTx + 1;
      CloseAll(handles);
    }

    /** A parcel leaves the queue and its stub reads it. */
    method TakeFrames(k: nat) returns (batch: bool, ts: seq<Int64>, handles: seq<NativeHandle>)
      requires Mirrors() && k < |queue| && (queue[k].kind.FrameToApp? || queue[k].kind.FrameToRecorder?)
      modifies this`queue, this`nextHandle, this`world
      ensures Mirrors() && world == Taken(old(world), k)
      ensures var p := old(world).inflight[k];
        && batch == p.batch && ts == p.ts && FramesOf(handles) == p.fs
        && IdsOf(handles) == Ids(old(world).nextHandle, |p.fs|)
    {
      var t := queue[k];
      ghost var p := world.inflight[k];
      world := Taken(world, k);
      queue := queue[..k] + queue[k + 1..];
      batch := t.batch;
      ts, handles := ReadFrameCall(t, p.ts, p.fs);
    }

    /** Camera::recordingFrameHandleCallbackTimestamp(Batch): to the recorder through the proxy
        listener, to the app's listener, or straight back to the service. */
    method OnFrames(batch: bool, ts: seq<Int64>, handles: seq<NativeHandle>, ghost next: nat)
      requires Mirrors() && WellShaped(FrameToApp, batch, ts, FramesOf(handles))
      requires IdsOf(handles) == Ids(next, |handles|)
      modifies this
      ensures Mirrors() && world == Routed(old(world), next, batch, ts, FramesOf(handles))
    {
      assert |handles| == |FramesOf(handles)|;
      world := Routed(world, next, batch, ts, FramesOf(handles));
      if mRecordingProxyListener {
        CountSurvives(|ts|);
        BpListenerForward(batch, ts, handles);
        return;
      }
      if mListener {
        appHeld := TakeOver(appHeld, handles, next);
      } else {
        BpCameraRelease(batch, handles);
      }
    }

    /** A parcel for BnCameraClient is delivered. */
    method DeliverToApp(k: nat)
      requires Valid() && k < |queue| && queue[k].kind.FrameToApp?
      modifies this
      ensures Valid() && Reaches(old(world), world)
      ensures var (w, p) := (old(world), old(world).inflight[k]);
        world == Routed(Taken(w, k), w.nextHandle, p.batch, p.ts, p.fs)
      ensures WellRouted(old(world), world, k)
    {
      hide WellRouted;
      RoutingRuns(world, k);
      RoutedIsWellRouted(world, k);
      ghost var w := world;
      var batch, ts, handles := TakeFrames(k);
      OnFrames(batch, ts, handles, w.nextHandle);
      ReachesFurther(START, w, world);
    }

    /** A parcel for BnCameraRecordingProxyListener: the recorder takes the handles over. */
    method DeliverToRecorder(k: nat)
      requires Valid() && k < |queue| && queue[k].kind.FrameToRecorder?
      modifies this
      ensures Valid() && world == Step(old(world), Receive(k))
    {
      ghost var w := world;
      StepReaches(w, Receive(k));
      ReachesFurther(START, w, Step(w, Receive(k)));
      var batch, ts, handles := TakeFrames(k);
      recorderHeld := TakeOver(recorderHeld, handles, w.nextHandle);
      world := Step(w, Receive(k));
    }

    /** The app gives handles back: Camera::releaseRecordingFrameHandle(Batch). */
    method AppReleaseCall(batch: bool, handles: seq<NativeHandle>)
      requires Valid() && CanRelease(batch, IdsOf(handles), appHeld)
      requires Lookup(appHeld, IdsOf(handles)) == FramesOf(handles)
      modifies this
      ensures Valid() && Reaches(old(world), world)
      ensures var (w, hs) := (old(world), IdsOf(handles));
        world == Released(w.(appHeld := Drop(w.appHeld, hs)), hs, FramesOf(handles))
    {
      ghost var w, hs := world, IdsOf(handles);
      AppReleaseRuns(w, batch, hs);
      appHeld := Forget(appHeld, handles);
      BpCameraRelease(batch, handles);
      world := Released(w.(appHeld := Drop(w.appHeld, hs)), hs, FramesOf(handles));
      ReachesFurther(START, w, world);
    }

    /** The recorder gives handles back through the recording proxy. */
    method RecorderReleaseCall(batch: bool, handles: seq<NativeHandle>)
      requires Valid() && CanRelease(batch, IdsOf(handles), recorderHeld)
      requires Lookup(recorderHeld, IdsOf(handles)) == FramesOf(handles)
      modifies this
      ensures Valid() && Reaches(old(world), world)
      ensures var (w, hs) := (old(world), IdsOf(handles));
        world == ReleasedByRecorder(w.(recorderHeld := Drop(w.recorderHeld, hs)), hs, FramesOf(handles))
    {
      ghost var w, hs := world, IdsOf(handles);
      FullRecorderReleaseRuns(w, batch, hs);
      recorderHeld := Forget(recorderHeld, handles);
      BpRecordingProxyRelease(batch, handles);
      world := ReleasedByRecorder(w.(recorderHeld := Drop(w.recorderHeld, hs)), hs, FramesOf(handles));
      ReachesFurther(START, w, world);
    }

    /** A holder forgets the handles it has passed on. */
    method Forget(m: map<nat, nat>, handles: seq<NativeHandle>) returns (m': map<nat, nat>)
      ensures m' == Drop(m, IdsOf(handles))
    {
      m' := m;
      for i := 0 to |handles|
        invariant m' == Drop(m, IdsOf(handles)[..i])
      {
        m' := m' - {handles[i].id};
        assert IdsOf(handles)[..i + 1][..i] == IdsOf(handles)[..i];
      }
      assert IdsOf(handles)[..|handles|] == IdsOf(handles);
    }

    method SetCameraListener(isSet: bool)
      requires Valid()
      modifies this`mListener, this`world
      ensures Valid() && world == Step(old(world), SetListener(isSet))
    {
      StepReaches(world, SetListener(isSet));
      ReachesFurther(START, world, Step(world, SetListener(isSet)));
      mListener, world := isSet, Step(world, SetListener(isSet));
    }

    /** RecordingProxy::startRecording and Camera::stopRecording, as far as routing goes. */
    method SetRecording(on: bool)
      requires Valid()
      modifies this`mRecordingProxyListener, this`world
      ensures Valid() && world == Step(old(world), if on then StartRecording else StopRecording)
    {
      StepReaches(world, if on then StartRecording else StopRecording);
      ReachesFurther(START, world, Step(world, if on then StartRecording else StopRecording));
      mRecordingProxyListener, world := on, Step(world, if on then StartRecording else StopRecording);
    }
  }
}
