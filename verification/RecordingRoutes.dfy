/** Who gets a frame: the routing of camera/Camera.cpp and of the ICamera* proxies and stubs, said of
    the parcels and of what each process holds. */
module RecordingRoutes {
  import opened Parcels
  import opened RecordingHandles

  /** The parcels in flight without the k-th. */
  function Others(w: World, k: nat): seq<Packet>
    requires k < |w.inflight|
  {
    w.inflight[..k] + w.inflight[k + 1..]
  }

  /** A process that held m now also holds one fresh handle, from `next` on, for each of these frames. */
  ghost predicate Gains(m: map<nat, nat>, m': map<nat, nat>, next: nat, fs: seq<nat>) {
    && (forall h: nat :: h in m' <==> h in m || next <= h < next + |fs|)
    && (forall h: nat :: h in m && !(next <= h < next + |fs|) ==> h in m' && m'[h] == m[h])
    && (forall i :: 0 <= i < |fs| ==> next + i in m' && m'[next + i] == fs[i])
  }

  lemma {:induction false} DupsAt(next: nat, fs: seq<nat>, i: nat)
    requires i < |fs|
    ensures next + i in Dups(next, fs) && Dups(next, fs)[next + i] == fs[i]
    decreases |fs|
  {
    if i < |fs| - 1 {
      DupsAt(next, fs[..|fs| - 1], i);
    }
  }

  lemma GainsDups(m: map<nat, nat>, next: nat, fs: seq<nat>)
    ensures Gains(m, m + Dups(next, fs), next, fs)
  {
    DupsKeys(next, fs);
    forall i | 0 <= i < |fs|
      ensures next + i in Dups(next, fs) && Dups(next, fs)[next + i] == fs[i]
    {
      DupsAt(next, fs, i);
    }
  }

  /** Frames for the app.  A registered recording proxy listener gets them, whatever the app's own
      listener is: they are forwarded unchanged, the app holds none of them, and its duplicates wait
      to be closed. */
  lemma RecorderComesFirst(w: World, k: nat)
    requires k < |w.inflight| && w.inflight[k].kind == FrameToApp && w.proxyListener
    requires |w.inflight[k].ts| == |w.inflight[k].fs| < TWO32
    ensures var (p, w') := (w.inflight[k], Step(w, Receive(k)));
      && w'.inflight == Others(w, k) + [Packet(w.nextTx, FrameToRecorder, p.batch, p.ts, p.fs)]
      && w'.appHeld == w.appHeld && w'.recorderHeld == w.recorderHeld && w'.returned == w.returned
      && |w'.closing| == |w.closing| + 1
      && w'.closing[|w.closing|].after == None
      && w'.closing[|w.closing|].handles == seq(|p.fs|, i => w.nextHandle + i)
  {
    hide Dups;
    CountSurvives(|w.inflight[k].ts|);
  }

  /** Without one, the app's listener keeps them: no parcel is sent. */
  lemma ListenerComesSecond(w: World, k: nat)
    requires k < |w.inflight| && w.inflight[k].kind == FrameToApp && !w.proxyListener && w.listener
    ensures var (p, w') := (w.inflight[k], Step(w, Receive(k)));
      && w'.inflight == Others(w, k) && Gains(w.appHeld, w'.appHeld, w.nextHandle, p.fs)
      && w'.recorderHeld == w.recorderHeld && w'.returned == w.returned && w'.closing == w.closing
  {
    hide Dups, Gains;
    GainsDups(w.appHeld, w.nextHandle, w.inflight[k].fs);
  }

  /** Without any listener they go straight back to the service. */
  lemma NobodyListening(w: World, k: nat)
    requires k < |w.inflight| && w.inflight[k].kind == FrameToApp && !w.proxyListener && !w.listener
    ensures var (p, w') := (w.inflight[k], Step(w, Receive(k)));
      && w'.inflight == Others(w, k) + [Packet(w.nextTx, ReleaseToService, p.batch, [], p.fs)]
      && w'.appHeld == w.appHeld && w'.recorderHeld == w.recorderHeld && w'.returned == w.returned
      && |w'.closing| == |w.closing| + 1
      && w'.closing[|w.closing|].after == Some(w.nextTx)
      && w'.closing[|w.closing|].handles == seq(|p.fs|, i => w.nextHandle + i)
  {
    hide Dups;
  }

  /** Frames for the recorder stay with it, frames released to the service with the service. */
  lemma LastHops(w: World, k: nat)
    requires k < |w.inflight|
    ensures var (p, w') := (w.inflight[k], Step(w, Receive(k)));
      && (p.kind == FrameToRecorder ==>
            w'.inflight == Others(w, k) && Gains(w.recorderHeld, w'.recorderHeld, w.nextHandle, p.fs)
            && w'.appHeld == w.appHeld && w'.returned == w.returned && w'.closing == w.closing && w'.done == w.done)
      && (p.kind == ReleaseToService ==>
            w'.inflight == Others(w, k) && Gains(w.returned, w'.returned, w.nextHandle, p.fs)
            && w'.appHeld == w.appHeld && w'.recorderHeld == w.recorderHeld && w'.closing == w.closing
            && w'.done == w.done + {p.tx})
  {
    hide Dups, Gains;
    GainsDups(w.recorderHeld, w.nextHandle, w.inflight[k].fs);
    GainsDups(w.returned, w.nextHandle, w.inflight[k].fs);
  }

  /** The recorder's release is passed on by the app to the service, with the same frames, and returns
      once that call has. */
  lemma AppPassesReleaseOn(w: World, k: nat)
    requires k < |w.inflight| && w.inflight[k].kind == ReleaseToApp
    ensures var (p, w') := (w.inflight[k], Step(w, Receive(k)));
      && w'.inflight == Others(w, k) + [Packet(w.nextTx, ReleaseToService, p.batch, [], p.fs)]
      && w'.appHeld == w.appHeld && w'.recorderHeld == w.recorderHeld && w'.returned == w.returned
      && |w'.closing| == |w.closing| + 1
      && w'.closing[|w.closing|]
         == Closing(seq(|p.fs|, i => w.nextHandle + i), Some(w.nextTx), Some(p.tx))
  {
    hide Dups;
  }

  /** The service sends its frames to the app; vectors of different length are not sent at all. */
  lemma ServiceSends(w: World, batch: bool, ts: seq<Int64>, fs: seq<nat>)
    requires Enabled(w, Send(batch, ts, fs))
    ensures var w' := Step(w, Send(batch, ts, fs));
      && (|ts| == |fs| ==>
            w'.inflight == w.inflight + [Packet(w.nextTx, FrameToApp, batch, ts, fs)] && w'.sent == w.sent + fs)
      && (|ts| != |fs| ==> w' == w)
  {
  }

  /** The app's release goes to the service and the recorder's to the app; the handles leave their
      holder, their frames are what the parcel carries, and they wait to be closed. */
  lemma Releases(w: World, batch: bool, hs: seq<nat>)
    ensures Enabled(w, AppRelease(batch, hs)) ==>
      var w' := Step(w, AppRelease(batch, hs));
      && LeavesFor(w, w', ReleaseToService, batch, hs, w.appHeld, w'.appHeld) && w'.recorderHeld == w.recorderHeld
    ensures Enabled(w, RecorderRelease(batch, hs)) ==>
      var w' := Step(w, RecorderRelease(batch, hs));
      && LeavesFor(w, w', ReleaseToApp, batch, hs, w.recorderHeld, w'.recorderHeld) && w'.appHeld == w.appHeld
  {
    hide Drop;
    DropKeys(w.appHeld, hs);
    DropKeys(w.recorderHeld, hs);
  }

  ghost predicate LeavesFor(w: World, w': World, kind: Kind, batch: bool, hs: seq<nat>, m: map<nat, nat>, m': map<nat, nat>) {
    && |w'.inflight| == |w.inflight| + 1 && w'.inflight[..|w.inflight|] == w.inflight
    && w'.inflight[|w.inflight|].kind == kind && w'.inflight[|w.inflight|].batch == batch
    && w'.inflight[|w.inflight|].tx == w.nextTx && |w'.inflight[|w.inflight|].fs| == |hs|
    && (forall i :: 0 <= i < |hs| ==> hs[i] in m && w'.inflight[|w.inflight|].fs[i] == m[hs[i]])
    && (forall h: nat :: h in m' <==> h in m && h !in hs) && (forall h :: h in m' ==> m'[h] == m[h])
    && w'.closing == w.closing + [Closing(hs, Some(w.nextTx), None)]
    && w'.returned == w.returned
  }

  /** A close loop closes exactly the handles of its call, once. */
  lemma CloseLoopCloses(w: World, k: nat)
    requires Enabled(w, Close(k))
    ensures var (c, w') := (w.closing[k], Step(w, Close(k)));
      && w'.closes == w.closes + c.handles && w'.closing == w.closing[..k] + w.closing[k + 1..]
      && w'.done == (if c.completes.Some? then w.done + {c.completes.value} else w.done)
      && w'.inflight == w.inflight && w'.appHeld == w.appHeld && w'.recorderHeld == w.recorderHeld
      && w'.returned == w.returned
  {
  }

  /** Who listens changes only where the code says so. */
  lemma ListenersChange(w: World, e: Event)
    requires Enabled(w, e)
    ensures Step(w, e).listener == if e.SetListener? then e.set_ else w.listener
    ensures Step(w, e).proxyListener == if e.StartRecording? then true else if e.StopRecording? then false else w.proxyListener
  {
    hide Dups, Drop, Lookup;
  }
}
