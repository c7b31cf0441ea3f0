/** Audio rendering of cmds/stagefright/SimplePlayer.cpp: 32-bit frame counters that wrap around,
    and the loop of onDoMoreStuff over the output buffers of an audio track. */
module AudioRender {
  import opened Arithmetic
  import opened Parcels

  // ---------------------------------------------------------------- the audio track

  /** AudioTrack: a ring of frameCount frames.  `written` and `played` count all frames ever, and
      `out` is every byte ever written. */
  datatype Track = Track(frameCount: nat, frameSize: nat, written: nat, played: nat, out: seq<Byte>)

  ghost predicate Sound(t: Track) {
    && t.frameSize > 0 && t.frameCount < TWO32
    && t.played <= t.written <= t.played + t.frameCount
    && |t.out| == t.written * t.frameSize
  }

  /** The frames written and not yet played. */
  function Backlog(t: Track): int { t.written - t.played }

  /** getPosition, and the player's mNumFramesWritten. */
  function Position(t: Track): UInt32 { ToUInt32(t.played) }
  function NumFramesWritten(t: Track): UInt32 { ToUInt32(t.written) }

  /** numFramesAvailableToWrite: the inner difference is of type uint32_t, the outer one of type
      size_t, and the result is cut to uint32_t. */
  function FreeFrames(frameCount: nat, numFramesWritten: UInt32, numFramesPlayed: UInt32): UInt32 {
    ToUInt32((frameCount - ToUInt32(numFramesWritten - numFramesPlayed)) % TWO64)
  }

  lemma WrappedDifference(a: nat, b: nat)
    requires b <= a < b + TWO32
    ensures ToUInt32(ToUInt32(a) - ToUInt32(b)) == a - b
  {
    Wrap32(a);
    Wrap32(b);
    var (qa, qb) := (a / TWO32, b / TWO32);
    var d := ToUInt32(a) - ToUInt32(b);
    assert a - b == (qa - qb) * TWO32 + d;
    assert qa == qb || qa == qb + 1;
    Wrap32Of(d);
  }

  lemma Wrap32(a: nat)
    ensures a == (a / TWO32) * TWO32 + ToUInt32(a)
  {
  }

  lemma Wrap32Of(d: int)
    requires -TWO32 < d < TWO32
    ensures ToUInt32(d) == if d < 0 then d + TWO32 else d
  {
  }

  lemma SmallWrap(d: nat)
    requires d < TWO32
    ensures ToUInt32(d % TWO64) == d
  {
  }

  /** The wrap-around formula gives the true free space, however often the counters have wrapped. */
  lemma FreeFramesIsTrueSpace(t: Track)
    requires Sound(t)
    ensures FreeFrames(t.frameCount, NumFramesWritten(t), Position(t)) == t.frameCount - Backlog(t)
  {
    hide ToUInt32;
    WrappedDifference(t.written, t.played);
    SmallWrap(t.frameCount - Backlog(t));
    assert 0 <= t.frameCount - Backlog(t) < TWO32;
  }

  // ---------------------------------------------------------------- renderAudio

  /** A BufferInfo with the bytes of its buffer; `start` is the offset it came with. */
  datatype Info = Info(index: nat, offset: nat, size: nat, timeUs: int, start: nat, bytes: seq<Byte>)

  ghost predicate WellFormed(i: Info, frameSize: nat) {
    && i.start <= i.offset && i.offset + i.size == |i.bytes|
    && frameSize > 0 && i.size % frameSize == 0 && (i.offset - i.start) % frameSize == 0
  }

  function Payload(i: Info): seq<Byte>
    requires i.start <= |i.bytes|
  {
    i.bytes[i.start..]
  }

  function Done(i: Info): seq<Byte>
    requires i.start <= i.offset <= |i.bytes|
  {
    i.bytes[i.start..i.offset]
  }

  /** numBytesAvailableToWrite. */
  function FreeBytes(t: Track): nat {
    FreeFrames(t.frameCount, NumFramesWritten(t), Position(t)) * t.frameSize
  }

  /** numFramesWritten, of one write. */
  function FramesOf(bytes: nat, frameSize: nat): nat
    requires frameSize > 0
  {
    bytes / frameSize
  }

  /** renderAudio: what the track and the buffer info are afterwards. */
  function Rendered(t: Track, i: Info): (Track, Info)
    requires t.frameSize > 0 && i.offset + i.size == |i.bytes|
  {
    var free := FreeBytes(t);
    var copy := if i.size > free then free else i.size;
    if copy == 0 then (t, i)
    else
      (t.(out := t.out + i.bytes[i.offset..i.offset + copy], written := t.written + FramesOf(copy, t.frameSize)),
       i.(offset := i.offset + copy, size := i.size - copy))
  }

  /** What one call copies is a whole number of frames, as many as there is room and data for. */
  lemma CopyIsFrames(t: Track, i: Info) returns (frames: nat)
    requires Sound(t) && WellFormed(i, t.frameSize)
    ensures frames <= t.frameCount - Backlog(t) && frames * t.frameSize <= i.size
    ensures Rendered(t, i) ==
      (t.(out := t.out + i.bytes[i.offset..i.offset + frames * t.frameSize], written := t.written + frames),
       i.(offset := i.offset + frames * t.frameSize, size := i.size - frames * t.frameSize))
    ensures frames == t.frameCount - Backlog(t) || frames * t.frameSize == i.size
  {
    hide FreeFrames;
    FreeFramesIsTrueSpace(t);
    var room: nat := t.frameCount - Backlog(t);
    MultipleOf(i.size, t.frameSize);
    var have := i.size / t.frameSize;
    frames := if i.size > room * t.frameSize then room else have;
    ProductMod(frames, t.frameSize);
    OrderOfProducts(t.frameSize, room, have);
    assert frames * t.frameSize == 0 ==> i.bytes[i.offset..i.offset] == [] && t.out + [] == t.out;
    assert frames * t.frameSize == 0 ==> frames == 0;
  }

  /** renderAudio keeps the backlog within frameCount, leaves mOffset + mSize alone, and writes
      exactly the bytes it moves mOffset over. */
  lemma RenderedKeepsSound(t: Track, i: Info)
    requires Sound(t) && WellFormed(i, t.frameSize)
    ensures var (t', i') := Rendered(t, i);
      && Sound(t') && t'.frameCount == t.frameCount && t'.frameSize == t.frameSize && t'.played == t.played
      && WellFormed(i', t.frameSize) && i'.offset + i'.size == i.offset + i.size
      && i'.(offset := i.offset, size := i.size) == i
      && i.offset <= i'.offset && t'.out == t.out + i.bytes[i.offset..i'.offset]
      && (i'.size == 0 || Backlog(t') == t.frameCount)
  {
    hide Rendered;
    var frames := CopyIsFrames(t, i);
    var n := frames * t.frameSize;
    MovedFrames(i.offset - i.start, i.size, t.written, frames, t.frameSize);
  }

  lemma MovedFrames(done: nat, size: nat, written: nat, frames: nat, frameSize: nat)
    requires frameSize > 0 && done % frameSize == 0 && size % frameSize == 0 && frames * frameSize <= size
    ensures (done + frames * frameSize) % frameSize == 0 && (size - frames * frameSize) % frameSize == 0
    ensures (written + frames) * frameSize == written * frameSize + frames * frameSize
  {
    ProductMod(frames, frameSize);
    SumMod(done, frames * frameSize, frameSize);
    SumMod(size, frames * frameSize, frameSize);
  }

  // ---------------------------------------------------------------- the output loop

  /** What became of a buffer that was given back to the codec, as its info was then. */
  datatype Fate = Shown(info: Info) | Dropped(info: Info)

  /** The output side of a codec state; a video track has no audio track. */
  datatype Output = Output(
    hasTrack: bool,
    track: Track,
    queue: seq<Info>,        // mAvailOutputBufferInfos
    history: seq<Fate>,      // history: the buffers given back
    arrived: seq<Info>)      // history: the buffers as they came from the codec

  const EARLY_US := -10000
  const LATE_US := 30000

  predicate Usable(o: Output) {
    o.track.frameSize > 0 && forall k :: 0 <= k < |o.queue| ==> o.queue[k].offset + o.queue[k].size == |o.queue[k].bytes|
  }

  /** The while loop over one track's output buffers. */
  function Pass(o: Output, nowUs: int, startUs: int): Output
    requires Usable(o)
    decreases |o.queue|
  {
    if o.queue == [] then o
    else
      var (info, rest) := (o.queue[0], o.queue[1..]);
      var lateByUs := nowUs - (info.timeUs + startUs);
      if lateByUs <= EARLY_US then o
      else if lateByUs > LATE_US then Pass(o.(queue := rest, history := o.history + [Dropped(info)]), nowUs, startUs)
      else if !o.hasTrack then Pass(o.(queue := rest, history := o.history + [Shown(info)]), nowUs, startUs)
      else
        var (t, i) := Rendered(o.track, info);
        if i.size > 0 then o.(track := t, queue := [i] + rest)
        else Pass(o.(track := t, queue := rest, history := o.history + [Shown(i)]), nowUs, startUs)
  }

  function Fresh(i: Info): Info
    requires i.start <= |i.bytes|
  {
    i.(offset := i.start, size := |i.bytes| - i.start)
  }

  /** The bytes written for the buffers given back. */
  function Bytes(history: seq<Fate>): seq<Byte>
    requires forall k :: 0 <= k < |history| ==> history[k].info.start <= history[k].info.offset <= |history[k].info.bytes|
  {
    if history == [] then [] else Bytes(history[..|history| - 1]) + Done(history[|history| - 1].info)
  }

  ghost predicate GoodHistory(o: Output) {
    forall k :: 0 <= k < |o.history| ==>
      WellFormed(o.history[k].info, o.track.frameSize)
      && (o.history[k].Shown? && o.hasTrack ==> o.history[k].info.size == 0)
  }

  ghost predicate GoodQueue(o: Output) {
    forall k :: 0 <= k < |o.queue| ==>
      WellFormed(o.queue[k], o.track.frameSize) && (k > 0 || !o.hasTrack ==> o.queue[k].offset == o.queue[k].start)
  }

  /** The part of the first waiting buffer that has been written. */
  function Started(o: Output): seq<Byte>
    requires o.queue != [] ==> o.queue[0].start <= o.queue[0].offset <= |o.queue[0].bytes|
  {
    if o.queue == [] then [] else Done(o.queue[0])
  }

  /** Buffers are given back or wait in the order of arrival, each of them once. */
  ghost predicate InOrder(o: Output)
    requires GoodHistory(o) && GoodQueue(o)
  {
    && |o.arrived| == |o.history| + |o.queue|
    && (forall k :: 0 <= k < |o.history| ==> o.arrived[k] == Fresh(o.history[k].info))
    && (forall k :: 0 <= k < |o.queue| ==> o.arrived[|o.history| + k] == Fresh(o.queue[k]))
  }

  /** The track is sound, buffers are in order, and the bytes written are exactly those of the
      buffers given back - all of a buffer that was shown, what had been written of one that was
      dropped - followed by the started part of the first waiting one. */
  ghost predicate Inv(o: Output) {
    && Sound(o.track) && GoodHistory(o) && GoodQueue(o) && InOrder(o)
    && o.track.out == Bytes(o.history) + Started(o)
  }

  lemma GiveBackOrder(o: Output, fate: Fate)
    requires GoodHistory(o) && GoodQueue(o) && InOrder(o) && o.queue != [] && fate.info == o.queue[0]
    requires fate.Shown? && o.hasTrack ==> fate.info.size == 0
    ensures var p := o.(queue := o.queue[1..], history := o.history + [fate]);
      GoodHistory(p) && GoodQueue(p) && InOrder(p)
  {
    hide WellFormed, Fresh;
  }

  lemma BytesOfMore(history: seq<Fate>, fate: Fate)
    requires forall k :: 0 <= k < |history| ==> history[k].info.start <= history[k].info.offset <= |history[k].info.bytes|
    requires fate.info.start <= fate.info.offset <= |fate.info.bytes|
    ensures Bytes(history + [fate]) == Bytes(history) + Done(fate.info)
  {
    assert (history + [fate])[..|history|] == history;
  }

  lemma BytesDefined(o: Output)
    requires GoodHistory(o)
    ensures forall k :: 0 <= k < |o.history| ==>
      o.history[k].info.start <= o.history[k].info.offset <= |o.history[k].info.bytes|
  {
  }

  /** The first waiting buffer is given back as it is. */
  lemma GiveBack(o: Output, fate: Fate)
    requires Inv(o) && o.queue != [] && fate.info == o.queue[0]
    requires fate.Shown? && o.hasTrack ==> fate.info.size == 0
    ensures Inv(o.(queue := o.queue[1..], history := o.history + [fate]))
  {
    hide InOrder, Sound, Bytes, GoodHistory;
    var p := o.(queue := o.queue[1..], history := o.history + [fate]);
    GiveBackOrder(o, fate);
    BytesDefined(o);
    BytesOfMore(o.history, fate);
    assert Started(p) == [];
    assert o.track.out + [] == o.track.out;
  }

  lemma ReplaceHead(o: Output, t: Track, i: Info)
    requires GoodHistory(o) && GoodQueue(o) && InOrder(o) && o.queue != [] && o.hasTrack
    requires WellFormed(i, o.track.frameSize) && t.frameSize == o.track.frameSize && i.bytes == o.queue[0].bytes
    requires i.(offset := o.queue[0].offset, size := o.queue[0].size) == o.queue[0]
    ensures var p := o.(track := t, queue := [i] + o.queue[1..]);
      GoodHistory(p) && GoodQueue(p) && InOrder(p)
  {
    hide WellFormed;
    var p := o.(track := t, queue := [i] + o.queue[1..]);
    assert Fresh(i) == Fresh(o.queue[0]);
    forall k | 0 <= k < |p.queue|
      ensures k > 0 ==> p.queue[k] == o.queue[k]
    {
    }
  }

  /** Audio of the first waiting buffer is rendered. */
  lemma RenderFirst(o: Output)
    requires Inv(o) && o.queue != [] && o.hasTrack
    ensures var (t, i) := Rendered(o.track, o.queue[0]);
      Inv(o.(track := t, queue := [i] + o.queue[1..]))
  {
    hide Rendered, Bytes, Sound, InOrder, GoodHistory;
    var head := o.queue[0];
    RenderedKeepsSound(o.track, head);
    var (t, i) := Rendered(o.track, head);
    ReplaceHead(o, t, i);
    BytesDefined(o);
    MoreDone(Bytes(o.history), head, i);
  }

  lemma MoreDone(before: seq<Byte>, i: Info, i': Info)
    requires i.start <= i.offset <= i'.offset <= |i.bytes| && i'.bytes == i.bytes && i'.start == i.start
    ensures before + Done(i) + i.bytes[i.offset..i'.offset] == before + Done(i')
  {
    assert Done(i') == Done(i) + i.bytes[i.offset..i'.offset];
  }

  lemma {:induction false} PassKeepsInv(o: Output, nowUs: int, startUs: int)
    requires Inv(o)
    ensures Usable(o) && Inv(Pass(o, nowUs, startUs))
    decreases |o.queue|
  {
    hide Rendered, Inv, Sound;
    UsableIfInv(o);
    if o.queue != [] {
      var (info, rest) := (o.queue[0], o.queue[1..]);
      var lateByUs := nowUs - (info.timeUs + startUs);
      if lateByUs <= EARLY_US {
      } else if lateByUs > LATE_US {
        GiveBack(o, Dropped(info));
        PassKeepsInv(o.(queue := rest, history := o.history + [Dropped(info)]), nowUs, startUs);
      } else if !o.hasTrack {
        GiveBack(o, Shown(info));
        PassKeepsInv(o.(queue := rest, history := o.history + [Shown(info)]), nowUs, startUs);
      } else {
        RenderFirst(o);
        var (t, i) := Rendered(o.track, info);
        var p := o.(track := t, queue := [i] + rest);
        if i.size <= 0 {
          GiveBack(p, Shown(i));
          assert p.queue[1..] == rest;
          PassKeepsInv(o.(track := t, queue := rest, history := o.history + [Shown(i)]), nowUs, startUs);
        }
      }
    }
  }

  lemma UsableIfInv(o: Output)
    requires Inv(o)
    ensures Usable(o)
  {
  }

  // ---------------------------------------------------------------- whole runs

  datatype Event = Arrive(info: Info) | Play(frames: nat) | RunPass(nowUs: int, startUs: int)

  /** The codec delivers whole frames, and the mixer plays no more than there is. */
  ghost predicate Enabled(o: Output, e: Event) {
    match e
    case Arrive(info) => WellFormed(info, o.track.frameSize) && info.offset == info.start
    case Play(frames) => frames <= Backlog(o.track)
    case RunPass(_, _) => true
  }

  ghost function Step(o: Output, e: Event): Output
    requires Inv(o) && Enabled(o, e)
  {
    match e
    case Arrive(info) => o.(queue := o.queue + [info], arrived := o.arrived + [info])
    case Play(frames) => o.(track := o.track.(played := o.track.played + frames))
    case RunPass(nowUs, startUs) =>
      UsableIfInv(o);
      Pass(o, nowUs, startUs)
  }

  lemma StepKeepsInv(o: Output, e: Event)
    requires Inv(o) && Enabled(o, e)
    ensures Inv(Step(o, e))
  {
    hide Pass, Bytes;
    match e
    case Arrive(info) =>
      var p := Step(o, e);
      if o.queue == [] {
        assert Done(info) == [];
      }
      assert Started(p) == Started(o);
    case Play(frames) =>
    case RunPass(nowUs, startUs) => PassKeepsInv(o, nowUs, startUs);
  }

  ghost predicate IsRun(o: Output, es: seq<Event>)
    decreases |es|
  {
    es == [] || (Inv(o) && Enabled(o, es[0]) && IsRun(Step(o, es[0]), es[1..]))
  }

  ghost function Run(o: Output, es: seq<Event>): Output
    requires IsRun(o, es)
    decreases |es|
  {
    if es == [] then o else Run(Step(o, es[0]), es[1..])
  }

  function Initial(hasTrack: bool, frameCount: nat, frameSize: nat): Output {
    Output(hasTrack, Track(frameCount, frameSize, 0, 0, []), [], [], [])
  }

  lemma {:induction false} RunKeepsInv(o: Output, es: seq<Event>)
    requires Inv(o) && IsRun(o, es)
    ensures Inv(Run(o, es))
    decreases |es|
  {
    hide Inv, Step;
    if es != [] {
      StepKeepsInv(o, es[0]);
      RunKeepsInv(Step(o, es[0]), es[1..]);
    }
  }

  /** In every run of arrivals, playing and passes of the loop: the true backlog stays within
      frameCount, buffers are given back in the order of arrival and once each, and the audio
      written is that of the buffers in that order, in full for every buffer that was not dropped. */
  lemma EveryRunWritesInOrder(hasTrack: bool, frameCount: nat, frameSize: nat, es: seq<Event>)
    requires frameSize > 0 && frameCount < TWO32 && IsRun(Initial(hasTrack, frameCount, frameSize), es)
    ensures var o := Run(Initial(hasTrack, frameCount, frameSize), es);
      && 0 <= Backlog(o.track) <= o.track.frameCount
      && GoodHistory(o) && GoodQueue(o) && InOrder(o) && o.track.out == Bytes(o.history) + Started(o)
      && (forall k :: 0 <= k < |o.history| && o.history[k].Shown? && hasTrack ==>
            Done(o.history[k].info) == Payload(o.history[k].info))
  {
    var o := Initial(hasTrack, frameCount, frameSize);
    assert Inv(o);
    RunKeepsInv(o, es);
    var r := Run(o, es);
    RunKeepsTrack(o, es);
    forall k | 0 <= k < |r.history| && r.history[k].Shown? && hasTrack
      ensures Done(r.history[k].info) == Payload(r.history[k].info)
    {
      assert r.history[k].info.offset == |r.history[k].info.bytes|;
    }
  }

  lemma {:induction false} PassKeepsTrack(o: Output, nowUs: int, startUs: int)
    requires Usable(o)
    ensures Pass(o, nowUs, startUs).hasTrack == o.hasTrack
    decreases |o.queue|
  {
    if o.queue != [] {
      var (info, rest) := (o.queue[0], o.queue[1..]);
      PassKeepsTrack(o.(queue := rest, history := o.history + [Dropped(info)]), nowUs, startUs);
      PassKeepsTrack(o.(queue := rest, history := o.history + [Shown(info)]), nowUs, startUs);
      var (t, i) := Rendered(o.track, info);
      PassKeepsTrack(o.(track := t, queue := rest, history := o.history + [Shown(i)]), nowUs, startUs);
    }
  }

  lemma {:induction false} RunKeepsTrack(o: Output, es: seq<Event>)
    requires Inv(o) && IsRun(o, es)
    ensures Run(o, es).hasTrack == o.hasTrack
    decreases |es|
  {
    hide Inv, Pass;
    if es != [] {
      StepKeepsInv(o, es[0]);
      UsableIfInv(o);
      if es[0].RunPass? {
        PassKeepsTrack(o, es[0].nowUs, es[0].startUs);
      }
      RunKeepsTrack(Step(o, es[0]), es[1..]);
    }
  }

  // ---------------------------------------------------------------- the classes

  /** The AudioTrack of the media framework, whose code is not part of this model. */
  class AudioTrack {
    var t: Track

    function GetPosition(): UInt32
      reads this
    {
      Position(t)
    }

    constructor (frameCount: nat, frameSize: nat)
      requires frameSize > 0 && frameCount < TWO32
      ensures t == Track(frameCount, frameSize, 0, 0, []) && Sound(t)
    {
      t := Track(frameCount, frameSize, 0, 0, []);
    }

    /** write takes whole frames that fit at once. */
    method Write(bytes: seq<Byte>) returns (nbytes: nat)
      requires Sound(t) && |bytes| % t.frameSize == 0 && |bytes| / t.frameSize <= t.frameCount - Backlog(t)
      modifies this
      ensures nbytes == |bytes|
      ensures t == old(t).(out := old(t).out + bytes, written := old(t).written + |bytes| / old(t).frameSize)
    {
      t := t.(out := t.out + bytes, written := t.written + |bytes| / t.frameSize);
      nbytes := |bytes|;
    }
  }

  class CodecState {
    var mAudioTrack: AudioTrack?
    var mNumFramesWritten: UInt32
    var mAvailOutputBufferInfos: seq<Info>
    ghost var released: seq<Fate>
    ghost var arrived: seq<Info>

    ghost function Abs(): Output
      reads this, mAudioTrack
    {
      Output(mAudioTrack != null, if mAudioTrack == null then Track(0, 1, 0, 0, []) else mAudioTrack.t,
             mAvailOutputBufferInfos, released, arrived)
    }

    ghost predicate Valid()
      reads this, mAudioTrack
    {
      Inv(Abs()) && (mAudioTrack != null ==> mNumFramesWritten == NumFramesWritten(mAudioTrack.t))
    }

    /** renderAudio. */
    method RenderAudio(info: Info) returns (r: Info)
      requires mAudioTrack != null && Sound(mAudioTrack.t) && WellFormed(info, mAudioTrack.t.frameSize)
      requires mNumFramesWritten == NumFramesWritten(mAudioTrack.t)
      modifies this`mNumFramesWritten, mAudioTrack
      ensures (mAudioTrack.t, r) == Rendered(old(mAudioTrack.t), info)
      ensures mNumFramesWritten == NumFramesWritten(mAudioTrack.t)
    {
      hide FreeFrames;
      ghost var frames := CopyIsFrames(mAudioTrack.t, info);
      ProductMod(frames, mAudioTrack.t.frameSize);
      var numFramesAvailableToWrite := FreeFrames(mAudioTrack.t.frameCount, mNumFramesWritten, mAudioTrack.GetPosition());
      var numBytesAvailableToWrite := numFramesAvailableToWrite * mAudioTrack.t.frameSize;
      var copy := info.size;
      if copy > numBytesAvailableToWrite {
        copy := numBytesAvailableToWrite;
      }
      if copy == 0 {
        return info;
      }
      var nbytes := mAudioTrack.Write(info.bytes[info.offset..info.offset + copy]);
      r := info.(offset := info.offset + nbytes, size := info.size - nbytes);
      AddWraps(NumFramesWritten(old(mAudioTrack.t)), old(mAudioTrack.t).written, nbytes / mAudioTrack.t.frameSize);
      mNumFramesWritten := ToUInt32(mNumFramesWritten + nbytes / mAudioTrack.t.frameSize);
    }

    /** The loop over the output buffers. */
    method OutputPass(nowUs: int, startUs: int)
      requires Valid()
      modifies this, mAudioTrack
      ensures Valid() && mAudioTrack == old(mAudioTrack)
      ensures Usable(old(Abs())) && Abs() == Pass(old(Abs()), nowUs, startUs)
    {
      hide Rendered, Inv, Sound, Usable;
      UsableIfInv(Abs());
      PassKeepsInv(Abs(), nowUs, startUs);
      ghost var goal := Pass(Abs(), nowUs, startUs);
      while mAvailOutputBufferInfos != []
        invariant Valid() && mAudioTrack == old(mAudioTrack)
        invariant Usable(Abs()) && Pass(Abs(), nowUs, startUs) == goal
        decreases |mAvailOutputBufferInfos|
      {
        ghost var o := Abs();
        var info := mAvailOutputBufferInfos[0];
        var lateByUs := nowUs - (info.timeUs + startUs);
        if lateByUs > EARLY_US {
          if lateByUs > LATE_US {
            GiveBack(o, Dropped(info));
            released := released + [Dropped(info)];
          } else {
            if mAudioTrack != null {
              HeadIsFine(o);
              RenderFirst(o);
              info := RenderAudio(info);
              mAvailOutputBufferInfos := [info] + mAvailOutputBufferInfos[1..];
              if info.size > 0 {
                break;
              }
            }
            GiveBack(Abs(), Shown(info));
            released := released + [Shown(info)];
          }
          mAvailOutputBufferInfos := mAvailOutputBufferInfos[1..];
          UsableIfInv(Abs());
        } else {
          break;
        }
      }
    }
  }

  lemma HeadIsFine(o: Output)
    requires Inv(o) && o.queue != []
    ensures Sound(o.track) && WellFormed(o.queue[0], o.track.frameSize)
  {
  }

  /** Adding to a wrapped counter wraps like the counter itself. */
  lemma AddWraps(wrapped: UInt32, a: nat, n: nat)
    requires wrapped == ToUInt32(a)
    ensures ToUInt32(wrapped + n) == ToUInt32(a + n)
  {
    Wrap32(a);
    Wrap32(a + n);
    Wrap32(wrapped + n);
    var q := (a + n) / TWO32 - (wrapped + n) / TWO32 - a / TWO32;
    assert q * TWO32 == ToUInt32(wrapped + n) - ToUInt32(a + n);
  }
}
