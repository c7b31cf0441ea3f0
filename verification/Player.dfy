/** The message-driven state machine of cmds/stagefright/SimplePlayer.cpp.

    All messages are handled one at a time by a looper.  A pump message (kWhatDoMoreStuff) carries
    a generation and posts itself again as long as that is the player's current one. */
module Player {
  import opened Media
  import opened Parcels

  datatype State = UNINITIALIZED | UNPREPARED | STOPPED | STARTED

  // ---------------------------------------------------------------- the tracks that get a codec

  /** The loop of onPrepare over the tracks: one audio and one video track are taken. */
  function Selected(tracks: seq<Mime>): seq<nat> {
    if tracks == [] then []
    else
      var (front, i) := (tracks[..|tracks| - 1], |tracks| - 1);
      if tracks[i] != Other && tracks[i] !in front then Selected(front) + [i] else Selected(front)
  }

  /** Exactly the first audio track and the first video track are taken. */
  lemma {:induction false} SelectedAreFirsts(tracks: seq<Mime>, i: nat)
    ensures i in Selected(tracks) <==> i < |tracks| && tracks[i] != Other && tracks[i] !in tracks[..i]
    decreases |tracks|
  {
    if tracks != [] {
      var front := tracks[..|tracks| - 1];
      SelectedAreFirsts(front, i);
      if i < |front| {
        assert front[..i] == tracks[..i];
      }
    }
  }

  lemma SelectedStep(tracks: seq<Mime>, i: nat)
    requires i < |tracks|
    ensures Selected(tracks[..i + 1])
         == if tracks[i] != Other && tracks[i] !in tracks[..i] then Selected(tracks[..i]) + [i] else Selected(tracks[..i])
    ensures forall m :: m in tracks[..i + 1] <==> m == tracks[i] || m in tracks[..i]
  {
    assert tracks[..i + 1][..i] == tracks[..i];
    assert tracks[..i + 1] == tracks[..i] + [tracks[i]];
  }

  method SelectTracks(tracks: seq<Mime>) returns (selected: seq<nat>)
    ensures selected == Selected(tracks)
  {
    selected := [];
    assert Selected(tracks[..0]) == [];
    hide Selected;
    var haveAudio, haveVideo := false, false;
    for i := 0 to |tracks|
      invariant selected == Selected(tracks[..i])
      invariant haveAudio <==> Audio in tracks[..i]
      invariant haveVideo <==> Video in tracks[..i]
    {
      SelectedStep(tracks, i);
      if !haveAudio && tracks[i] == Audio {
        haveAudio := true;
      } else if !haveVideo && tracks[i] == Video {
        haveVideo := true;
      } else {
        continue;
      }
      selected := selected + [i];
    }
    assert tracks[..|tracks|] == tracks;
  }

  // ---------------------------------------------------------------- the machine

  /** The player's fields and the pump messages that wait in the looper. */
  datatype Machine = Machine(
    state: State,
    generation: Int32,        // mDoMoreStuffGeneration
    hasPath: bool,
    hasSurface: bool,
    hasExtractor: bool,
    codecs: seq<nat>,         // mStateByTrackIndex: the tracks with a codec
    startTimeUs: int,         // mStartTimeRealUs, negative when unset
    pumps: seq<Int32>)        // the generations of the waiting pump messages

  const INITIAL := Machine(UNINITIALIZED, 0, false, false, false, [], -1, [])

  /** What is delivered; `source` is what the extractor finds, None if it cannot open the path. */
  datatype Message =
    | SetDataSource
    | SetSurface(surface: bool)
    | Prepare(source: Option<seq<Mime>>)
    | Start(source: Option<seq<Mime>>)
    | Stop
    | Reset
    | Pump(index: nat, nowUs: nat)

  /** The generation must not wrap, and a pump message has to be there to be delivered. */
  predicate Enabled(p: Machine, m: Message) {
    match m
    case Pump(index, _) => index < |p.pumps|
    case _ => p.generation < 0x7fff_ffff
  }

  function Prepared(p: Machine, source: Option<seq<Mime>>): Machine {
    if source.None? then p.(hasExtractor := false)
    else p.(hasExtractor := true, codecs := Selected(source.value), state := STOPPED)
  }

  function Started(p: Machine): Machine
    requires p.generation < 0x7fff_ffff
  {
    p.(generation := p.generation + 1, startTimeUs := -1, state := STARTED, pumps := p.pumps + [p.generation + 1])
  }

  function Stopped(p: Machine): Machine
    requires p.generation < 0x7fff_ffff
  {
    p.(generation := p.generation + 1, state := STOPPED)
  }

  function ResetAll(p: Machine): Machine {
    p.(startTimeUs := -1, codecs := [], hasExtractor := false, hasSurface := false, hasPath := false, state := UNINITIALIZED)
  }

  function Remove(pumps: seq<Int32>, i: nat): seq<Int32>
    requires i < |pumps|
  {
    pumps[..i] + pumps[i + 1..]
  }

  /** Whether the message makes onDoMoreStuff run. */
  predicate Works(p: Machine, m: Message) { m.Pump? && m.index < |p.pumps| && p.pumps[m.index] == p.generation }

  /** onMessageReceived: the machine afterwards and the reply, if the sender waits for one.  The
      reply of SetDataSource in the state where it is accepted is never set. */
  function Step(p: Machine, m: Message): (Machine, Option<Result<()>>)
    requires Enabled(p, m)
  {
    match m
    case SetDataSource =>
      if p.state != UNINITIALIZED then (p, Some(Err(InvalidOperation))) else (p.(hasPath := true, state := UNPREPARED), None)
    case SetSurface(surface) =>
      if p.state != UNPREPARED then (p, Some(Err(InvalidOperation))) else (p.(hasSurface := surface), Some(Ok(())))
    case Prepare(source) =>
      if p.state != UNPREPARED then (p, Some(Err(InvalidOperation)))
      else (Prepared(p, source), Some(if source.None? then Err(LibraryError) else Ok(())))
    case Start(source) =>
      var q := if p.state == UNPREPARED then Prepared(p, source) else p;
      if p.state == UNPREPARED && source.None? then (q, Some(Err(LibraryError)))
      else if q.state != STOPPED then (q, Some(Err(InvalidOperation)))
      else (Started(q), Some(Ok(())))
    case Stop =>
      if p.state != STARTED then (p, Some(Err(InvalidOperation))) else (Stopped(p), Some(Ok(())))
    case Reset =>
      var q := if p.state == STARTED then Stopped(p) else p;
      (if q.state == STOPPED then ResetAll(q) else q, Some(Ok(())))
    case Pump(index, nowUs) =>
      var q := p.(pumps := Remove(p.pumps, index));
      if !Works(p, m) then (q, None)
      else (q.(startTimeUs := if p.startTimeUs < 0 then nowUs + 1000000 else p.startTimeUs,
               pumps := q.pumps + [p.generation]), None)
  }

  // ---------------------------------------------------------------- the invariant

  function Count(pumps: seq<Int32>, generation: int): nat {
    if pumps == [] then 0 else (if pumps[0] == generation then 1 else 0) + Count(pumps[1..], generation)
  }

  lemma {:induction false} CountAppend(a: seq<Int32>, b: seq<Int32>, g: int)
    ensures Count(a + b, g) == Count(a, g) + Count(b, g)
    decreases |a|
  {
    if a == [] {
      assert a + b == b;
    } else {
      assert (a + b)[1..] == a[1..] + b;
      CountAppend(a[1..], b, g);
    }
  }

  lemma CountRemove(pumps: seq<Int32>, i: nat, g: int)
    requires i < |pumps|
    ensures Count(pumps, g) == Count(Remove(pumps, i), g) + (if pumps[i] == g then 1 else 0)
  {
    assert pumps == pumps[..i] + ([pumps[i]] + pumps[i + 1..]);
    CountAppend(pumps[..i], [pumps[i]] + pumps[i + 1..], g);
    CountAppend(pumps[..i], pumps[i + 1..], g);
    assert ([pumps[i]] + pumps[i + 1..])[1..] == pumps[i + 1..];
  }

  lemma {:induction false} CountNone(pumps: seq<Int32>, g: int)
    requires forall i :: 0 <= i < |pumps| ==> pumps[i] < g
    ensures Count(pumps, g) == 0
    decreases |pumps|
  {
    if pumps != [] {
      CountNone(pumps[1..], g);
    }
  }

  predicate NoneNewer(pumps: seq<Int32>, g: int) { forall i :: 0 <= i < |pumps| ==> pumps[i] <= g }

  /** Exactly one waiting pump message carries the current generation when STARTED, and none
      otherwise; codecs and the extractor exist only in STOPPED or STARTED. */
  predicate Inv(p: Machine) {
    && NoneNewer(p.pumps, p.generation)
    && Count(p.pumps, p.generation) == (if p.state == STARTED then 1 else 0)
    && (p.hasExtractor <==> p.state == STOPPED || p.state == STARTED)
    && (p.codecs != [] ==> p.state == STOPPED || p.state == STARTED)
    && (p.hasPath <==> p.state != UNINITIALIZED)
    && (p.hasSurface ==> p.state != UNINITIALIZED)
  }

  /** No waiting message has a generation that is still to come. */
  lemma NextGenerationIsFresh(p: Machine)
    requires Inv(p)
    ensures Count(p.pumps, p.generation + 1) == 0
  {
    hide Count;
    CountNone(p.pumps, p.generation + 1);
  }

  lemma StartedKeepsInv(p: Machine)
    requires Inv(p) && p.state == STOPPED && p.generation < 0x7fff_ffff
    ensures Inv(Started(p))
  {
    NextGenerationIsFresh(p);
    CountAppend(p.pumps, [p.generation + 1], p.generation + 1);
    assert [p.generation + 1][1..] == [];
  }

  lemma PumpKeepsInv(p: Machine, m: Message)
    requires Inv(p) && m.Pump? && Enabled(p, m)
    ensures Inv(Step(p, m).0)
  {
    CountRemove(p.pumps, m.index, p.generation);
    CountAppend(Remove(p.pumps, m.index), [p.generation], p.generation);
    assert [p.generation][1..] == [];
  }

  lemma StepKeepsInv(p: Machine, m: Message)
    requires Inv(p) && Enabled(p, m)
    ensures Inv(Step(p, m).0)
  {
    hide Count, Selected;
    match m
    case Start(source) =>
      var q := if p.state == UNPREPARED then Prepared(p, source) else p;
      if q.state == STOPPED {
        StartedKeepsInv(q);
      }
    case Stop => NextGenerationIsFresh(p);
    case Reset => NextGenerationIsFresh(p);
    case Pump(_, _) => PumpKeepsInv(p, m);
    case _ =>
  }

  // ---------------------------------------------------------------- whole runs

  predicate IsRun(p: Machine, ms: seq<Message>)
    decreases |ms|
  {
    ms == [] || (Enabled(p, ms[0]) && IsRun(Step(p, ms[0]).0, ms[1..]))
  }

  function Run(p: Machine, ms: seq<Message>): Machine
    requires IsRun(p, ms)
    decreases |ms|
  {
    if ms == [] then p else Run(Step(p, ms[0]).0, ms[1..])
  }

  lemma {:induction false} RunKeepsInv(p: Machine, ms: seq<Message>)
    requires Inv(p) && IsRun(p, ms)
    ensures Inv(Run(p, ms))
    decreases |ms|
  {
    if ms != [] {
      StepKeepsInv(p, ms[0]);
      RunKeepsInv(Step(p, ms[0]).0, ms[1..]);
    }
  }

  /** In every run from the start, whatever messages arrive and in whatever order the waiting pump
      messages are delivered. */
  lemma EveryRunKeepsOnePump(ms: seq<Message>)
    requires IsRun(INITIAL, ms)
    ensures var p := Run(INITIAL, ms);
      && Count(p.pumps, p.generation) == (if p.state == STARTED then 1 else 0)
      && (p.codecs != [] ==> p.state == STOPPED || p.state == STARTED)
  {
    RunKeepsInv(INITIAL, ms);
  }

  /** How often onDoMoreStuff runs. */
  function WorkDone(p: Machine, ms: seq<Message>): nat
    requires IsRun(p, ms)
    decreases |ms|
  {
    if ms == [] then 0 else (if Works(p, ms[0]) then 1 else 0) + WorkDone(Step(p, ms[0]).0, ms[1..])
  }

  lemma {:induction false} CountPositive(pumps: seq<Int32>, i: nat, g: int)
    requires i < |pumps| && pumps[i] == g
    ensures Count(pumps, g) > 0
    decreases |pumps|
  {
    if i > 0 {
      CountPositive(pumps[1..], i - 1, g);
    }
  }

  lemma WorksOnlyWhenStarted(p: Machine, m: Message)
    requires Inv(p) && Works(p, m)
    ensures p.state == STARTED
  {
    CountPositive(p.pumps, m.index, p.generation);
  }

  /** No pump step runs between a stop and the next start: from a state other than STARTED, no
      sequence of messages without a start makes onDoMoreStuff run. */
  lemma {:induction false} NoWorkUntilStart(p: Machine, ms: seq<Message>)
    requires Inv(p) && p.state != STARTED && IsRun(p, ms)
    requires forall i :: 0 <= i < |ms| ==> !ms[i].Start?
    ensures WorkDone(p, ms) == 0 && Run(p, ms).state != STARTED
    decreases |ms|
  {
    hide Inv, Works;
    if ms != [] {
      if Works(p, ms[0]) {
        WorksOnlyWhenStarted(p, ms[0]);
      }
      StepKeepsInv(p, ms[0]);
      StaysStopped(p, ms[0]);
      NoWorkUntilStart(Step(p, ms[0]).0, ms[1..]);
    }
  }

  lemma StaysStopped(p: Machine, m: Message)
    requires p.state != STARTED && !m.Start? && Enabled(p, m)
    ensures Step(p, m).0.state != STARTED
  {
  }

  /** The pump does not die while the player is started: its message can be delivered, works, and
      is waiting again afterwards. */
  lemma PumpLivesOn(p: Machine, nowUs: nat) returns (m: Message)
    requires Inv(p) && p.state == STARTED
    ensures Enabled(p, m) && m.Pump? && Works(p, m)
    ensures Step(p, m).0.state == STARTED && Step(p, m).0.startTimeUs >= 0
    ensures Count(Step(p, m).0.pumps, p.generation) == 1
  {
    var i := Find(p.pumps, p.generation);
    m := Pump(i, nowUs);
    PumpKeepsInv(p, m);
  }

  lemma {:induction false} Find(pumps: seq<Int32>, g: int) returns (i: nat)
    requires Count(pumps, g) > 0
    ensures i < |pumps| && pumps[i] == g
    decreases |pumps|
  {
    if pumps[0] == g {
      i := 0;
    } else {
      i := Find(pumps[1..], g);
      i := i + 1;
    }
  }

  /** Reset answers OK in every state, but goes back to UNINITIALIZED only from a prepared state:
      a player that has a source and was not prepared keeps it, and refuses another. */
  lemma ResetForgetsSourceIffPrepared(p: Machine)
    requires Inv(p) && p.generation < 0x7fff_fffe
    ensures Step(p, Reset).1 == Some(Ok(()))
    ensures Step(p, Reset).0.state == UNINITIALIZED <==> p.state != UNPREPARED
    ensures Step(p, Reset).0.hasPath <==> p.state == UNPREPARED
    ensures Step(Step(p, Reset).0, SetDataSource).1 == Some(Err(InvalidOperation)) <==> p.state == UNPREPARED
  {
    hide Count;
  }

  // ---------------------------------------------------------------- the class

  class SimplePlayer {
    var mState: State
    var mDoMoreStuffGeneration: Int32
    var mPath: bool
    var mSurface: bool
    var mExtractor: bool
    var mStateByTrackIndex: seq<nat>
    var mStartTimeRealUs: int
    var queue: seq<Int32>

    function Abs(): Machine
      reads this
    {
      Machine(mState, mDoMoreStuffGeneration, mPath, mSurface, mExtractor, mStateByTrackIndex, mStartTimeRealUs, queue)
    }

    constructor ()
      ensures Abs() == INITIAL && Inv(Abs())
    {
      mState, mDoMoreStuffGeneration, mStartTimeRealUs := UNINITIALIZED, 0, -1;
      mPath, mSurface, mExtractor, mStateByTrackIndex, queue := false, false, false, [], [];
    }

    method OnMessageReceived(m: Message) returns (reply: Option<Result<()>>)
      requires Inv(Abs()) && Enabled(Abs(), m)
      modifies this
      ensures (Abs(), reply) == Step(old(Abs()), m) && Inv(Abs())
    {
      hide Inv, Count, Selected;
      StepKeepsInv(Abs(), m);
      reply := None;
      match m
      case SetDataSource =>
        if mState != UNINITIALIZED {
          return Some(Err(InvalidOperation));
        }
        mPath := true;
        mState := UNPREPARED;
      case SetSurface(surface) =>
        if mState != UNPREPARED {
          return Some(Err(InvalidOperation));
        }
        mSurface := surface;
        reply := Some(Ok(()));
      case Prepare(source) =>
        if mState != UNPREPARED {
          return Some(Err(InvalidOperation));
        }
        var err := OnPrepare(source);
        if err.Ok? {
          mState := STOPPED;
        }
        reply := Some(err);
      case Start(source) =>
        if mState == UNPREPARED {
          var err := OnPrepare(source);
          if err.Err? {
            return Some(err);
          }
          mState := STOPPED;
        }
        if mState != STOPPED {
          return Some(Err(InvalidOperation));
        }
        OnStart();
        mState := STARTED;
        reply := Some(Ok(()));
      case Stop =>
        if mState != STARTED {
          return Some(Err(InvalidOperation));
        }
        OnStop();
        mState := STOPPED;
        reply := Some(Ok(()));
      case Reset =>
        if mState == STARTED {
          OnStop();
          mState := STOPPED;
        }
        if mState == STOPPED {
          OnReset();
          mState := UNINITIALIZED;
        }
        reply := Some(Ok(()));
      case Pump(index, nowUs) =>
        var generation := queue[index];
        queue := Remove(queue, index);
        if generation != mDoMoreStuffGeneration {
          return;
        }
        OnDoMoreStuff(nowUs);
        queue := queue + [generation];
    }

    /** The preconditions of these four are the CHECKs at their start. */
    method OnPrepare(source: Option<seq<Mime>>) returns (err: Result<()>)
      requires mState == UNPREPARED
      modifies this`mExtractor, this`mStateByTrackIndex
      ensures err == if source.None? then Err(LibraryError) else Ok(())
      ensures source.None? ==> !mExtractor && mStateByTrackIndex == old(mStateByTrackIndex)
      ensures source.Some? ==> mExtractor && mStateByTrackIndex == Selected(source.value)
    {
      mExtractor := true;
      if source.None? {
        mExtractor := false;
        return Err(LibraryError);
      }
      mStateByTrackIndex := SelectTracks(source.value);
      err := Ok(());
    }

    method OnStart()
      requires mState == STOPPED && mDoMoreStuffGeneration < 0x7fff_ffff
      modifies this`mStartTimeRealUs, this`mDoMoreStuffGeneration, this`queue
      ensures mStartTimeRealUs == -1 && mDoMoreStuffGeneration == old(mDoMoreStuffGeneration) + 1
      ensures queue == old(queue) + [mDoMoreStuffGeneration]
    {
      mStartTimeRealUs := -1;
      mDoMoreStuffGeneration := mDoMoreStuffGeneration + 1;
      queue := queue + [mDoMoreStuffGeneration];
    }

    method OnStop()
      requires mState == STARTED && mDoMoreStuffGeneration < 0x7fff_ffff
      modifies this`mDoMoreStuffGeneration
      ensures mDoMoreStuffGeneration == old(mDoMoreStuffGeneration) + 1
    {
      mDoMoreStuffGeneration := mDoMoreStuffGeneration + 1;
    }

    method OnReset()
      requires mState == STOPPED
      modifies this`mStartTimeRealUs, this`mStateByTrackIndex, this`mExtractor, this`mSurface, this`mPath
      ensures mStartTimeRealUs == -1 && mStateByTrackIndex == [] && !mExtractor && !mSurface && !mPath
    {
      mStartTimeRealUs := -1;
      mStateByTrackIndex, mExtractor, mSurface, mPath := [], false, false, false;
    }

    /** The part of onDoMoreStuff that touches the player's own state. */
    method OnDoMoreStuff(nowUs: nat)
      modifies this`mStartTimeRealUs
      ensures mStartTimeRealUs == if old(mStartTimeRealUs) < 0 then nowUs + 1000000 else old(mStartTimeRealUs)
    {
      if mStartTimeRealUs < 0 {
        mStartTimeRealUs := nowUs + 1000000;
      }
    }
  }
}
