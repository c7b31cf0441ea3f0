/** What every message does to the player of cmds/stagefright/SimplePlayer.cpp and what it answers,
    state by state, and what follows for runs. */
module PlayerAnswers {
  import opened Media
  import opened Parcels
  import opened Player

  // ---------------------------------------------------------------- the answers

  const OK_REPLY: Option<Result<()>> := Some(Ok(()))
  const INVALID: Option<Result<()>> := Some(Err(InvalidOperation))

  /** Stop is answered OK in STARTED only.  Then the player is stopped, its waiting pump message has
      become stale, and its codecs stay. */
  lemma StopStops(p: Machine)
    requires Inv(p) && Enabled(p, Stop)
    ensures var (p', reply) := Step(p, Stop);
      && (p.state == STARTED ==>
            && reply == OK_REPLY && p'.state == STOPPED
            && (forall i :: 0 <= i < |p'.pumps| ==> p'.pumps[i] != p'.generation)
            && p'.pumps == p.pumps && p'.codecs == p.codecs && p'.hasExtractor && p'.hasPath)
      && (p.state != STARTED ==> reply == INVALID && p' == p)
  {
  }

  /** Start is answered OK from STOPPED, and from UNPREPARED when the source can be opened.  Then the
      player is started, with a fresh generation that exactly the new pump message carries. */
  lemma StartStarts(p: Machine, source: Option<seq<Mime>>)
    requires Inv(p) && Enabled(p, Start(source))
    ensures var (p', reply) := Step(p, Start(source));
      && (p.state == STOPPED || (p.state == UNPREPARED && source.Some?) ==>
            && reply == OK_REPLY && p'.state == STARTED && p'.startTimeUs < 0
            && p'.pumps == p.pumps + [p'.generation]
            && (forall i :: 0 <= i < |p.pumps| ==> p.pumps[i] != p'.generation)
            && p'.hasExtractor)
      && (p.state == STOPPED ==> p'.codecs == p.codecs)
      && (p.state == UNPREPARED && source.Some? ==> CodecsFor(source.value, p'.codecs))
      && (p.state == UNPREPARED && source.None? ==> reply == Some(Err(LibraryError)) && p' == p)
      && (p.state == UNINITIALIZED || p.state == STARTED ==> reply == INVALID && p' == p)
  {
    hide Selected, Count, CodecsFor;
    if source.Some? {
      SelectedForSource(source.value);
    }
  }

  /** The first audio and the first video track have a codec, and no other. */
  ghost predicate CodecsFor(tracks: seq<Mime>, codecs: seq<nat>) {
    forall i: nat :: i in codecs <==>
      i < |tracks| && tracks[i] != Other && forall j :: 0 <= j < i ==> tracks[j] != tracks[i]
  }

  lemma SelectedForSource(tracks: seq<Mime>)
    ensures CodecsFor(tracks, Selected(tracks))
  {
    forall i: nat
      ensures i in Selected(tracks) <==>
        i < |tracks| && tracks[i] != Other && forall j :: 0 <= j < i ==> tracks[j] != tracks[i]
    {
      SelectedAreFirsts(tracks, i);
      if i < |tracks| {
        assert forall j :: 0 <= j < i ==> tracks[..i][j] == tracks[j];
      }
    }
  }

  /** Prepare is answered OK in UNPREPARED with a source that can be opened. */
  lemma PreparePrepares(p: Machine, source: Option<seq<Mime>>)
    requires Inv(p) && Enabled(p, Prepare(source))
    ensures var (p', reply) := Step(p, Prepare(source));
      && (p.state == UNPREPARED && source.Some? ==>
            reply == OK_REPLY && p'.state == STOPPED && p'.hasExtractor && CodecsFor(source.value, p'.codecs)
            && p'.pumps == p.pumps)
      && (p.state == UNPREPARED && source.None? ==> reply == Some(Err(LibraryError)) && p' == p)
      && (p.state != UNPREPARED ==> reply == INVALID && p' == p)
  {
    hide Selected, Count, CodecsFor;
    if source.Some? {
      SelectedForSource(source.value);
    }
  }

  /** A source is taken once; a surface only between that and prepare. */
  lemma SourceAndSurface(p: Machine, surface: bool)
    requires Inv(p) && Enabled(p, SetDataSource)
    ensures var (p', reply) := Step(p, SetDataSource);
      && (p.state == UNINITIALIZED ==> p' == p.(state := UNPREPARED, hasPath := true))
      && (p.state != UNINITIALIZED ==> reply == INVALID && p' == p)
    ensures var (p', reply) := Step(p, SetSurface(surface));
      && (p.state == UNPREPARED ==> reply == OK_REPLY && p' == p.(hasSurface := surface))
      && (p.state != UNPREPARED ==> reply == INVALID && p' == p)
  {
  }

  /** Reset clears a prepared player, started or not; its pump message becomes stale. */
  lemma ResetClears(p: Machine)
    requires Inv(p) && Enabled(p, Reset)
    ensures var (p', reply) := Step(p, Reset);
      && reply == OK_REPLY
      && (p.state == STOPPED || p.state == STARTED ==>
            && p'.state == UNINITIALIZED && p'.codecs == [] && p'.startTimeUs < 0
            && !p'.hasPath && !p'.hasSurface && !p'.hasExtractor
            && (forall i :: 0 <= i < |p'.pumps| ==> p'.pumps[i] != p'.generation))
      && (p.state == UNINITIALIZED || p.state == UNPREPARED ==> p' == p)
  {
    if p.state == STOPPED {
      forall i | 0 <= i < |p.pumps|
        ensures p.pumps[i] != p.generation
      {
        if p.pumps[i] == p.generation { CountPositive(p.pumps, i, p.generation); }
      }
    }
  }

  /** A pump message of the current generation does its work and waits again; the first one after a
      start sets the start time one second ahead, later ones keep it.  A stale one disappears. */
  lemma PumpWorksOrDisappears(p: Machine, index: nat, nowUs: nat)
    requires Inv(p) && index < |p.pumps|
    ensures var p' := Step(p, Pump(index, nowUs)).0;
      && p'.state == p.state && p'.generation == p.generation && p'.codecs == p.codecs
      && var others := p.pumps[..index] + p.pumps[index + 1..];
         && (p.pumps[index] != p.generation ==> p'.pumps == others && p'.startTimeUs == p.startTimeUs)
         && (p.pumps[index] == p.generation ==>
               && p'.pumps == others + [p.generation]
               && p'.startTimeUs == (if p.startTimeUs < 0 then nowUs + 1000000 else p.startTimeUs))
  {
  }

  // ---------------------------------------------------------------- runs

  /** From a stop on, nothing is done until the next start, whatever pump messages are waiting. */
  lemma NoWorkFromStopToStart(p: Machine, ms: seq<Message>)
    requires Inv(p) && p.state == STARTED && IsRun(p, [Stop] + ms)
    requires forall i :: 0 <= i < |ms| ==> !ms[i].Start?
    ensures WorkDone(p, [Stop] + ms) == 0
  {
    hide Inv, Works, Step;
    var all := [Stop] + ms;
    assert all[0] == Stop && all[1..] == ms;
    StopStops(p);
    StepKeepsInv(p, Stop);
    NoWorkUntilStart(Step(p, Stop).0, ms);
    assert !Works(p, Stop) by { StopIsNoPump(p); }
  }

  lemma StopIsNoPump(p: Machine)
    ensures !Works(p, Stop)
  {
  }

  /** A player that gets a source and is started plays: its pump message works, again and again. */
  lemma StartedPlayerPlays(tracks: seq<Mime>, nowUs: nat, laterUs: nat)
    ensures var ms := [SetDataSource, Start(Some(tracks)), Pump(0, nowUs), Pump(0, laterUs)];
      && IsRun(INITIAL, ms) && WorkDone(INITIAL, ms) == 2
      && Run(INITIAL, ms).state == STARTED && Run(INITIAL, ms).startTimeUs == nowUs + 1000000
      && CodecsFor(tracks, Run(INITIAL, ms).codecs)
  {
    hide Selected, CodecsFor;
    SelectedForSource(tracks);
    var p1 := INITIAL.(state := UNPREPARED, hasPath := true);
    var p2 := p1.(state := STARTED, hasExtractor := true, codecs := Selected(tracks), generation := 1, pumps := [1]);
    var p3 := p2.(startTimeUs := nowUs + 1000000);
    var m3, m2 := [Pump(0, laterUs)], [Pump(0, nowUs), Pump(0, laterUs)];
    var m1 := [Start(Some(tracks)), Pump(0, nowUs), Pump(0, laterUs)];
    assert Step(INITIAL, SetDataSource).0 == p1;
    assert Step(p1, Start(Some(tracks))).0 == p2;
    assert Step(p2, Pump(0, nowUs)).0 == p3;
    assert Step(p3, Pump(0, laterUs)).0 == p3;
    RunHead(p3, m3, []);
    RunHead(p2, m2, m3);
    RunHead(p1, m1, m2);
    RunHead(INITIAL, [SetDataSource, Start(Some(tracks)), Pump(0, nowUs), Pump(0, laterUs)], m1);
  }

  lemma RunHead(p: Machine, ms: seq<Message>, rest: seq<Message>)
    requires ms != [] && ms[1..] == rest && Enabled(p, ms[0])
    ensures IsRun(p, ms) <==> IsRun(Step(p, ms[0]).0, rest)
    ensures IsRun(p, ms) ==> Run(p, ms) == Run(Step(p, ms[0]).0, rest)
    ensures IsRun(p, ms) ==>
      WorkDone(p, ms) == (if Works(p, ms[0]) then 1 else 0) + WorkDone(Step(p, ms[0]).0, rest)
  {
    hide Step, Works;
  }
}
