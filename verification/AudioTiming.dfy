/** Which audio buffers the player of cmds/stagefright/SimplePlayer.cpp drops, shows or keeps, in terms
    of how late they are. */
module AudioTiming {
  import opened Parcels
  import opened AudioRender

  /** How late a buffer is, negative when it is early. */
  function LateBy(i: Info, nowUs: int, startUs: int): int { nowUs - (i.timeUs + startUs) }

  /** A buffer given back by a pass at this time: it was no more than 10 ms early, and it was dropped
      exactly when it was more than 30 ms late. */
  predicate JudgedAt(f: Fate, nowUs: int, startUs: int) {
    && LateBy(f.info, nowUs, startUs) > -10000
    && (f.Dropped? <==> LateBy(f.info, nowUs, startUs) > 30000)
  }

  /** Why a pass stops in front of a buffer: it is early by 10 ms or more, or it is in time and has data
      left that the full track does not take. */
  ghost predicate Waits(o: Output, nowUs: int, startUs: int)
    requires o.queue != []
  {
    var late := LateBy(o.queue[0], nowUs, startUs);
    late <= -10000 || (late <= 30000 && o.hasTrack && o.queue[0].size > 0 && Backlog(o.track) == o.track.frameCount)
  }

  /** Every buffer a pass gives back is judged by its lateness, and it stops only in front of one that
      has to wait. */
  lemma {:induction false} PassJudges(o: Output, nowUs: int, startUs: int)
    requires Inv(o)
    ensures Usable(o)
    ensures var r := Pass(o, nowUs, startUs);
      && o.history <= r.history && r.hasTrack == o.hasTrack
      && (forall k :: |o.history| <= k < |r.history| ==> JudgedAt(r.history[k], nowUs, startUs))
      && (r.queue != [] ==> Waits(r, nowUs, startUs))
    decreases |o.queue|
  {
    hide Rendered, Inv, Sound, JudgedAt, Waits;
    UsableIfInv(o);
    if o.queue != [] {
      var (info, rest) := (o.queue[0], o.queue[1..]);
      var late := LateBy(info, nowUs, startUs);
      if late <= -10000 {
        assert Waits(o, nowUs, startUs) by { EarlyWaits(o, nowUs, startUs); }
      } else if late > 30000 {
        var f := Dropped(info);
        GiveBack(o, f);
        JudgedIs(f, nowUs, startUs);
        PassJudges(o.(queue := rest, history := o.history + [f]), nowUs, startUs);
      } else if !o.hasTrack {
        var f := Shown(info);
        GiveBack(o, f);
        JudgedIs(f, nowUs, startUs);
        PassJudges(o.(queue := rest, history := o.history + [f]), nowUs, startUs);
      } else {
        RenderFirst(o);
        RenderedHead(o);
        var (t, i) := Rendered(o.track, info);
        var p := o.(track := t, queue := [i] + rest);
        if i.size > 0 {
          FullWaits(p, nowUs, startUs);
        } else {
          var f := Shown(i);
          GiveBack(p, f);
          JudgedIs(f, nowUs, startUs);
          assert p.queue[1..] == rest;
          PassJudges(o.(track := t, queue := rest, history := o.history + [f]), nowUs, startUs);
        }
      }
    }
  }

  lemma JudgedIs(f: Fate, nowUs: int, startUs: int)
    ensures JudgedAt(f, nowUs, startUs) <==>
      LateBy(f.info, nowUs, startUs) > -10000 && (f.Dropped? <==> LateBy(f.info, nowUs, startUs) > 30000)
  {
  }

  lemma EarlyWaits(o: Output, nowUs: int, startUs: int)
    requires o.queue != [] && LateBy(o.queue[0], nowUs, startUs) <= -10000
    ensures Waits(o, nowUs, startUs)
  {
  }

  lemma FullWaits(o: Output, nowUs: int, startUs: int)
    requires o.queue != [] && LateBy(o.queue[0], nowUs, startUs) <= 30000
    requires o.hasTrack && o.queue[0].size > 0 && Backlog(o.track) == o.track.frameCount
    ensures Waits(o, nowUs, startUs)
  {
  }

  /** Rendering keeps a buffer's time, and stops short of its end only when the track is full. */
  lemma RenderedHead(o: Output)
    requires Inv(o) && o.queue != []
    ensures Usable(o)
    ensures var (t, i) := Rendered(o.track, o.queue[0]);
      && i.timeUs == o.queue[0].timeUs && (i.size == 0 || Backlog(t) == t.frameCount)
  {
    hide Rendered;
    RenderedKeepsSound(o.track, o.queue[0]);
  }

  // ---------------------------------------------------------------- whole runs

  /** For every buffer given back during a run, the times of the pass that did it. */
  ghost function Times(o: Output, es: seq<Event>): seq<(int, int)>
    requires IsRun(o, es)
    decreases |es|
  {
    if es == [] then []
    else
      var next := Step(o, es[0]);
      (if es[0].RunPass? && |next.history| >= |o.history| then
         seq(|next.history| - |o.history|, i => (es[0].nowUs, es[0].startUs))
       else [])
      + Times(next, es[1..])
  }

  lemma StepJudges(o: Output, e: Event)
    requires Inv(o) && Enabled(o, e)
    ensures var r := Step(o, e);
      && o.history <= r.history && (!e.RunPass? ==> r.history == o.history)
      && (e.RunPass? ==> forall k :: |o.history| <= k < |r.history| ==> JudgedAt(r.history[k], e.nowUs, e.startUs))
  {
    hide Inv, Pass, JudgedAt;
    UsableIfInv(o);
    if e.RunPass? {
      PassJudges(o, e.nowUs, e.startUs);
    }
  }

  /** In every run each buffer is given back by one pass, which drops it exactly when it is more than
      30 ms late at the time of that pass. */
  lemma {:induction false} EveryRunJudges(o: Output, es: seq<Event>)
    requires Inv(o) && IsRun(o, es)
    ensures var (r, ts) := (Run(o, es), Times(o, es));
      && o.history <= r.history && |r.history| == |o.history| + |ts|
      && forall k :: 0 <= k < |ts| ==> JudgedAt(r.history[|o.history| + k], ts[k].0, ts[k].1)
    decreases |es|
  {
    hide Inv, Step, JudgedAt;
    if es != [] {
      StepJudges(o, es[0]);
      StepKeepsInv(o, es[0]);
      var next := Step(o, es[0]);
      EveryRunJudges(next, es[1..]);
      var (r, ts) := (Run(o, es), Times(o, es));
      var added := |next.history| - |o.history|;
      forall k | 0 <= k < |ts|
        ensures JudgedAt(r.history[|o.history| + k], ts[k].0, ts[k].1)
      {
        if k < added {
          assert r.history[|o.history| + k] == next.history[|o.history| + k];
        } else {
          assert ts[k] == Times(next, es[1..])[k - added];
        }
      }
    }
  }
}
