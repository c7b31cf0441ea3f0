/** The streaming trim of cmds/stagefright/muxer.cpp. */
module Trim {
  import opened Media
  import opened Parcels

  /** A sample as the extractor hands it out. */
  datatype Sample = Sample(track: nat, timeUs: int, sync: bool, data: seq<Byte>)

  /** A call of writeSampleData. */
  datatype Written = Written(track: nat, timeUs: int, sync: bool, data: seq<Byte>)

  /** enableTrim, trimStartTimeUs and trimEndTimeUs. */
  datatype Window = Window(enabled: bool, startUs: int, endUs: int)

  /** trimStarted and trimOffsetTimeUs. */
  datatype Trimming = Trimming(started: bool, offsetUs: int)

  const IDLE := Trimming(false, 0)

  /** The times on the command line are multiplied in 32 bits, so a window can be given exactly up to
      2147483 ms, a little less than 36 minutes; beyond that the product wraps (where the compiler
      lets a signed overflow wrap). */
  function Micros(ms: Int32): int { ToInt32(ms * 1000) }

  lemma MicrosExactIff(ms: Int32)
    ensures Micros(ms) == ms * 1000 <==> -2147483 <= ms <= 2147483
  {
    assert -0x8000_0000 <= ToInt32(ms * 1000) < 0x8000_0000;
  }

  // ---------------------------------------------------------------- one sample

  predicate InWindow(w: Window, s: Sample) { w.startUs < s.timeUs <= w.endUs }

  /** The trim decision: a sync sample in the window turns trimming on, a sample after it off. */
  function Decide(w: Window, t: Trimming, s: Sample): Trimming {
    var on := if s.sync && w.enabled && InWindow(w, s) then
                Trimming(true, if t.started then t.offsetUs else s.timeUs)
              else t;
    if w.enabled && s.timeUs > w.endUs then on.(started := false) else on
  }

  predicate Writes(w: Window, t: Trimming) { !w.enabled || t.started }

  function Shifted(s: Sample, offsetUs: int): Written { Written(s.track, s.timeUs - offsetUs, s.sync, s.data) }

  // ---------------------------------------------------------------- all samples

  /** The trim state after these samples. */
  function After(w: Window, ss: seq<Sample>): Trimming {
    if ss == [] then IDLE else Decide(w, After(w, ss[..|ss| - 1]), ss[|ss| - 1])
  }

  function Output(w: Window, ss: seq<Sample>): seq<Written> {
    if ss == [] then []
    else
      var front, last := ss[..|ss| - 1], ss[|ss| - 1];
      var t := After(w, ss);
      Output(w, front) + if Writes(w, t) then [Shifted(last, t.offsetUs)] else []
  }

  /** Whether the i-th sample is written, and its time in the output. */
  predicate Kept(w: Window, ss: seq<Sample>, i: nat)
    requires i < |ss|
  {
    Writes(w, After(w, ss[..i + 1]))
  }

  function OutTime(w: Window, ss: seq<Sample>, i: nat): int
    requires i < |ss|
  {
    ss[i].timeUs - After(w, ss[..i + 1]).offsetUs
  }

  lemma AfterStep(w: Window, ss: seq<Sample>, i: nat)
    requires i < |ss|
    ensures After(w, ss[..i + 1]) == Decide(w, After(w, ss[..i]), ss[i])
  {
    assert ss[..i + 1][..i] == ss[..i];
  }

  /** With trimming on, a written sample is not after the end; a written sample whose predecessor
      was not written is a sync sample in the window with output time 0; and neighbours in a
      written run are shifted by the same amount. */
  lemma WrittenRuns(w: Window, ss: seq<Sample>, i: nat)
    requires w.enabled && i < |ss| && Kept(w, ss, i)
    ensures ss[i].timeUs <= w.endUs
    ensures i == 0 || !Kept(w, ss, i - 1) ==> ss[i].sync && InWindow(w, ss[i]) && OutTime(w, ss, i) == 0
    ensures i > 0 && Kept(w, ss, i - 1) ==> OutTime(w, ss, i) - OutTime(w, ss, i - 1) == ss[i].timeUs - ss[i - 1].timeUs
  {
    AfterStep(w, ss, i);
    if i > 0 {
      AfterStep(w, ss, i - 1);
    } else {
      assert ss[..0] == [];
    }
  }

  /** Every written run goes back to a sync sample with output time 0, with everything in between
      written and shifted alike. */
  lemma {:induction false} RunStart(w: Window, ss: seq<Sample>, i: nat) returns (a: nat)
    requires w.enabled && i < |ss| && Kept(w, ss, i)
    ensures a <= i && ss[a].sync && InWindow(w, ss[a])
    ensures forall k :: a <= k <= i ==> Kept(w, ss, k) && OutTime(w, ss, k) == ss[k].timeUs - ss[a].timeUs
    ensures a == 0 || !Kept(w, ss, a - 1)
    decreases i
  {
    WrittenRuns(w, ss, i);
    if i > 0 && Kept(w, ss, i - 1) {
      a := RunStart(w, ss, i - 1);
    } else {
      a := i;
    }
  }

  // ---------------------------------------------------------------- samples in order of time

  predicate Ascending(ss: seq<Sample>) { forall i, j :: 0 <= i < j < |ss| ==> ss[i].timeUs <= ss[j].timeUs }

  predicate Starts(w: Window, s: Sample) { s.sync && InWindow(w, s) }

  /** The first sync sample in the window, or the number of samples. */
  function FirstStart(w: Window, ss: seq<Sample>): (a: nat)
    ensures a <= |ss| && (a < |ss| ==> Starts(w, ss[a]))
    ensures forall k :: 0 <= k < a ==> !Starts(w, ss[k])
  {
    if ss == [] then 0 else if Starts(w, ss[0]) then 0 else 1 + FirstStart(w, ss[1..])
  }

  /** The number of samples up to the last one that is not after the end. */
  function UpToEnd(w: Window, ss: seq<Sample>): (n: nat)
    ensures n <= |ss| && (n > 0 ==> ss[n - 1].timeUs <= w.endUs)
    ensures forall k :: n <= k < |ss| ==> ss[k].timeUs > w.endUs
  {
    if ss == [] then 0 else if ss[|ss| - 1].timeUs <= w.endUs then |ss| else UpToEnd(w, ss[..|ss| - 1])
  }

  lemma {:induction false} NothingBeforeStart(w: Window, ss: seq<Sample>)
    requires w.enabled && forall k :: 0 <= k < |ss| ==> !Starts(w, ss[k])
    ensures After(w, ss) == IDLE && Output(w, ss) == []
    decreases |ss|
  {
    if ss != [] {
      NothingBeforeStart(w, ss[..|ss| - 1]);
    }
  }

  function ShiftAll(ss: seq<Sample>, offsetUs: int): seq<Written> {
    seq(|ss|, i requires 0 <= i < |ss| => Shifted(ss[i], offsetUs))
  }

  lemma {:induction false} BlockWhileInTime(w: Window, ss: seq<Sample>, a: nat)
    requires w.enabled && a < |ss| && Starts(w, ss[a])
    requires forall k :: 0 <= k < a ==> !Starts(w, ss[k])
    requires forall k :: a <= k < |ss| ==> ss[k].timeUs <= w.endUs
    ensures After(w, ss) == Trimming(true, ss[a].timeUs)
    ensures Output(w, ss) == ShiftAll(ss[a..], ss[a].timeUs)
    decreases |ss|
  {
    var front := ss[..|ss| - 1];
    if a == |ss| - 1 {
      NothingBeforeStart(w, front);
      assert ss[a..] == [ss[a]];
    } else {
      BlockWhileInTime(w, front, a);
      assert ss[a..] == front[a..] + [ss[|ss| - 1]];
    }
  }

  lemma {:induction false} NothingAfterEnd(w: Window, ss: seq<Sample>, n: nat)
    requires w.enabled && n <= |ss| && forall k :: n <= k < |ss| ==> ss[k].timeUs > w.endUs
    ensures Output(w, ss) == Output(w, ss[..n])
    decreases |ss|
  {
    if n == |ss| {
      assert ss[..n] == ss;
    } else {
      var front := ss[..|ss| - 1];
      assert front[..n] == ss[..n];
      NothingAfterEnd(w, front, n);
    }
  }

  /** When sample times never go back, the output is exactly the contiguous block from the first
      sync sample in (start, end] to the last sample that is not after the end, shifted by one
      constant; without such a sync sample it is empty. */
  lemma TrimIsOneBlock(w: Window, ss: seq<Sample>)
    requires w.enabled && Ascending(ss)
    ensures var (a, n) := (FirstStart(w, ss), UpToEnd(w, ss));
      && (a == |ss| ==> Output(w, ss) == [])
      && (a < |ss| ==> a < n && Output(w, ss) == ShiftAll(ss[a..n], ss[a].timeUs))
  {
    hide After, Output, ShiftAll;
    var (a, n) := (FirstStart(w, ss), UpToEnd(w, ss));
    if a == |ss| {
      NothingBeforeStart(w, ss);
    } else {
      assert a < n;
      NothingAfterEnd(w, ss, n);
      BlockUpTo(w, ss, a, n);
    }
  }

  lemma BlockUpTo(w: Window, ss: seq<Sample>, a: nat, n: nat)
    requires w.enabled && Ascending(ss) && a < n <= |ss| && Starts(w, ss[a]) && ss[n - 1].timeUs <= w.endUs
    requires forall k :: 0 <= k < a ==> !Starts(w, ss[k])
    ensures Output(w, ss[..n]) == ShiftAll(ss[a..n], ss[a].timeUs)
  {
    hide After, Output, ShiftAll;
    var block := ss[..n];
    assert block[a..] == ss[a..n];
    forall k | a <= k < |block|
      ensures block[k].timeUs <= w.endUs
    {
      assert k < n - 1 ==> ss[k].timeUs <= ss[n - 1].timeUs;
    }
    BlockWhileInTime(w, block, a);
  }

  // ---------------------------------------------------------------- a sync sample at the start time

  /** The first sync sample that is neither before the start nor after the end, or the number of samples. */
  function FirstFromStart(w: Window, ss: seq<Sample>): (p: nat)
    ensures p <= |ss| && (p < |ss| ==> ss[p].sync && w.startUs <= ss[p].timeUs <= w.endUs)
    ensures forall k :: 0 <= k < p ==> !(ss[k].sync && w.startUs <= ss[k].timeUs <= w.endUs)
  {
    if ss == [] then 0
    else if ss[0].sync && w.startUs <= ss[0].timeUs <= w.endUs then 0
    else 1 + FirstFromStart(w, ss[1..])
  }

  /** The output is the block from the first sync sample in [start, end] exactly when that sample is not
      at the start time itself: there the comparison is strict. */
  lemma BlockFromStartIffNotAtStart(w: Window, ss: seq<Sample>)
    requires w.enabled && Ascending(ss) && FirstFromStart(w, ss) < |ss|
    ensures var (p, n) := (FirstFromStart(w, ss), UpToEnd(w, ss));
      p < n && (Output(w, ss) == ShiftAll(ss[p..n], ss[p].timeUs) <==> ss[p].timeUs != w.startUs)
  {
    hide Output, FirstFromStart, FirstStart, UpToEnd;
    var (p, n, a) := (FirstFromStart(w, ss), UpToEnd(w, ss), FirstStart(w, ss));
    assert p < n;
    TrimIsOneBlock(w, ss);
    if ss[p].timeUs != w.startUs {
      assert Starts(w, ss[p]) && a == p;
    } else {
      assert a > p;
      assert |Output(w, ss)| < |ShiftAll(ss[p..n], ss[p].timeUs)|;
    }
  }

  /** A lone sync sample at the start time is not written at all. */
  lemma SyncSampleAtStartIsSkipped(w: Window, s: Sample)
    requires w.enabled && s.sync && s.timeUs == w.startUs
    ensures Output(w, [s]) == []
  {
    NothingBeforeStart(w, [s]);
  }

  /** So the start that is set back to 0, because it is after the end of a track, still loses a first
      sync sample at time 0. */
  lemma ResetStartLosesFirstSample(w: Window, ss: seq<Sample>)
    requires w.enabled && Ascending(ss) && ss != [] && ss[0].sync && ss[0].timeUs == 0 <= w.endUs
    ensures var (reset, n) := (w.(startUs := 0), UpToEnd(w, ss));
      Output(reset, ss) != ShiftAll(ss[..n], 0) && |Output(reset, ss)| < n
  {
    hide Output;
    var reset := w.(startUs := 0);
    UpToEndIgnoresStart(w, reset, ss);
    TrimIsOneBlock(reset, ss);
  }

  lemma {:induction false} UpToEndIgnoresStart(w: Window, v: Window, ss: seq<Sample>)
    requires w.endUs == v.endUs
    ensures UpToEnd(w, ss) == UpToEnd(v, ss)
    decreases |ss|
  {
    if ss != [] {
      UpToEndIgnoresStart(w, v, ss[..|ss| - 1]);
    }
  }

  /** Without trimming every sample is written unshifted. */
  lemma {:induction false} CopyWithoutTrim(w: Window, ss: seq<Sample>)
    requires !w.enabled
    ensures After(w, ss) == IDLE && Output(w, ss) == ShiftAll(ss, 0)
    decreases |ss|
  {
    if ss != [] {
      CopyWithoutTrim(w, ss[..|ss| - 1]);
      assert ShiftAll(ss, 0) == ShiftAll(ss[..|ss| - 1], 0) + [Shifted(ss[|ss| - 1], 0)];
    }
  }

  // ---------------------------------------------------------------- what is written of a sample

  /** What is written for a prefix of the samples is a prefix of what is written for all of them. */
  lemma {:induction false} OutputGrows(w: Window, ss: seq<Sample>, i: nat)
    requires i <= |ss|
    ensures Output(w, ss[..i]) <= Output(w, ss)
    decreases |ss|
  {
    if i == |ss| {
      assert ss[..i] == ss;
    } else {
      assert ss[..|ss| - 1][..i] == ss[..i];
      OutputGrows(w, ss[..|ss| - 1], i);
    }
  }

  /** A sample that is not kept adds nothing to the output.  A kept one is written once, behind what
      was written for the samples before it, with its own track, sync flag and data, and with its time
      less the time of the sync sample its written run goes back to. */
  lemma KeptSampleIsWritten(w: Window, ss: seq<Sample>, i: nat) returns (a: nat)
    requires w.enabled && i < |ss|
    ensures !Kept(w, ss, i) ==> Output(w, ss[..i + 1]) == Output(w, ss[..i])
    ensures Kept(w, ss, i) ==>
      && a <= i && ss[a].sync && w.startUs < ss[a].timeUs <= w.endUs
      && (forall k :: a <= k <= i ==> Kept(w, ss, k)) && (a == 0 || !Kept(w, ss, a - 1))
      && var (out, at) := (Output(w, ss), |Output(w, ss[..i])|);
         && at < |out| && |Output(w, ss[..i + 1])| == at + 1
         && out[at].timeUs == ss[i].timeUs - ss[a].timeUs
         && out[at].track == ss[i].track && out[at].sync == ss[i].sync && out[at].data == ss[i].data
  {
    a := 0;
    assert ss[..i + 1][..i] == ss[..i];
    if Kept(w, ss, i) {
      a := RunStart(w, ss, i);
      OutputGrows(w, ss, i + 1);
    }
  }

  /** TrimIsOneBlock, sample by sample. */
  lemma BlockSampleBySample(w: Window, ss: seq<Sample>)
    requires w.enabled && Ascending(ss) && FirstStart(w, ss) < |ss|
    ensures var (a, n, out) := (FirstStart(w, ss), UpToEnd(w, ss), Output(w, ss));
      && a < n <= |ss| && |out| == n - a
      && forall k :: 0 <= k < n - a ==>
           out[k].timeUs == ss[a + k].timeUs - ss[a].timeUs && out[k].track == ss[a + k].track
           && out[k].sync == ss[a + k].sync && out[k].data == ss[a + k].data
  {
    hide Output, FirstStart, UpToEnd;
    TrimIsOneBlock(w, ss);
  }

  /** CopyWithoutTrim, sample by sample. */
  lemma CopySampleBySample(w: Window, ss: seq<Sample>)
    requires !w.enabled
    ensures |Output(w, ss)| == |ss|
    ensures forall k :: 0 <= k < |ss| ==>
      var o := Output(w, ss)[k];
      o.timeUs == ss[k].timeUs && o.track == ss[k].track && o.sync == ss[k].sync && o.data == ss[k].data
  {
    hide Output;
    CopyWithoutTrim(w, ss);
  }

  // ---------------------------------------------------------------- the tracks

  /** A track of the input; `accepted` says whether the muxer takes it. */
  datatype Track = Track(mime: Mime, durationUs: int, accepted: bool)

  predicate Wanted(mime: Mime, useAudio: bool, useVideo: bool) {
    (mime == Audio && useAudio) || (mime == Video && useVideo)
  }

  /** The first audio track and the first video track, as far as they are asked for. */
  predicate IsChosen(tracks: seq<Track>, useAudio: bool, useVideo: bool, i: nat) {
    && i < |tracks| && Wanted(tracks[i].mime, useAudio, useVideo)
    && forall j :: 0 <= j < i ==> tracks[j].mime != tracks[i].mime
  }

  /** The loop over the tracks.  A start after the end of any chosen track is set back to 0. */
  method ChooseTracks(tracks: seq<Track>, useAudio: bool, useVideo: bool, w: Window)
    returns (mapped: set<nat>, corrected: Window)
    ensures forall i: nat :: i in mapped <==> IsChosen(tracks, useAudio, useVideo, i) && tracks[i].accepted
    ensures corrected == w || (w.enabled && corrected == w.(startUs := 0))
    ensures w.enabled && (exists i: nat :: IsChosen(tracks, useAudio, useVideo, i) && w.startUs > tracks[i].durationUs) ==>
      corrected.startUs == 0
    ensures (forall i: nat :: IsChosen(tracks, useAudio, useVideo, i) ==> w.startUs <= tracks[i].durationUs) ==> corrected == w
  {
    mapped, corrected := {}, w;
    var haveAudio, haveVideo := false, false;
    for i := 0 to |tracks|
      invariant haveAudio <==> useAudio && exists j :: 0 <= j < i && tracks[j].mime == Audio
      invariant haveVideo <==> useVideo && exists j :: 0 <= j < i && tracks[j].mime == Video
      invariant forall j: nat :: j in mapped <==> j < i && IsChosen(tracks, useAudio, useVideo, j) && tracks[j].accepted
      invariant corrected == w || (w.enabled && corrected == w.(startUs := 0))
      invariant w.enabled && (exists j: nat :: j < i && IsChosen(tracks, useAudio, useVideo, j) && w.startUs > tracks[j].durationUs) ==>
        corrected.startUs == 0
      invariant corrected == w || exists j: nat :: j < i && IsChosen(tracks, useAudio, useVideo, j) && w.startUs > tracks[j].durationUs
    {
      if useAudio && !haveAudio && tracks[i].mime == Audio {
        haveAudio := true;
      } else if useVideo && !haveVideo && tracks[i].mime == Video {
        haveVideo := true;
      } else {
        continue;
      }
      assert IsChosen(tracks, useAudio, useVideo, i);
      if w.enabled && corrected.startUs > tracks[i].durationUs {
        corrected := corrected.(startUs := 0);
      }
      if tracks[i].accepted {
        mapped := mapped + {i};
      }
    }
  }

  /** The samples of the chosen tracks, in the order of the extractor. */
  function OnTracks(ss: seq<Sample>, mapped: set<nat>): seq<Sample> {
    if ss == [] then []
    else
      OnTracks(ss[..|ss| - 1], mapped) + if ss[|ss| - 1].track in mapped then [ss[|ss| - 1]] else []
  }

  lemma NextSample(w: Window, ss: seq<Sample>, s: Sample)
    ensures var t := Decide(w, After(w, ss), s);
      && After(w, ss + [s]) == t
      && Output(w, ss + [s]) == Output(w, ss) + if Writes(w, t) then [Shifted(s, t.offsetUs)] else []
  {
    assert (ss + [s])[..|ss|] == ss;
  }

  lemma NextOnTracks(ss: seq<Sample>, mapped: set<nat>, i: nat)
    requires i < |ss|
    ensures OnTracks(ss[..i + 1], mapped)
         == if ss[i].track in mapped then OnTracks(ss[..i], mapped) + [ss[i]] else OnTracks(ss[..i], mapped)
  {
    assert ss[..i + 1][..i] == ss[..i];
  }

  /** The sample loop of muxing. */
  method CopySamples(ss: seq<Sample>, mapped: set<nat>, w: Window) returns (out: seq<Written>)
    ensures out == Output(w, OnTracks(ss, mapped))
  {
    var trimStarted, trimOffsetTimeUs := false, 0;
    out := [];
    assert Output(w, OnTracks(ss[..0], mapped)) == [] && After(w, OnTracks(ss[..0], mapped)) == IDLE;
    hide After, Output, OnTracks, Shifted;
    for i := 0 to |ss|
      invariant out == Output(w, OnTracks(ss[..i], mapped))
      invariant Trimming(trimStarted, trimOffsetTimeUs) == After(w, OnTracks(ss[..i], mapped))
    {
      var s := ss[i];
      NextOnTracks(ss, mapped, i);
      if s.track !in mapped {
        continue;
      }
      NextSample(w, OnTracks(ss[..i], mapped), s);
      if s.sync {
        if w.enabled && s.timeUs > w.startUs && s.timeUs <= w.endUs {
          if !trimStarted {
            trimOffsetTimeUs := s.timeUs;
          }
          trimStarted := true;
        }
      }
      if w.enabled && s.timeUs > w.endUs {
        trimStarted := false;
      }
      if !w.enabled || trimStarted {
        out := out + [Shifted(s, trimOffsetTimeUs)];
      }
    }
    assert ss[..|ss|] == ss;
  }
}
