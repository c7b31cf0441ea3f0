/** In which order, and how full, the converting stream source of cmds/stagefright/stream.cpp hands
    its buffers over. */
module StreamOrder {
  import opened Parcels
  import opened StreamSource

  // ---------------------------------------------------------------- FIFO

  /** The indices the listener returns during a run, oldest first. */
  function Returns(es: seq<Event>): seq<nat> {
    if es == [] then []
    else (if es[0].BufferAvailable? then [es[0].index] else []) + Returns(es[1..])
  }

  /** The current buffer is the one picked last. */
  ghost predicate CurrentIsLastPicked(m: Monitor) {
    m.current >= 0 ==> m.picked != [] && m.picked[|m.picked| - 1] == m.current
  }

  /** Writing takes buffers from the front of the queue, returning one adds it at the back. */
  lemma StepKeepsOrder(s: System, e: Event)
    requires Inv(s) && Enabled(s, e) && CurrentIsLastPicked(s.m)
    ensures var m := Step(s, e).m;
      && m.picked + m.queue == s.m.picked + s.m.queue + (if e.BufferAvailable? then [e.index] else [])
      && s.m.picked <= m.picked && CurrentIsLastPicked(m)
  {
    hide Good, Overwrite;
    match e
    case WriteIteration =>
      QueueSplits(s.m);
      var m := Step(s, e).m;
      assert m.picked + m.queue + [] == m.picked + m.queue;
    case BufferAvailable(index) =>
      assert s.m.picked + s.m.queue + [index] == s.m.picked + (s.m.queue + [index]);
    case _ =>
      assert s.m.picked + s.m.queue + [] == s.m.picked + s.m.queue;
  }

  lemma QueueSplits(m: Monitor)
    requires CanWrite(m)
    ensures m.current < 0 ==> m.picked + [m.queue[0]] + m.queue[1..] == m.picked + m.queue
  {
    if m.current < 0 {
      assert m.queue == [m.queue[0]] + m.queue[1..];
    }
  }

  lemma {:induction false} RunKeepsOrder(s: System, es: seq<Event>)
    requires Inv(s) && IsRun(s, es) && CurrentIsLastPicked(s.m)
    ensures var m := Run(s, es).m;
      m.picked + m.queue == s.m.picked + s.m.queue + Returns(es) && CurrentIsLastPicked(m)
    decreases |es|
  {
    hide Step, Inv, Good;
    if es == [] {
      assert s.m.picked + s.m.queue + [] == s.m.picked + s.m.queue;
    } else {
      StepKeepsOrder(s, es[0]);
      StepKeepsInv(s, es[0]);
      RunKeepsOrder(Step(s, es[0]), es[1..]);
      var first := if es[0].BufferAvailable? then [es[0].index] else [];
      assert s.m.picked + s.m.queue + (first + Returns(es[1..])) == s.m.picked + s.m.queue + first + Returns(es[1..]);
    }
  }

  lemma InitialInv(memory: seq<seq<Byte>>)
    requires forall i :: 0 <= i < |memory| ==> 0 < |memory[i]|
    ensures Inv(Initial(memory))
  {
    var s0 := Initial(memory);
    forall i: nat | i < |memory|
      ensures InOnePlace(s0.m, i)
    {
    }
    assert s0.m.picked + s0.m.queue == [];
  }

  /** In every run the buffers filled so far, the last of which is current, and then the waiting ones
      are exactly the buffers the listener has returned, in the order in which it returned them. */
  lemma EveryRunFillsInOrder(memory: seq<seq<Byte>>, es: seq<Event>)
    requires forall i :: 0 <= i < |memory| ==> 0 < |memory[i]|
    requires IsRun(Initial(memory), es)
    ensures var m := Run(Initial(memory), es).m;
      && m.picked + m.queue == Returns(es)
      && (m.current >= 0 ==> m.picked != [] && m.picked[|m.picked| - 1] == m.current)
  {
    hide Inv;
    InitialInv(memory);
    RunKeepsOrder(Initial(memory), es);
    assert [] + [] + Returns(es) == Returns(es);
  }

  // ---------------------------------------------------------------- full buffers

  /** The buffer an iteration writes to, and the part of it that is filled before. */
  function Target(m: Monitor): int
    requires CanWrite(m)
  {
    if m.current >= 0 then m.current else m.queue[0]
  }

  function FilledBefore(m: Monitor): nat { if m.current >= 0 then m.offset else 0 }

  /** An iteration consumes as much as the buffer has room for.  It hands the buffer over when that
      fills it, all of it, and otherwise keeps it and hands over nothing; no other buffer is touched. */
  lemma WriteStepFillsBuffer(m: Monitor, data: seq<Byte>)
    requires Good(m) && CanWrite(m) && data != []
    ensures var (t, at) := (Target(m), FilledBefore(m));
      && 0 <= t < |m.memory| && at < |m.memory[t]|
      && var (m', n) := WriteStep(m, data);
         var room := |m.memory[t]| - at;
         && n == (if |data| < room then |data| else room)
         && |m'.memory| == |m.memory| && |m'.memory[t]| == |m.memory[t]|
         && (forall i :: 0 <= i < |m.memory| && i != t ==> m'.memory[i] == m.memory[i])
         && m'.memory[t][..at] == m.memory[t][..at] && m'.memory[t][at..at + n] == data[..n]
         && (|data| >= room ==>
               m'.current == -1 && m'.held == m.held[t := m'.memory[t]] && m'.delivered == m.delivered + m'.memory[t])
         && (|data| < room ==>
               m'.current == t && m'.offset == at + n && m'.held == m.held && m'.delivered == m.delivered)
         && m'.queue == (if m.current >= 0 then m.queue else m.queue[1..])
         && m'.eosCommands == m.eosCommands
  {
    TargetIsGood(m);
    hide Good;
    var (t, at) := (Target(m), FilledBefore(m));
    var p := Pick(m);
    var n := CopyLength(p, |data|);
    var region := m.memory[t];
    OverwriteMeans(region, at, data[..n]);
    var f := Fill(p, data[..n]);
    assert f.memory[t] == Overwrite(region, at, data[..n]);
    assert f.memory[t][..|f.memory[t]|] == f.memory[t];
  }

  lemma TargetIsGood(m: Monitor)
    requires Good(m) && CanWrite(m)
    ensures 0 <= Target(m) < |m.memory| && FilledBefore(m) < |m.memory[Target(m)]|
  {
    assert m.current < 0 ==> m.queue[0] in m.queue;
  }

  lemma OverwriteMeans(region: seq<Byte>, at: nat, bytes: seq<Byte>)
    requires at + |bytes| <= |region|
    ensures var r := Overwrite(region, at, bytes);
      && |r| == |region| && r[..at] == region[..at] && r[at..at + |bytes|] == bytes
      && r[at + |bytes|..] == region[at + |bytes|..]
  {
  }

  /** A returned buffer goes to the back of the queue.  Before the end of the stream nothing else
      happens; at the end the filled part of a current buffer is handed over as well. */
  lemma ReturnMeans(m: Monitor, index: nat, atEos: bool)
    requires Good(m) && index in m.held
    ensures var m' := AvailableStep(m, index, atEos);
      && m'.queue == m.queue + [index] && m'.memory == m.memory && m'.picked == m.picked
      && (!atEos || m.current < 0 ==>
            m'.current == m.current && m'.held == m.held - {index} && m'.delivered == m.delivered)
      && (!atEos ==> m'.offset == m.offset && m'.eosCommands == m.eosCommands)
      && (atEos ==> m'.eosCommands == m.eosCommands + 1)
      && (atEos && m.current >= 0 ==>
            var part := m.memory[m.current][..m.offset];
            m'.current == -1 && m'.held == (m.held - {index})[m.current := part] && m'.delivered == m.delivered + part)
  {
  }

  /** What the listener was promised in a buffer it holds: nothing yet, or all of it. */
  ghost predicate OnlyFull(m: Monitor) {
    forall i :: i in m.held ==> i < |m.memory| && (m.held[i] == [] || m.held[i] == m.memory[i])
  }

  lemma StepHandsOverFull(s: System, e: Event)
    requires Inv(s) && Enabled(s, e) && OnlyFull(s.m) && !s.atEos
    ensures OnlyFull(Step(s, e).m)
  {
    match e
    case WriteIteration =>
      WriteStepFillsBuffer(s.m, s.pending);
      assert InOnePlace(s.m, Target(s.m));
      assert s.m.current < 0 ==> s.m.queue[0] in s.m.queue;
      assert Target(s.m) !in s.m.held;
      OnlyFullAfterWrite(s.m, WriteStep(s.m, s.pending).0, Target(s.m));
    case _ =>
  }

  lemma OnlyFullAfterWrite(m: Monitor, m': Monitor, t: nat)
    requires OnlyFull(m) && |m'.memory| == |m.memory| && t < |m.memory| && t !in m.held
    requires forall i :: 0 <= i < |m.memory| && i != t ==> m'.memory[i] == m.memory[i]
    requires m'.held == m.held || m'.held == m.held[t := m'.memory[t]]
    ensures OnlyFull(m')
  {
  }

  lemma {:induction false} RunHandsOverFull(s: System, es: seq<Event>)
    requires Inv(s) && IsRun(s, es) && OnlyFull(s.m) && !Run(s, es).atEos
    ensures OnlyFull(Run(s, es).m)
    decreases |es|
  {
    hide Step, Inv, OnlyFull, Good;
    if es != [] {
      EosStays(Step(s, es[0]), es[1..]);
      EosStays(s, es);
      StepHandsOverFull(s, es[0]);
      StepKeepsInv(s, es[0]);
      RunHandsOverFull(Step(s, es[0]), es[1..]);
    }
  }

  lemma {:induction false} EosStays(s: System, es: seq<Event>)
    requires IsRun(s, es)
    ensures s.atEos ==> Run(s, es).atEos
    decreases |es|
  {
    hide Good, WriteStep, AvailableStep;
    if es != [] {
      EosStays(Step(s, es[0]), es[1..]);
    }
  }

  /** Until the writer reaches the end of its stream, only full buffers are ever handed over. */
  lemma OnlyFullBuffersBeforeTheEnd(memory: seq<seq<Byte>>, es: seq<Event>)
    requires forall i :: 0 <= i < |memory| ==> 0 < |memory[i]|
    requires IsRun(Initial(memory), es) && !Run(Initial(memory), es).atEos
    ensures var m := Run(Initial(memory), es).m;
      forall i :: i in m.held ==> i < |m.memory| && (m.held[i] == [] || m.held[i] == m.memory[i])
  {
    hide Inv;
    InitialInv(memory);
    RunHandsOverFull(Initial(memory), es);
  }
}
