/** The converting stream source of cmds/stagefright/stream.cpp.

    A writer thread packs a byte stream into a pool of shared buffers; the player's thread
    hands buffers back and, once the writer has reached the end of its stream, flushes the
    partly filled one.  Both threads work under one mutex that the writer drops between two
    iterations of its loop, so the unit of interleaving is one iteration.  `Monitor` is the
    state the mutex guards together with what the listener has been given; `System` adds the
    writer's locals and is what whole runs range over. */
module StreamSource {

  import opened Parcels

  // ---------------------------------------------------------------- the monitor

  datatype Monitor = Monitor(
    memory: seq<seq<Byte>>,        // mBuffers: the shared memory regions
    queue: seq<nat>,               // mBufferQueue
    current: int,                  // mCurrentBufferIndex, -1 for none
    offset: nat,                   // mCurrentBufferOffset
    held: map<nat, seq<Byte>>,     // listener: the buffers it holds and the bytes it was promised in each
    delivered: seq<Byte>,          // listener: all bytes handed over, in order
    eosCommands: nat,              // listener: number of EOS commands received
    available: seq<nat>,           // history: buffers made available, oldest first
    picked: seq<nat>)              // history: buffers the writer started to fill, oldest first

  predicate InRange(m: Monitor, i: int) { 0 <= i < |m.memory| }

  predicate Distinct(s: seq<nat>) { forall j, k :: 0 <= j < k < |s| ==> s[j] != s[k] }

  /** The part of the current buffer that has been filled but not handed over. */
  function CurrentPrefix(m: Monitor): seq<Byte>
    requires m.current >= 0 ==> InRange(m, m.current) && m.offset <= |m.memory[m.current]|
  {
    if m.current < 0 then [] else m.memory[m.current][..m.offset]
  }

  ghost predicate InOnePlace(m: Monitor, i: nat) {
    && (i in m.held ==> i !in m.queue && i != m.current)
    && (i in m.queue ==> i != m.current)
    && (i in m.held || i in m.queue || i == m.current)
  }

  /** Every buffer is with the listener, queued once, or current; a current buffer is neither
      empty nor full; the bytes promised in a held buffer are still in its memory; buffers are
      picked in the order in which they became available. */
  ghost predicate Good(m: Monitor) {
    && (forall i :: 0 <= i < |m.memory| ==> 0 < |m.memory[i]|)
    && -1 <= m.current < |m.memory|
    && (m.current >= 0 ==> 0 < m.offset < |m.memory[m.current]|)
    && Distinct(m.queue)
    && (forall i :: i in m.queue ==> i < |m.memory|)
    && (forall i :: i in m.held ==> i < |m.memory| && m.held[i] <= m.memory[i])
    && (forall i: nat :: i < |m.memory| ==> InOnePlace(m, i))
    && m.available == m.picked + m.queue
  }

  /** queueBuffer(mCurrentBufferIndex, mCurrentBufferOffset) and mCurrentBufferIndex = -1. */
  function HandOver(m: Monitor): Monitor
    requires InRange(m, m.current) && m.offset <= |m.memory[m.current]|
  {
    var bytes := m.memory[m.current][..m.offset];
    m.(held := m.held[m.current := bytes], delivered := m.delivered + bytes, current := -1)
  }

  predicate CanWrite(m: Monitor) { m.current >= 0 || m.queue != [] }

  /** The buffer the next iteration writes to is made current. */
  function Pick(m: Monitor): Monitor
    requires CanWrite(m)
  {
    if m.current >= 0 then m
    else m.(current := m.queue[0], offset := 0, queue := m.queue[1..], picked := m.picked + [m.queue[0]])
  }

  function CopyLength(m: Monitor, size: nat): nat
    requires InRange(m, m.current) && m.offset <= |m.memory[m.current]|
  {
    if size + m.offset > |m.memory[m.current]| then |m.memory[m.current]| - m.offset else size
  }

  function Overwrite(region: seq<Byte>, at: nat, bytes: seq<Byte>): seq<Byte>
    requires at + |bytes| <= |region|
  {
    region[..at] + bytes + region[at + |bytes|..]
  }

  function Fill(m: Monitor, bytes: seq<Byte>): Monitor
    requires InRange(m, m.current) && m.offset + |bytes| <= |m.memory[m.current]|
  {
    m.(memory := m.memory[m.current := Overwrite(m.memory[m.current], m.offset, bytes)],
       offset := m.offset + |bytes|)
  }

  /** One iteration of writeData's loop: the monitor afterwards and the number of bytes consumed. */
  function WriteStep(m: Monitor, data: seq<Byte>): (Monitor, nat)
    requires CanWrite(m) && Good(m)
  {
    assert m.current < 0 ==> m.queue[0] in m.queue;
    var p := Pick(m);
    var n := CopyLength(p, |data|);
    var f := Fill(p, data[..n]);
    (if f.offset == |f.memory[f.current]| then HandOver(f) else f, n)
  }

  /** onBufferAvailable(index), with `atEos` the answer of mWriter->reachedEOS(). */
  function AvailableStep(m: Monitor, index: nat, atEos: bool): Monitor
    requires m.current >= 0 ==> InRange(m, m.current) && m.offset <= |m.memory[m.current]|
  {
    var q := m.(queue := m.queue + [index], held := m.held - {index}, available := m.available + [index]);
    if !atEos then q
    else
      var f := if q.current >= 0 then HandOver(q) else q;
      f.(eosCommands := f.eosCommands + 1)
  }

  lemma PickKeepsPlaces(m: Monitor)
    requires Good(m) && CanWrite(m)
    ensures var p := Pick(m);
      && InRange(p, p.current) && p.offset < |p.memory[p.current]|
      && Distinct(p.queue) && p.available == p.picked + p.queue
      && (forall i :: i in p.queue ==> i < |p.memory|)
      && (forall i: nat :: i < |p.memory| ==> InOnePlace(p, i))
      && p.held == m.held && p.memory == m.memory && p.delivered == m.delivered
      && CurrentPrefix(p) == CurrentPrefix(m)
  {
    if m.current < 0 {
      var first, rest := m.queue[0], m.queue[1..];
      assert m.queue == [first] + rest;
      assert first in m.queue && forall i :: i in m.queue <==> i == first || i in rest;
      assert m.picked + m.queue == (m.picked + [first]) + rest;
      forall i: nat | i < |m.memory|
        ensures InOnePlace(Pick(m), i)
      {
        assert InOnePlace(m, i);
      }
    }
  }

  /** Every iteration keeps the invariant, consumes at least one byte, and what has been handed
      over plus what is in the current buffer grows by exactly the bytes consumed. */
  lemma WriteStepKeepsGood(m: Monitor, data: seq<Byte>)
    requires Good(m) && CanWrite(m) && data != []
    ensures var (m', n) := WriteStep(m, data);
      && Good(m')
      && 0 < n <= |data|
      && m'.delivered + CurrentPrefix(m') == m.delivered + CurrentPrefix(m) + data[..n]
  {
    var p := Pick(m);
    PickKeepsPlaces(m);
    var n := CopyLength(p, |data|);
    var f := Fill(p, data[..n]);
    assert f.memory[f.current][..f.offset] == p.memory[p.current][..p.offset] + data[..n];
    assert m.delivered + CurrentPrefix(m) + data[..n] == m.delivered + (CurrentPrefix(m) + data[..n]);
    assert InOnePlace(p, p.current);
    if f.offset == |f.memory[f.current]| {
      var h := HandOver(f);
      forall i: nat | i < |h.memory|
        ensures InOnePlace(h, i)
      {
        assert InOnePlace(p, i);
      }
    } else {
      forall i: nat | i < |f.memory|
        ensures InOnePlace(f, i)
      {
        assert InOnePlace(p, i);
      }
    }
  }

  /** Returning a held buffer keeps the invariant and loses no byte; at the end of the stream it
      leaves nothing behind in a current buffer. */
  lemma AvailableStepKeepsGood(m: Monitor, index: nat, atEos: bool)
    requires Good(m) && index in m.held
    ensures var m' := AvailableStep(m, index, atEos);
      && Good(m')
      && m'.delivered + CurrentPrefix(m') == m.delivered + CurrentPrefix(m)
      && (atEos ==> m'.current < 0 && m'.eosCommands == m.eosCommands + 1)
      && (!atEos ==> m'.eosCommands == m.eosCommands)
  {
    var q := m.(queue := m.queue + [index], held := m.held - {index}, available := m.available + [index]);
    assert InOnePlace(m, index);
    forall i: nat | i < |m.memory|
      ensures InOnePlace(q, i)
    {
      assert InOnePlace(m, i);
    }
    assert m.picked + m.queue + [index] == m.picked + (m.queue + [index]);
    var m' := AvailableStep(m, index, atEos);
    forall i: nat | i < |m.memory|
      ensures InOnePlace(m', i)
    {
      assert InOnePlace(q, i);
    }
  }

  // ---------------------------------------------------------------- whole runs

  /** The monitor with the single writer thread's locals and the history of what it was asked to write. */
  datatype System = System(
    m: Monitor,
    pending: seq<Byte>,      // writer: data[..size] of the writeData call in progress
    consumed: seq<Byte>,     // history: bytes writeData has taken
    requested: seq<Byte>,    // history: data of all writeData calls
    atEos: bool)             // mWriter->reachedEOS()

  datatype Event =
    | BeginWrite(data: seq<Byte>)
    | WriteIteration
    | BufferAvailable(index: nat)
    | ReachEos

  predicate Enabled(s: System, e: Event) {
    match e
    case BeginWrite(_) => s.pending == [] && !s.atEos
    case WriteIteration => s.pending != [] && CanWrite(s.m)
    case BufferAvailable(index) => index in s.m.held
    case ReachEos => s.pending == []
  }

  ghost function Step(s: System, e: Event): System
    requires Good(s.m) && Enabled(s, e)
  {
    match e
    case BeginWrite(data) => s.(pending := data, requested := s.requested + data)
    case WriteIteration =>
      var (m, n) := WriteStep(s.m, s.pending);
      WriteStepKeepsGood(s.m, s.pending);
      s.(m := m, pending := s.pending[n..], consumed := s.consumed + s.pending[..n])
    case BufferAvailable(index) => s.(m := AvailableStep(s.m, index, s.atEos))
    case ReachEos => s.(atEos := true)
  }

  /** Good, and the stream so far is accounted for byte by byte. */
  ghost predicate Inv(s: System) {
    && Good(s.m)
    && s.m.delivered + CurrentPrefix(s.m) == s.consumed
    && s.consumed + s.pending == s.requested
    && (s.atEos ==> s.pending == [])
    && (s.m.eosCommands > 0 ==> s.atEos && s.m.current < 0)
  }

  lemma StepKeepsInv(s: System, e: Event)
    requires Inv(s) && Enabled(s, e)
    ensures Inv(Step(s, e))
  {
    match e
    case BeginWrite(data) =>
      assert s.consumed + [] == s.requested;
    case WriteIteration =>
      WriteStepKeepsGood(s.m, s.pending);
      var n := WriteStep(s.m, s.pending).1;
      assert s.pending == s.pending[..n] + s.pending[n..];
      assert s.consumed + s.pending == s.consumed + s.pending[..n] + s.pending[n..];
    case BufferAvailable(index) =>
      AvailableStepKeepsGood(s.m, index, s.atEos);
    case ReachEos =>
  }

  /** The source before anything happened: the listener holds all buffers. */
  function Initial(memory: seq<seq<Byte>>): System {
    System(Monitor(memory, [], -1, 0, map i: nat | i < |memory| :: memory[i][..0], [], 0, [], []), [], [], [], false)
  }

  ghost predicate IsRun(s: System, es: seq<Event>)
    decreases |es|
  {
    es == [] || (Good(s.m) && Enabled(s, es[0]) && IsRun(Step(s, es[0]), es[1..]))
  }

  ghost function Run(s: System, es: seq<Event>): System
    requires IsRun(s, es)
    decreases |es|
  {
    if es == [] then s else Run(Step(s, es[0]), es[1..])
  }

  lemma {:induction false} RunKeepsInv(s: System, es: seq<Event>)
    requires Inv(s) && IsRun(s, es)
    ensures Inv(Run(s, es))
    decreases |es|
  {
    if es != [] {
      StepKeepsInv(s, es[0]);
      RunKeepsInv(Step(s, es[0]), es[1..]);
    }
  }

  /** In every interleaving, from the initial state: the bytes handed over followed by the filled
      prefix of the current buffer are exactly the bytes writeData has consumed; every buffer is in
      exactly one place; buffers are filled in FIFO order of availability; what the listener was
      promised in a buffer it holds is still there; and once EOS has been issued every byte ever
      requested has been delivered. */
  lemma EveryRunDeliversTheStream(memory: seq<seq<Byte>>, es: seq<Event>)
    requires forall i :: 0 <= i < |memory| ==> 0 < |memory[i]|
    requires IsRun(Initial(memory), es)
    ensures var s := Run(Initial(memory), es);
      && Good(s.m)
      && s.m.delivered + CurrentPrefix(s.m) == s.consumed
      && s.consumed + s.pending == s.requested
      && (s.m.eosCommands > 0 ==> s.m.delivered == s.requested)
  {
    var s0 := Initial(memory);
    forall i: nat | i < |memory|
      ensures InOnePlace(s0.m, i)
    {
    }
    assert s0.m.picked + s0.m.queue == [];
    RunKeepsInv(s0, es);
    var s := Run(s0, es);
    if s.m.eosCommands > 0 {
      assert s.m.delivered + [] == s.consumed && s.consumed + [] == s.requested;
    }
  }

  /** When the writer has reached the end and the listener holds no buffer, nothing happens any more. */
  lemma {:induction false} NothingHeldNothingHappens(s: System, es: seq<Event>)
    requires Inv(s) && s.atEos && s.m.held == map[]
    requires IsRun(s, es)
    ensures Run(s, es) == s
    decreases |es|
  {
    if es != [] {
      assert Step(s, es[0]) == s;
      NothingHeldNothingHappens(s, es[1..]);
    }
  }

  /** At the end of the stream the tail can still be flushed, and EOS issued, exactly when the
      listener holds a buffer at that moment: the flush only runs when a buffer comes back. */
  lemma EosReachableIffListenerHoldsABuffer(s: System)
    requires Inv(s) && s.atEos
    ensures (exists es :: IssuesEos(s, es)) <==> s.m.held != map[]
  {
    if s.m.held != map[] {
      var index :| index in s.m.held;
      ReturnIssuesEos(s, index);
    } else {
      forall es
        ensures !IssuesEos(s, es)
      {
        if IsRun(s, es) { NothingHeldNothingHappens(s, es); }
      }
    }
  }

  ghost predicate IssuesEos(s: System, es: seq<Event>) {
    IsRun(s, es) && Run(s, es).m.eosCommands > s.m.eosCommands
  }

  lemma ReturnIssuesEos(s: System, index: nat)
    requires Inv(s) && s.atEos && index in s.m.held
    ensures IssuesEos(s, [BufferAvailable(index)])
  {
    AvailableStepKeepsGood(s.m, index, true);
    RunCons(s, BufferAvailable(index), []);
    assert [BufferAvailable(index)] + [] == [BufferAvailable(index)];
  }

  lemma RunCons(s: System, e: Event, es: seq<Event>)
    requires Good(s.m) && Enabled(s, e)
    ensures IsRun(s, [e] + es) <==> IsRun(Step(s, e), es)
    ensures IsRun(s, [e] + es) ==> Run(s, [e] + es) == Run(Step(s, e), es)
  {
    assert ([e] + es)[1..] == es;
  }

  /** A failing family: with a single buffer, any nonempty stream shorter than it stays in the
      current buffer for good, and EOS is never issued. */
  lemma ShortStreamIsNeverDelivered(region: seq<Byte>, data: seq<Byte>, es: seq<Event>)
    requires 0 < |data| < |region|
    requires IsRun(Initial([region]),
                   [BufferAvailable(0)] + ([BeginWrite(data)] + ([WriteIteration] + ([ReachEos] + es))))
    ensures var s := Run(Initial([region]),
                         [BufferAvailable(0)] + ([BeginWrite(data)] + ([WriteIteration] + ([ReachEos] + es))));
      s.requested == data && s.m.delivered == [] && s.m.eosCommands == 0
  {
    var s0 := Initial([region]);
    assert InOnePlace(s0.m, 0);
    assert Inv(s0);
    StepKeepsInv(s0, BufferAvailable(0));
    RunCons(s0, BufferAvailable(0), [BeginWrite(data)] + ([WriteIteration] + ([ReachEos] + es)));
    var s1 := Step(s0, BufferAvailable(0));
    assert s1.m.queue == [0] && s1.m.held == map[];
    RunCons(s1, BeginWrite(data), [WriteIteration] + ([ReachEos] + es));
    StepKeepsInv(s1, BeginWrite(data));
    var s2 := Step(s1, BeginWrite(data));
    RunCons(s2, WriteIteration, [ReachEos] + es);
    StepKeepsInv(s2, WriteIteration);
    var s3 := Step(s2, WriteIteration);
    assert s3.pending == [] && s3.m.held == map[] && s3.m.delivered == [];
    RunCons(s3, ReachEos, es);
    StepKeepsInv(s3, ReachEos);
    NothingHeldNothingHappens(Step(s3, ReachEos), es);
  }

  // ---------------------------------------------------------------- the classes

  /** The remote IStreamListener: it remembers the buffers it holds and what it was given. */
  class Listener {
    var held: map<nat, seq<Byte>>
    var delivered: seq<Byte>
    var eosCommands: nat

    /** The listener starts out with all buffers. */
    constructor (buffers: seq<array<Byte>>)
      ensures forall i: nat :: i in held <==> i < |buffers|
      ensures forall i :: i in held ==> held[i] == []
      ensures delivered == [] && eosCommands == 0
    {
      held := map i: nat | i < |buffers| :: buffers[i][..0];
      delivered, eosCommands := [], 0;
    }

    method QueueBuffer(index: nat, bytes: seq<Byte>)
      modifies this
      ensures held == old(held)[index := bytes] && delivered == old(delivered) + bytes
      ensures eosCommands == old(eosCommands)
    {
      held, delivered := held[index := bytes], delivered + bytes;
    }

    method IssueEos()
      modifies this`eosCommands
      ensures eosCommands == old(eosCommands) + 1
    {
      eosCommands := eosCommands + 1;
    }
  }

  ghost predicate DistinctArrays(buffers: seq<array<Byte>>) {
    forall i, j :: 0 <= i < |buffers| && 0 <= j < |buffers| && i != j ==> buffers[i] != buffers[j]
  }

  class ConvertingStreamSource {
    const mListener: Listener
    const mBuffers: seq<array<Byte>>
    var mCurrentBufferIndex: int
    var mCurrentBufferOffset: nat
    var mBufferQueue: seq<nat>
    ghost var available: seq<nat>
    ghost var picked: seq<nat>

    ghost function Abs(): Monitor
      reads this, mListener, mBuffers
    {
      Monitor(seq(|mBuffers|, i requires 0 <= i < |mBuffers| reads mBuffers => mBuffers[i][..]),
              mBufferQueue, mCurrentBufferIndex, mCurrentBufferOffset,
              mListener.held, mListener.delivered, mListener.eosCommands, available, picked)
    }

    ghost predicate Valid()
      reads this, mListener, mBuffers
    {
      && (DistinctArrays(mBuffers))
      && Good(Abs())
    }

    /** The stream as far as it has been written: what was handed over and what is in the current buffer. */
    ghost function Written(): seq<Byte>
      requires Valid()
      reads this, mListener, mBuffers
    {
      Abs().delivered + CurrentPrefix(Abs())
    }

    /** setListener and setBuffers, before any buffer has been returned. */
    constructor (listener: Listener, buffers: seq<array<Byte>>)
      requires DistinctArrays(buffers)
      requires forall i :: 0 <= i < |buffers| ==> buffers[i].Length > 0
      requires forall i: nat :: i in listener.held <==> i < |buffers|
      requires forall i :: i in listener.held ==> listener.held[i] == []
      ensures Valid() && mListener == listener && mBuffers == buffers
      ensures mBufferQueue == [] && mCurrentBufferIndex == -1
    {
      mListener, mBuffers := listener, buffers;
      mCurrentBufferIndex, mCurrentBufferOffset, mBufferQueue := -1, 0, [];
      available, picked := [], [];
      new;
      forall i: nat | i < |mBuffers|
        ensures InOnePlace(Abs(), i)
      {
      }
    }

    method TakeBuffer()
      requires Valid() && CanWrite(Abs())
      modifies this
      ensures Abs() == Pick(old(Abs()))
      ensures old(mCurrentBufferIndex) < 0 ==>
        mCurrentBufferIndex == old(mBufferQueue[0]) && mCurrentBufferOffset == 0 && mBufferQueue == old(mBufferQueue[1..])
      ensures old(mCurrentBufferIndex) >= 0 ==>
        mCurrentBufferIndex == old(mCurrentBufferIndex) && mBufferQueue == old(mBufferQueue)
    {
      if mCurrentBufferIndex < 0 {
        picked := picked + [mBufferQueue[0]];
        mCurrentBufferIndex := mBufferQueue[0];
        mCurrentBufferOffset := 0;
        mBufferQueue := mBufferQueue[1..];
      }
    }

    /** memcpy into the current buffer. */
    method CopyIn(data: seq<Byte>)
      requires DistinctArrays(mBuffers)
      requires InRange(Abs(), mCurrentBufferIndex)
      requires mCurrentBufferOffset + |data| <= mBuffers[mCurrentBufferIndex].Length
      modifies this`mCurrentBufferOffset, mBuffers
      ensures Abs() == Fill(old(Abs()), data)
    {
      var mem := mBuffers[mCurrentBufferIndex];
      ghost var m := Abs();
      ghost var before := mem[..];
      assert m.memory[m.current] == before;
      forall i | 0 <= i < |data| {
        mem[mCurrentBufferOffset + i] := data[i];
      }
      assert mem[..] == Overwrite(before, mCurrentBufferOffset, data);
      mCurrentBufferOffset := mCurrentBufferOffset + |data|;
      forall i | 0 <= i < |mBuffers|
        ensures Abs().memory[i] == m.memory[m.current := mem[..]][i]
      {
        assert i != m.current ==> mBuffers[i] != mem;
      }
    }

    method QueueCurrent()
      requires InRange(Abs(), mCurrentBufferIndex)
      requires mCurrentBufferOffset <= mBuffers[mCurrentBufferIndex].Length
      modifies this`mCurrentBufferIndex, mListener
      ensures Abs() == HandOver(old(Abs()))
    {
      mListener.QueueBuffer(mCurrentBufferIndex, mBuffers[mCurrentBufferIndex][..mCurrentBufferOffset]);
      mCurrentBufferIndex := -1;
    }

    /** One pass through writeData's loop with mLock held; the caller has waited until a buffer
        is current or queued. */
    method WriteIteration(data: seq<Byte>) returns (copy: nat)
      requires Valid() && CanWrite(Abs()) && data != []
      modifies this, mListener, mBuffers
      ensures Valid() && (Abs(), copy) == WriteStep(old(Abs()), data)
    {
      WriteStepKeepsGood(Abs(), data);
      PickKeepsPlaces(Abs());
      TakeBuffer();
      var mem := mBuffers[mCurrentBufferIndex];
      assert mem.Length == |Abs().memory[mCurrentBufferIndex]|;
      copy := |data|;
      if copy + mCurrentBufferOffset > mem.Length {
        copy := mem.Length - mCurrentBufferOffset;
      }
      CopyIn(data[..copy]);
      assert mem.Length == |Abs().memory[mCurrentBufferIndex]|;
      if mCurrentBufferOffset == mem.Length {
        QueueCurrent();
      }
    }

    /** The same iteration, in terms of the stream. */
    method WriteNext(data: seq<Byte>) returns (copy: nat)
      requires Valid() && CanWrite(Abs()) && data != []
      modifies this, mListener, mBuffers
      ensures Valid() && 0 < copy <= |data|
      ensures Written() == old(Written()) + data[..copy]
      ensures mListener.eosCommands == old(mListener.eosCommands)
    {
      WriteStepKeepsGood(Abs(), data);
      ghost var m := Abs();
      copy := WriteIteration(data);
      assert Abs() == WriteStep(m, data).0;
    }

    method OnBufferAvailable(index: nat, reachedEos: bool)
      requires Valid() && index in mListener.held
      modifies this, mListener
      ensures Valid() && Abs() == AvailableStep(old(Abs()), index, reachedEos)
      ensures mBufferQueue == old(mBufferQueue) + [index]
    {
      AvailableStepKeepsGood(Abs(), index, reachedEos);
      mBufferQueue := mBufferQueue + [index];
      available := available + [index];
      mListener.held := mListener.held - {index};
      ghost var q := old(Abs()).(queue := mBufferQueue, held := mListener.held, available := available);
      assert Abs() == q;
      if reachedEos {
        if mCurrentBufferIndex >= 0 {
          assert mBuffers[mCurrentBufferIndex].Length == |q.memory[mCurrentBufferIndex]|;
          QueueCurrent();
        }
        mListener.IssueEos();
      }
      assert Abs() == AvailableStep(old(Abs()), index, reachedEos);
    }

    /** What the player's thread does while the writer does not hold mLock: it returns some of the
        buffers the listener holds.  The stream has not ended, as the writer is still writing. */
    method PlayerThread(returned: seq<nat>)
      requires Valid()
      modifies this, mListener
      ensures Valid() && Written() == old(Written())
      ensures mListener.eosCommands == old(mListener.eosCommands)
    {
      for k := 0 to |returned|
        invariant Valid() && Written() == old(Written())
        invariant mListener.eosCommands == old(mListener.eosCommands)
      {
        if returned[k] in mListener.held {
          AvailableStepKeepsGood(Abs(), returned[k], false);
          OnBufferAvailable(returned[k], false);
        }
      }
    }

    /** Lets the player's thread run, then waits on mCondition until a buffer is current or queued, or the schedule has ended. */
    method Await(schedule: seq<seq<nat>>, turn: nat) returns (next: nat)
      requires Valid() && turn <= |schedule|
      modifies this, mListener
      ensures Valid() && Written() == old(Written())
      ensures mListener.eosCommands == old(mListener.eosCommands)
      ensures next <= |schedule|
      ensures CanWrite(Abs()) || next == |schedule|
    {
      next := turn;
      if next < |schedule| {
        PlayerThread(schedule[next]);
        next := next + 1;
      }
      while mCurrentBufferIndex < 0 && mBufferQueue == [] && next < |schedule|
        invariant Valid() && Written() == old(Written())
        invariant mListener.eosCommands == old(mListener.eosCommands)
        invariant next <= |schedule|
        decreases |schedule| - next
      {
        PlayerThread(schedule[next]);
        next := next + 1;
      }
    }

    /** writeData.  `schedule` says what the player's thread does before each time the writer takes
        mLock or wakes up from mCondition; `blocked` is the case that the writer waits for ever,
        because the schedule ends while it has no buffer. */
    method WriteData(data: seq<Byte>, schedule: seq<seq<nat>>) returns (totalWritten: nat, blocked: bool)
      requires Valid()
      modifies this, mListener, mBuffers
      ensures Valid()
      ensures totalWritten <= |data| && Written() == old(Written()) + data[..totalWritten]
      ensures !blocked ==> totalWritten == |data|
      ensures blocked ==> totalWritten < |data| && !CanWrite(Abs())
      ensures mListener.eosCommands == old(mListener.eosCommands)
    {
      hide Good, CurrentPrefix;
      totalWritten, blocked := 0, false;
      var size: nat := |data|;
      var turn: nat := 0;
      while size > 0
        invariant Valid()
        invariant size + totalWritten == |data| && turn <= |schedule|
        invariant Written() == old(Written()) + data[..totalWritten]
        invariant mListener.eosCommands == old(mListener.eosCommands)
        decreases size
      {
        turn := Await(schedule, turn);
        if mCurrentBufferIndex < 0 && mBufferQueue == [] {
          return totalWritten, true;
        }
        var copy := WriteNext(data[totalWritten..]);
        assert data[..totalWritten] + data[totalWritten..][..copy] == data[..totalWritten + copy];
        size := size - copy;
        totalWritten := totalWritten + copy;
      }
      assert data[..totalWritten] == data;
    }
  }
}
