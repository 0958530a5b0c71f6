/**
 * Properties of the Switch audio driver, stated over the abstract session
 * state.  The Session methods are proved to compute exactly these functions
 * (Write follows WriteSpec, Stop follows StopSpec, and so on), so every
 * property here holds of the methods as well.
 */
module SwitchAudioProps {
  import opened AudioService
  import opened SwitchAudio

  /** One second of 16-bit stereo audio is 192000 bytes; rounded up to whole 4 KiB pages that is 47 pages, 192512 bytes. */
  lemma BufferCapacity()
    ensures MaxNumSamples * NumChannels * SampleBytes == 192000
    ensures SampleBufferSize == 192512 == 47 * 0x1000
  {
  }

  /** While 48000 * latency fits in 32 bits, the flush threshold is 48 bytes per millisecond of latency. */
  lemma ThresholdPerMillisecond(latency: u32)
    requires latency <= 89478
    ensures FlushThreshold(latency) == 48 * latency
  {
    assert 48000 * latency == 1000 * (48 * latency);
    assert 48000 * latency < 0x1_0000_0000;
  }

  /** Example: 32 ms of latency allow 1536 buffered bytes. */
  lemma ThresholdAt32()
    ensures FlushThreshold(32) == 1536
  {
    ThresholdPerMillisecond(32);
  }

  /**
   * From 89479 ms on, 48000 * latency wraps around in unsigned arithmetic:
   * that latency flushes sooner than a latency of 1 ms does.
   */
  lemma ThresholdWraps()
    ensures FlushThreshold(89479) == 24 < FlushThreshold(1)
  {
    ThresholdPerMillisecond(1);
  }

  /**
   * From 4011 ms of latency up to the wrap, the threshold reaches the
   * capacity of a buffer, which no fill level passes: a write never submits
   * the current buffer, and once that buffer is full a write changes nothing
   * and consumes no byte, whatever the blocking mode.
   */
  lemma NeverFlushes(s: SessionState, buf: seq<bv8>)
    requires Inv(s) && s.current.Some? && 4011 <= s.latency <= 89478
    ensures FlushThreshold(s.latency) >= SampleBufferSize
    ensures WriteSpec(s, buf).0.output == s.output && WriteSpec(s, buf).0.current == s.current
    ensures s.pool[s.current.value].dataSize == SampleBufferSize ==> WriteSpec(s, buf) == (s, 0)
  {
    ThresholdPerMillisecond(s.latency);
    CheckoutKeeps(s);
    var c := s.current.value;
    DepositCopies(s, c, buf);
    if s.pool[c].dataSize == SampleBufferSize {
      var t := WriteSpec(s, buf).0;
      assert t.pool[c].sampleData == s.pool[c].sampleData;
      assert t.pool[c] == s.pool[c];
      assert t.pool == s.pool;
    }
  }

  /**
   * What checking out a buffer leaves alone: the flags and the latency
   * always; the whole state when a buffer is already checked out; the pool,
   * the queue and the absence of a current buffer when no buffer is got.
   */
  lemma CheckoutKeeps(s: SessionState)
    requires Inv(s)
    ensures var r := CheckoutSpec(s);
      && r.state.blocking == s.blocking && r.state.paused == s.paused && r.state.latency == s.latency
      && (s.current.Some? ==> r == Got(s, s.current.value))
      && (!r.Got? ==>
            && s.current.None?
            && r.state.pool == s.pool && r.state.current == None
            && r.state.output.queue == s.output.queue)
      && (r.Starved? ==> !s.blocking && r.state.output.log == s.output.log + [GetReleased])
  {
  }

  /**
   * A freshly checked-out buffer is the oldest one queued with the service:
   * it leaves the queue, its fill level is reset to 0 and its bytes and the
   * other buffers are untouched.
   */
  lemma FreshCheckout(s: SessionState)
    requires Inv(s) && s.current.None? && CheckoutSpec(s).Got?
    ensures var r := CheckoutSpec(s);
      && s.output.queue != [] && r.slot == s.output.queue[0]
      && r.state.output.queue == s.output.queue[1..]
      && r.state.pool[r.slot].dataSize == 0
      && r.state.pool[r.slot].sampleData == s.pool[r.slot].sampleData
      && (forall i :: 0 <= i < 3 && i != r.slot ==> r.state.pool[i] == s.pool[i])
  {
    var q := GetReleasedBuffer(s.output);
    if q.buffer.None? {
      var w := BlockLoop(q.out);
      assert w.buffer.Some?;
    }
  }

  /** The copy of a write into the checked-out buffer c, which held fill bytes. */
  ghost predicate Copied(u: OutputBuffer, t: OutputBuffer, buf: seq<bv8>, r: int)
    requires u.dataSize <= t.dataSize <= |u.sampleData| == |t.sampleData|
  {
    var fill, n := u.dataSize, t.dataSize - u.dataSize;
    && n <= |buf| && n <= SampleBufferSize - fill && (n == |buf| || n == SampleBufferSize - fill)
    && (r == -1 || r == n)
    && t.sampleData[fill..fill + n] == buf[..n]
    && t.sampleData[..fill] == u.sampleData[..fill]
    && t.sampleData[fill + n..] == u.sampleData[fill + n..]
  }

  /**
   * The bytes a write consumes: the fill level of the checked-out buffer
   * grows by the request cut to the space left, never past the capacity; the
   * write returns that count (or -1 when the submission fails); those bytes
   * of the request land right after the old fill level and no other byte,
   * and no other buffer, changes.
   */
  lemma WriteCopies(s: SessionState, buf: seq<bv8>)
    requires Inv(s) && CheckoutSpec(s).Got?
    ensures var u, c := CheckoutSpec(s).state, CheckoutSpec(s).slot;
      var (t, r) := WriteSpec(s, buf);
      && c < 3
      && u.pool[c].dataSize <= t.pool[c].dataSize <= SampleBufferSize
      && t.pool[c].bufferSize == SampleBufferSize
      && Copied(u.pool[c], t.pool[c], buf, r)
      && (forall i :: 0 <= i < 3 && i != c ==> t.pool[i] == u.pool[i])
  {
    DepositCopies(CheckoutSpec(s).state, CheckoutSpec(s).slot, buf);
  }

  /** The copy step of a write, into the checked-out buffer c. */
  lemma DepositCopies(u: SessionState, c: nat, buf: seq<bv8>)
    requires Inv(u) && u.current == Some(c)
    ensures var (t, r) := DepositSpec(u, c, buf);
      && c < 3
      && u.pool[c].dataSize <= t.pool[c].dataSize <= SampleBufferSize
      && t.pool[c].bufferSize == SampleBufferSize
      && Copied(u.pool[c], t.pool[c], buf, r)
      && (forall i :: 0 <= i < 3 && i != c ==> t.pool[i] == u.pool[i])
  {
  }

  /**
   * The flush: when the fill level passes the threshold the buffer is
   * appended, with exactly one service call; on success it joins the back of
   * the queue and is no longer current, on failure the write returns -1 and
   * the buffer stays current.  Below the threshold no call is made and the
   * buffer stays current.
   */
  lemma WriteFlushes(s: SessionState, buf: seq<bv8>)
    requires Inv(s) && CheckoutSpec(s).Got?
    ensures var u, c := CheckoutSpec(s).state, CheckoutSpec(s).slot;
      var (t, r) := WriteSpec(s, buf);
      c < 3 &&
      if t.pool[c].dataSize > FlushThreshold(s.latency) then
        && t.output.log == u.output.log + [Append(c)]
        && (NextReply(u.output).status == 0 ==>
              r >= 0 && t.current == None && t.output.queue == u.output.queue + [c])
        && (NextReply(u.output).status != 0 ==>
              r == -1 && t.current == Some(c) && t.output.queue == u.output.queue)
      else
        t.output == u.output && t.current == Some(c) && r >= 0
  {
    CheckoutKeeps(s);
  }

  /** A write consumes at most the bytes offered, or reports -1. */
  lemma WriteBounds(s: SessionState, buf: seq<bv8>)
    requires Inv(s)
    ensures var r := WriteSpec(s, buf).1; r == -1 || 0 <= r <= |buf|
  {
    if CheckoutSpec(s).Got? {
      WriteCopies(s, buf);
    }
  }

  /** With no buffer checked out, a failed query makes the write fail and changes nothing but the service. */
  lemma QueryFailure(s: SessionState, buf: seq<bv8>)
    requires Inv(s) && s.current.None? && NextReply(s.output).status != 0
    ensures var (t, r) := WriteSpec(s, buf);
      && r == -1 && t.current == None && t.pool == s.pool
      && t.output.queue == s.output.queue && t.output.log == s.output.log + [GetReleased]
  {
  }

  /**
   * Non-blocking starvation: with no buffer checked out and none released,
   * the write returns 0 after a single query, and nothing else changes.
   */
  lemma NonBlockingStarves(s: SessionState, buf: seq<bv8>)
    requires Inv(s) && s.current.None? && !s.blocking
    requires NextReply(s.output) == Reply(0, false)
    ensures var (t, r) := WriteSpec(s, buf);
      && r == 0 && t.current == None && t.pool == s.pool
      && t.output.queue == s.output.queue && t.output.log == s.output.log + [GetReleased]
  {
  }

  /**
   * In non-blocking mode a write never waits: its only service calls are a
   * query, when no buffer is checked out, and at most one append of the
   * checked-out buffer.
   */
  lemma NonBlockingNeverWaits(s: SessionState, buf: seq<bv8>)
    requires Inv(s) && !s.blocking
    ensures var t := WriteSpec(s, buf).0;
      var query := if s.current.None? then [GetReleased] else [];
      || t.output.log == s.output.log + query
      || (CheckoutSpec(s).Got? && t.output.log == s.output.log + query + [Append(CheckoutSpec(s).slot)])
  {
    CheckoutKeeps(s);
    var r := CheckoutSpec(s);
    if r.Got? {
      var query := if s.current.None? then [GetReleased] else [];
      assert r.state.output.log == s.output.log + query;
      WriteFlushes(s, buf);
    }
  }

  /** k successful answers that release nothing. */
  function Idle(k: nat): (rs: seq<Reply>)
    ensures |rs| == k
  {
    if k == 0 then [] else [Reply(0, false)] + Idle(k - 1)
  }

  /** k rounds of the blocking loop: wait on the event, reset it, query again. */
  function Rounds(k: nat): (cs: seq<Call>)
    ensures |cs| == 3 * k
  {
    if k == 0 then [] else [Wait, ResetSignal, GetReleased] + Rounds(k - 1)
  }

  /** One more round of the loop, logged after log. */
  lemma RoundsStep(log: seq<Call>, k: nat)
    ensures log + [Wait, ResetSignal, GetReleased] + Rounds(k) == log + Rounds(k + 1)
  {
    assert Rounds(k + 1) == [Wait, ResetSignal, GetReleased] + Rounds(k);
  }

  /**
   * After k answers that release nothing, a release ends the blocking loop
   * on its (k+1)-th round with the oldest queued buffer.
   */
  lemma {:induction false} BlockLoopRounds(o: AudioOut, k: nat, rest: seq<Reply>)
    requires o.queue != [] && o.replies == Idle(k) + [Reply(0, true)] + rest
    ensures BlockLoop(o) == Released(AudioOut(o.queue[1..], rest, o.log + Rounds(k + 1)), 0, 1, Some(o.queue[0]))
    decreases k
  {
    var log1 := o.log + [Wait, ResetSignal, GetReleased];
    assert o.log + [Wait] + [ResetSignal] + [GetReleased] == log1;
    if k == 0 {
      assert o.replies == [Reply(0, true)] + rest;
      assert GetReleasedBuffer(ResetEvent(WaitEvent(o))).out == AudioOut(o.queue[1..], rest, log1);
    } else {
      var o1 := AudioOut(o.queue, Idle(k - 1) + [Reply(0, true)] + rest, log1);
      assert o.replies == [Reply(0, false)] + o1.replies by {
        assert Idle(k) == [Reply(0, false)] + Idle(k - 1);
      }
      assert GetReleasedBuffer(ResetEvent(WaitEvent(o))) == Released(o1, 0, 0, None);
      BlockLoopRounds(o1, k - 1, rest);
      RoundsStep(o.log, k);
    }
  }

  /** After k answers that release nothing, a failed query ends the blocking loop with its status. */
  lemma {:induction false} BlockLoopFails(o: AudioOut, k: nat, failure: Reply, rest: seq<Reply>)
    requires failure.status != 0 && o.replies == Idle(k) + [failure] + rest
    ensures BlockLoop(o) == Released(AudioOut(o.queue, rest, o.log + Rounds(k + 1)), failure.status, 0, None)
    decreases k
  {
    var log1 := o.log + [Wait, ResetSignal, GetReleased];
    assert o.log + [Wait] + [ResetSignal] + [GetReleased] == log1;
    if k == 0 {
      assert o.replies == [failure] + rest;
      assert GetReleasedBuffer(ResetEvent(WaitEvent(o))).out == AudioOut(o.queue, rest, log1);
    } else {
      var o1 := AudioOut(o.queue, Idle(k - 1) + [failure] + rest, log1);
      assert o.replies == [Reply(0, false)] + o1.replies by {
        assert Idle(k) == [Reply(0, false)] + Idle(k - 1);
      }
      assert GetReleasedBuffer(ResetEvent(WaitEvent(o))) == Released(o1, 0, 0, None);
      BlockLoopFails(o1, k - 1, failure, rest);
      RoundsStep(o.log, k);
    }
  }

  /**
   * A blocking write that finds nothing released waits and re-queries once
   * per answer that releases nothing, and takes the oldest queued buffer,
   * emptied, when it is released.
   */
  lemma BlockingWaitsForRelease(s: SessionState, k: nat, rest: seq<Reply>)
    requires Inv(s) && s.current.None? && s.blocking
    requires s.output.replies == Idle(k + 1) + [Reply(0, true)] + rest
    ensures s.output.queue != [] && CheckoutSpec(s) ==
      TakeFresh(s.(output := AudioOut(s.output.queue[1..], rest, s.output.log + [GetReleased] + Rounds(k + 1))),
                s.output.queue[0])
  {
    var o := s.output;
    var o1 := AudioOut(o.queue, Idle(k) + [Reply(0, true)] + rest, o.log + [GetReleased]);
    assert o.replies == [Reply(0, false)] + o1.replies by {
      assert Idle(k + 1) == [Reply(0, false)] + Idle(k);
    }
    assert GetReleasedBuffer(o) == Released(o1, 0, 0, None);
    assert 0 in o.queue;
    BlockLoopRounds(o1, k, rest);
  }

  /** The same, when a query of the loop fails: the write returns -1 and
   *  nothing but the service changes. */
  lemma BlockingQueryFails(s: SessionState, buf: seq<bv8>, k: nat, failure: Reply, rest: seq<Reply>)
    requires Inv(s) && s.current.None? && s.blocking && failure.status != 0
    requires s.output.replies == Idle(k + 1) + [failure] + rest
    ensures CheckoutSpec(s) == Failed(s.(output := AudioOut(s.output.queue, rest, s.output.log + [GetReleased] + Rounds(k + 1))))
    ensures WriteSpec(s, buf).1 == -1
  {
    var o := s.output;
    var o1 := AudioOut(o.queue, Idle(k) + [failure] + rest, o.log + [GetReleased]);
    assert o.replies == [Reply(0, false)] + o1.replies by {
      assert Idle(k + 1) == [Reply(0, false)] + Idle(k);
    }
    assert GetReleasedBuffer(o) == Released(o1, 0, 0, None);
    BlockLoopFails(o1, k, failure, rest);
  }

  /**
   * Example: the answers "none", "none", "released" make a blocking
   * write wait exactly twice before it gets the oldest queued buffer.
   */
  lemma TwoWaits(s: SessionState, rest: seq<Reply>)
    requires Inv(s) && s.current.None? && s.blocking
    requires s.output.replies == [Reply(0, false), Reply(0, false), Reply(0, true)] + rest
    ensures CheckoutSpec(s).Got?
    ensures CheckoutSpec(s).state.output.log ==
      s.output.log + [GetReleased, Wait, ResetSignal, GetReleased, Wait, ResetSignal, GetReleased]
  {
    assert Idle(2) == [Reply(0, false), Reply(0, false)];
    BlockingWaitsForRelease(s, 1, rest);
    assert Rounds(2) == [Wait, ResetSignal, GetReleased, Wait, ResetSignal, GetReleased];
  }

  /**
   * Example: with 32 ms of latency, 1537 bytes written into
   * a freshly checked-out buffer make exactly one append, and 1536 bytes none.
   */
  lemma FlushAt1537(s: SessionState, buf: seq<bv8>)
    requires Inv(s) && s.current.None? && s.latency == 32
    requires NextReply(s.output) == Reply(0, true)
    requires |buf| == 1536 || |buf| == 1537
    ensures var t := WriteSpec(s, buf).0;
      && s.output.queue != []
      && t.output.log == s.output.log + [GetReleased] + (if |buf| == 1537 then [Append(s.output.queue[0])] else [])
  {
    assert 0 in s.output.queue;
    ThresholdAt32();
    FreshCheckout(s);
    CheckoutKeeps(s);
    WriteCopies(s, buf);
    WriteFlushes(s, buf);
  }

  /**
   * No buffer is written to while it is queued with the service: the only
   * buffer a write changes is the one it checked out, which is not queued.
   */
  lemma WriteTouchesOnlyCheckedOut(s: SessionState, buf: seq<bv8>)
    requires Inv(s)
    ensures forall i :: 0 <= i < 3 && WriteSpec(s, buf).0.pool[i] != s.pool[i] ==>
      CheckoutSpec(s).Got? && i == CheckoutSpec(s).slot && i !in CheckoutSpec(s).state.output.queue
  {
    CheckoutKeeps(s);
    if CheckoutSpec(s).Got? {
      WriteCopies(s, buf);
      if s.current.None? {
        FreshCheckout(s);
      }
    }
  }

  /**
   * stop: on success the session is paused (and so not alive); on failure
   * the flag is unchanged; the service is called exactly when the session
   * was running; nothing else of the session changes.
   */
  lemma StopPauses(s: SessionState)
    ensures var (t, ok) := StopSpec(s);
      && (ok ==> t.paused && !AliveOf(t))
      && (!ok ==> t.paused == s.paused)
      && (!ok <==> !s.paused && NextReply(s.output).status != 0)
      && t.output.log == s.output.log + (if s.paused then [] else [StopOutput])
      && t.output.queue == s.output.queue
      && t.pool == s.pool && t.current == s.current && t.blocking == s.blocking && t.latency == s.latency
  {
  }

  /** start: the mirror image of stop. */
  lemma StartResumes(s: SessionState)
    ensures var (t, ok) := StartSpec(s);
      && (ok ==> !t.paused && AliveOf(t))
      && (!ok ==> t.paused == s.paused)
      && (!ok <==> s.paused && NextReply(s.output).status != 0)
      && t.output.log == s.output.log + (if s.paused then [StartOutput] else [])
      && t.output.queue == s.output.queue
      && t.pool == s.pool && t.current == s.current && t.blocking == s.blocking && t.latency == s.latency
  {
  }

  /** Stopping a stopped session, or starting a started one, succeeds without a service call. */
  lemma StopStartIdempotent(s: SessionState)
    ensures StopSpec(s).1 ==> StopSpec(StopSpec(s).0) == (StopSpec(s).0, true)
    ensures StartSpec(s).1 ==> StartSpec(StartSpec(s).0) == (StartSpec(s).0, true)
  {
    StopPauses(s);
    StartResumes(s);
  }

  /** write_avail as written reports nothing or the whole capacity, whatever the fill level. */
  lemma WriteAvailIsCapacity(s: SessionState)
    requires Inv(s)
    ensures WriteAvailOf(s) == if s.current.None? then 0 else SampleBufferSize
  {
  }

  /**
   * write_avail as written overstates the room left: once the current buffer
   * holds any bytes, a write of the reported size is cut short.
   */
  lemma WriteAvailOverstates(s: SessionState, buf: seq<bv8>)
    requires Inv(s) && s.current.Some? && s.pool[s.current.value].dataSize > 0
    requires |buf| == WriteAvailOf(s)
    ensures WriteSpec(s, buf).1 < |buf|
  {
    WriteCopies(s, buf);
  }

  /**
   * A concrete case: 1000 bytes written into a fresh buffer under a latency
   * of 21 ms or more (a threshold of at least 1008 bytes); write_avail then
   * reports 192512, but a write of that size consumes 191512 bytes at most.
   */
  lemma WriteAvailAfterShortWrite(s: SessionState, buf: seq<bv8>, next: seq<bv8>)
    requires Inv(s) && s.current.None? && NextReply(s.output) == Reply(0, true)
    requires |buf| == 1000 && 21 <= s.latency <= 89478 && |next| == 192512
    ensures var t := WriteSpec(s, buf).0;
      && Inv(t) && WriteAvailOf(t) == 192512
      && WriteSpec(t, next).1 <= 191512
  {
    assert 0 in s.output.queue;
    var t := WriteSpec(s, buf).0;
    ThresholdPerMillisecond(s.latency);
    FreshCheckout(s);
    WriteCopies(s, buf);
    WriteFlushes(s, buf);
    WriteCopies(t, next);
  }

  /** The space a write can fill without being cut short: capacity less fill level. */
  function WriteAvailSpace(s: SessionState): (n: nat)
    requires Inv(s)
    ensures n <= SampleBufferSize
  {
    if s.current.None? then 0 else SampleBufferSize - s.pool[s.current.value].dataSize
  }

  /**
   * The corrected write_avail is exact: with a buffer checked out, a write of
   * at most that many bytes is consumed whole (unless its submission fails),
   * and any longer write is cut short.
   */
  lemma WriteAvailSpaceExact(s: SessionState, buf: seq<bv8>)
    requires Inv(s) && s.current.Some?
    ensures |buf| <= WriteAvailSpace(s) ==> WriteSpec(s, buf).1 in {-1, |buf|}
    ensures |buf| > WriteAvailSpace(s) ==> WriteSpec(s, buf).1 < |buf|
  {
    CheckoutKeeps(s);
    WriteCopies(s, buf);
  }

  /**
   * init accepts exactly when every setup call succeeds, exactly one output
   * is listed, the endpoint is 48000 Hz stereo PCM_INT16 and the appends of
   * the three buffers succeed.
   */
  lemma InitOpenedIff(setup: Setup, latency: u32, blockFrames: u32)
    ensures InitSpec(setup, latency, blockFrames).Opened? <==>
      && setup.ipcInit == 0 && setup.listOutputs == 0 && setup.numNames == 1 && setup.openOutput == 0
      && setup.endpoint == Endpoint(48000, 2, PcmInt16) && setup.registerEvent == 0
      && |setup.replies| >= 3 && (forall i :: 0 <= i < 3 ==> setup.replies[i].status == 0)
  {
    var o := OpenedOutput(setup);
    if |setup.replies| >= 3 && (forall i :: 0 <= i < 3 ==> setup.replies[i].status == 0) {
      assert NextReply(o).status == 0;
      assert AppendBuffer(o, 0).out.replies == setup.replies[1..];
      assert AppendBuffer(AppendBuffer(o, 0).out, 1).out.replies == setup.replies[2..];
      assert AppendFrom(o, 0).1 == None;
    }
  }

  /**
   * The session init opens: paused, no buffer checked out, blocking when
   * block_frames is non-zero, the three buffers queued in order, each full.
   */
  lemma InitialSession(setup: Setup, latency: u32, blockFrames: u32)
    requires InitSpec(setup, latency, blockFrames).Opened?
    ensures var t := InitSpec(setup, latency, blockFrames).state;
      && t.paused && !AliveOf(t) && t.current == None
      && t.blocking == (blockFrames != 0) && t.latency == latency
      && t.output.queue == [0, 1, 2]
      && t.output.log == [Append(0), Append(1), Append(2)]
      && (forall i :: 0 <= i < 3 ==> t.pool[i].dataSize == t.pool[i].bufferSize == SampleBufferSize)
  {
    var o := OpenedOutput(setup);
    var a0 := AppendBuffer(o, 0);
    var a1 := AppendBuffer(a0.out, 1);
    var a2 := AppendBuffer(a1.out, 2);
    assert AppendFrom(o, 0) == (a2.out, None);
    assert InitSpec(setup, latency, blockFrames).state == InitialState(latency, blockFrames, a2.out);
  }
}
