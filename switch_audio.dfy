/**
 * The Switch audio driver: a streaming writer over a pool of three output
 * buffers that it hands to, and gets back from, the audio output service.
 *
 * A write checks out a buffer released by the service (waiting for one in
 * blocking mode, giving up with 0 in non-blocking mode), copies as much of
 * the samples as fits, and submits the buffer once it holds more bytes than
 * the latency budget allows.  Start and stop toggle the paused flag and call
 * the service only when the flag changes.
 *
 * Every operation is given twice: as a pure function of the session's
 * abstract state (SessionState), about which the properties are proved, and
 * as a method of the Session class that changes the fields in place, proved
 * to agree with the function.
 */
module SwitchAudio {
  import opened AudioService

  const SampleRate: nat := 48000
  const MaxNumSamples: nat := SampleRate
  const NumChannels: nat := 2
  /** sizeof(uint16_t): one sample of one channel. */
  const SampleBytes: nat := 2

  /** `(n + 0xfff) & ~0xfff`: n rounded up to a whole number of 4 KiB pages. */
  function PageRoundUp(n: nat): (r: nat)
    ensures r % 0x1000 == 0
    ensures n <= r < n + 0x1000
  {
    (n + 0xFFF) / 0x1000 * 0x1000
  }

  /** The capacity of each output buffer, in bytes: one second of stereo 16-bit audio, page aligned. */
  const SampleBufferSize: nat := PageRoundUp(MaxNumSamples * NumChannels * SampleBytes)

  /** An `unsigned` value of the driver. */
  type u32 = x: int | 0 <= x < 0x1_0000_0000

  /**
   * `(48000 * latency) / 1000` evaluated in unsigned 32-bit arithmetic: the
   * fill level, in bytes, beyond which a buffer is submitted.
   */
  function FlushThreshold(latency: u32): (t: nat)
    ensures t <= 4294967
  {
    ((48000 * latency) % 0x1_0000_0000) / 1000
  }

  /** A buffer of the pool (audio_output_buffer_t): its sample bytes, capacity and fill level. */
  datatype OutputBuffer = OutputBuffer(sampleData: seq<bv8>, bufferSize: nat, dataSize: nat)

  /**
   * The abstract state of a session (switch_audio_t): the flags, the latency,
   * the pool, the slot of the buffer being filled (None = no buffer checked
   * out) and the output service.
   */
  datatype SessionState = SessionState(
    blocking: bool,
    paused: bool,
    latency: u32,
    pool: seq<OutputBuffer>,
    current: Option<nat>,
    output: AudioOut)

  /** Slot numbers of the queue are pairwise distinct. */
  ghost predicate DistinctSlots(q: seq<nat>)
  {
    forall j, k :: 0 <= j < k < |q| ==> q[j] != q[k]
  }

  /**
   * The session invariant: three buffers, each of full capacity, recording
   * that capacity, and filled no further than that; every buffer is either
   * queued with the service (once) or checked out, never both.
   */
  ghost predicate Inv(s: SessionState)
  {
    && |s.pool| == 3
    && (forall i :: 0 <= i < |s.pool| ==>
          && |s.pool[i].sampleData| == SampleBufferSize
          && s.pool[i].bufferSize == SampleBufferSize
          && s.pool[i].dataSize <= SampleBufferSize)
    && (forall k :: 0 <= k < |s.output.queue| ==> s.output.queue[k] < 3)
    && DistinctSlots(s.output.queue)
    && (s.current.Some? ==> s.current.value < 3 && s.current.value !in s.output.queue)
    && (forall i :: 0 <= i < 3 ==> i in s.output.queue || s.current == Some(i))
  }

  /** The number of bytes a write copies: the request, cut to the space left in the buffer. */
  function ToWrite(size: nat, fill: nat): (n: nat)
    requires fill <= SampleBufferSize
    ensures n <= size && n <= SampleBufferSize - fill
    ensures n == size || n == SampleBufferSize - fill
  {
    if size > SampleBufferSize - fill then SampleBufferSize - fill else size
  }

  /** memcpy of the first n bytes of src into data at offset off. */
  function CopyInto(data: seq<bv8>, off: nat, src: seq<bv8>, n: nat): (r: seq<bv8>)
    requires off + n <= |data| && n <= |src|
    ensures |r| == |data|
    ensures r[off..off + n] == src[..n]
    ensures r[..off] == data[..off] && r[off + n..] == data[off + n..]
  {
    data[..off] + src[..n] + data[off + n..]
  }

  /**
   * The blocking acquisition loop: wait on the release event, reset it and
   * query again, until a buffer is released or a query fails.
   */
  function BlockLoop(o: AudioOut): (r: Released)
    ensures r.status == 0 <==> r.buffer.Some?
    ensures r.buffer.Some? ==>
      o.queue != [] && r.buffer.value == o.queue[0] && r.out.queue == o.queue[1..]
    ensures r.buffer.None? ==> r.out.queue == o.queue
    decreases |o.replies|
  {
    var q := GetReleasedBuffer(ResetEvent(WaitEvent(o)));
    if q.status == 0 && q.buffer.None? then BlockLoop(q.out) else q
  }

  /** How a write gets hold of a buffer. */
  datatype Checkout =
    | Got(state: SessionState, slot: nat)  // a buffer is checked out in state
    | Starved(state: SessionState)         // none released, non-blocking: the write returns 0
    | Failed(state: SessionState)          // a query failed: the write returns -1

  /** A freshly checked-out buffer becomes the current one, emptied. */
  function TakeFresh(s: SessionState, c: nat): (r: Checkout)
    requires c < |s.pool|
    ensures r.Got? && r.slot == c && r.state.current == Some(c)
    ensures |r.state.pool| == |s.pool| && r.state.pool[c].dataSize == 0
    ensures r.state.pool[c].sampleData == s.pool[c].sampleData && r.state.pool[c].bufferSize == s.pool[c].bufferSize
    ensures forall i :: 0 <= i < |s.pool| && i != c ==> r.state.pool[i] == s.pool[i]
    ensures r.state == s.(current := Some(c), pool := r.state.pool)
  {
    Got(s.(current := Some(c), pool := s.pool[c := s.pool[c].(dataSize := 0)]), c)
  }

  /**
   * The first part of switch_audio_write: keep the current buffer, or query
   * the service for a released one, dropping it when the count is below one.
   */
  function CheckoutSpec(s: SessionState): (r: Checkout)
    requires Inv(s)
    ensures Inv(r.state)
    ensures r.Got? ==> r.state.current == Some(r.slot)
  {
    if s.current.Some? then Got(s, s.current.value)
    else
      var q := GetReleasedBuffer(s.output);
      if q.status != 0 then Failed(s.(output := q.out))
      else
        var cur := if q.num < 1 then None else q.buffer;
        if cur.Some? then
          FreshInv(s, q.out, cur.value);
          TakeFresh(s.(output := q.out), cur.value)
        else if !s.blocking then Starved(s.(output := q.out))
        else
          var w := BlockLoop(q.out);
          if w.status != 0 then Failed(s.(output := w.out))
          else
            FreshInv(s, w.out, w.buffer.value);
            TakeFresh(s.(output := w.out), w.buffer.value)
  }

  /** Taking the head of the queue as the current buffer keeps the invariant. */
  lemma FreshInv(s: SessionState, o: AudioOut, c: nat)
    requires Inv(s) && s.current.None?
    requires s.output.queue != [] && c == s.output.queue[0] && o.queue == s.output.queue[1..]
    ensures c < 3 && Inv(TakeFresh(s.(output := o), c).state)
  {
    var q := s.output.queue;
    assert q[0] == c;
    forall i | 0 <= i < 3
      ensures i in o.queue || i == c
    {
      if i != c {
        assert i in q;
        var k :| 0 <= k < |q| && q[k] == i;
        assert o.queue[k - 1] == i;
      }
    }
  }

  /**
   * The second part of switch_audio_write: copy what fits into buffer c,
   * and submit the buffer once its fill level passes the threshold.
   */
  function DepositSpec(s: SessionState, c: nat, buf: seq<bv8>): (r: (SessionState, int))
    requires Inv(s) && s.current == Some(c)
    ensures Inv(r.0)
  {
    var b := s.pool[c];
    var n := ToWrite(|buf|, b.dataSize);
    var b' := OutputBuffer(CopyInto(b.sampleData, b.dataSize, buf, n), SampleBufferSize, b.dataSize + n);
    var t := s.(pool := s.pool[c := b']);
    if b'.dataSize > FlushThreshold(s.latency) then
      var a := AppendBuffer(t.output, c);
      if a.status != 0 then (t.(output := a.out), -1)
      else (t.(output := a.out, current := None), n as int)
    else (t, n as int)
  }

  /** switch_audio_write: the new state and the number of bytes consumed, or -1. */
  function WriteSpec(s: SessionState, buf: seq<bv8>): (r: (SessionState, int))
    requires Inv(s)
    ensures Inv(r.0)
  {
    match CheckoutSpec(s)
    case Failed(t) => (t, -1)
    case Starved(t) => (t, 0)
    case Got(t, c) => DepositSpec(t, c, buf)
  }

  /** switch_audio_stop: stop the service unless already paused. */
  function StopSpec(s: SessionState): (r: (SessionState, bool))
    ensures r.1 <==> r.0.paused
    ensures s.paused ==> r == (s, true)
    ensures r.0.pool == s.pool && r.0.current == s.current && r.0.output.queue == s.output.queue
  {
    if !s.paused then
      var a := Stop(s.output);
      if a.status != 0 then (s.(output := a.out), false)
      else (s.(output := a.out, paused := true), true)
    else (s.(paused := true), true)
  }

  /** switch_audio_start: start the service unless already running. */
  function StartSpec(s: SessionState): (r: (SessionState, bool))
    ensures r.1 <==> !r.0.paused
    ensures !s.paused ==> r == (s, true)
    ensures r.0.pool == s.pool && r.0.current == s.current && r.0.output.queue == s.output.queue
  {
    if s.paused then
      var a := Start(s.output);
      if a.status != 0 then (s.(output := a.out), false)
      else (s.(output := a.out, paused := false), true)
    else (s.(paused := false), true)
  }

  /** switch_audio_alive: running exactly when start has nothing to do, and stop has. */
  function AliveOf(s: SessionState): (alive: bool)
    ensures alive <==> StartSpec(s) == (s, true)
    ensures !alive <==> StopSpec(s) == (s, true)
  {
    !s.paused
  }

  /** switch_audio_write_avail as written: the buffer_size field of the current buffer. */
  function WriteAvailOf(s: SessionState): (n: nat)
    requires Inv(s)
    ensures n == 0 <==> s.current.None?
    ensures n == 0 || n == SampleBufferSize
  {
    if s.current.None? then 0 else s.pool[s.current.value].bufferSize
  }

  /** The pcm_format_t of the negotiated endpoint; only PCM_INT16 matters here. */
  datatype SampleFormat = PcmInt16 | OtherFormat(code: int)

  /** What the output opened by audio_ipc_open_output reports. */
  datatype Endpoint = Endpoint(sampleRate: int, numChannels: int, sampleFormat: SampleFormat)

  /**
   * The answers of the service during switch_audio_init: the status of each
   * setup call, the number of outputs listed, the opened endpoint, and the
   * replies of the opened output, which begin with those to the appends of
   * the pool.
   */
  datatype Setup = Setup(
    ipcInit: int,
    listOutputs: int,
    numNames: nat,
    openOutput: int,
    endpoint: Endpoint,
    registerEvent: int,
    replies: seq<Reply>)

  /** The reason switch_audio_init gives up, in the order it checks. */
  datatype InitFailure =
    | IpcInitFailed | ListFailed | NotOneOutput | OpenFailed
    | WrongRate | WrongChannels | WrongFormat | RegisterFailed
    | AppendFailed(slot: nat)

  datatype InitResult = Opened(state: SessionState) | Refused(failure: InitFailure)

  /** A buffer as init prepares it: full capacity, marked full. */
  function InitialBuffer(): (b: OutputBuffer)
    ensures |b.sampleData| == b.bufferSize == b.dataSize == SampleBufferSize
  {
    OutputBuffer(seq(SampleBufferSize, _ => 0), SampleBufferSize, SampleBufferSize)
  }

  /** The appends of buffers i, i+1, ..., 2 in turn, stopping at the first failure. */
  function AppendFrom(o: AudioOut, i: nat): (r: (AudioOut, Option<nat>))
    requires i <= 3
    ensures r.1.Some? ==> i <= r.1.value < 3 && |o.queue| <= |r.0.queue| < |o.queue| + 3 - i
    ensures r.1.Some? ==> |r.0.queue| == |o.queue| + r.1.value - i
    ensures r.1.None? ==> |r.0.queue| == |o.queue| + 3 - i
    ensures r.0.queue[..|o.queue|] == o.queue
    ensures forall k :: |o.queue| <= k < |r.0.queue| ==> r.0.queue[k] == i + k - |o.queue|
    decreases 3 - i
  {
    if i == 3 then (o, None)
    else
      var a := AppendBuffer(o, i);
      if a.status != 0 then (a.out, Some(i)) else AppendFrom(a.out, i + 1)
  }

  /** The freshly opened output: nothing queued, nothing called yet. */
  function OpenedOutput(setup: Setup): AudioOut
  {
    AudioOut([], setup.replies, [])
  }

  /** The first check of switch_audio_init that fails, if any, before the buffers are set up. */
  function SetupFailure(setup: Setup): (f: Option<InitFailure>)
    ensures f.None? <==>
      && setup.ipcInit == 0 && setup.listOutputs == 0 && setup.numNames == 1 && setup.openOutput == 0
      && setup.endpoint == Endpoint(SampleRate, NumChannels, PcmInt16) && setup.registerEvent == 0
    ensures f.Some? ==> !f.value.AppendFailed?
  {
    if setup.ipcInit != 0 then Some(IpcInitFailed)
    else if setup.listOutputs != 0 then Some(ListFailed)
    else if setup.numNames != 1 then Some(NotOneOutput)
    else if setup.openOutput != 0 then Some(OpenFailed)
    else if setup.endpoint.sampleRate != SampleRate then Some(WrongRate)
    else if setup.endpoint.numChannels != NumChannels then Some(WrongChannels)
    else if setup.endpoint.sampleFormat != PcmInt16 then Some(WrongFormat)
    else if setup.registerEvent != 0 then Some(RegisterFailed)
    else None
  }

  /** The session init hands back: paused, no buffer checked out, over the output o. */
  function InitialState(latency: u32, blockFrames: u32, o: AudioOut): (s: SessionState)
    ensures o.queue == [0, 1, 2] ==> Inv(s) && WriteAvailOf(s) == 0
    ensures !AliveOf(s) && s.output == o && s.latency == latency
  {
    SessionState(blockFrames != 0, true, latency, [InitialBuffer(), InitialBuffer(), InitialBuffer()], None, o)
  }

  /** The checks and calls of switch_audio_init, ending in the session's initial state. */
  function InitSpec(setup: Setup, latency: u32, blockFrames: u32): (r: InitResult)
    ensures r.Opened? ==> Inv(r.state)
  {
    if SetupFailure(setup).Some? then Refused(SetupFailure(setup).value)
    else
      var ap := AppendFrom(OpenedOutput(setup), 0);
      if ap.1.Some? then Refused(AppendFailed(ap.1.value))
      else
        AppendAllQueued(OpenedOutput(setup));
        Opened(InitialState(latency, blockFrames, ap.0))
  }

  /** A driver session (switch_audio_t) whose fields the operations update in place. */
  class Session {
    var blocking: bool
    var isPaused: bool
    var latency: u32
    const buffers: array<OutputBuffer>
    var current: Option<nat>
    var output: AudioOut

    ghost function Abs(): SessionState
      reads this, buffers
    {
      SessionState(blocking, isPaused, latency, buffers[..], current, output)
    }

    ghost predicate Valid()
      reads this, buffers
    {
      buffers.Length == 3 && Inv(Abs())
    }

    /** The zeroed session that calloc hands to init, over the opened output. */
    constructor Alloc(service: AudioOut)
      ensures buffers.Length == 3 && fresh(buffers)
      ensures !blocking && !isPaused && latency == 0 && current == None && output == service
    {
      blocking := false;
      isPaused := false;
      latency := 0;
      current := None;
      output := service;
      buffers := new OutputBuffer[3](_ => OutputBuffer([], 0, 0));
    }

    /**
     * switch_audio_init: validate the service's answers, prepare and queue
     * the three buffers, and start paused with no buffer checked out.
     */
    static method Init(setup: Setup, latency: u32, blockFrames: u32) returns (swa: Session?, newRate: nat)
      ensures swa == null <==> InitSpec(setup, latency, blockFrames).Refused?
      ensures swa != null ==>
        && fresh(swa) && fresh(swa.buffers) && swa.buffers.Length == 3
        && swa.Abs() == InitSpec(setup, latency, blockFrames).state
        && swa.Valid()
        && newRate == SampleRate
    {
      newRate := 0;
      if setup.ipcInit != 0 || setup.listOutputs != 0 || setup.numNames != 1 || setup.openOutput != 0 {
        return null, newRate;
      }
      if setup.endpoint.sampleRate != SampleRate || setup.endpoint.numChannels != NumChannels
        || setup.endpoint.sampleFormat != PcmInt16 || setup.registerEvent != 0
      {
        return null, newRate;
      }
      assert SetupFailure(setup) == None;
      swa := new Session.Alloc(OpenedOutput(setup));
      var failed := swa.QueueBuffers();
      if failed.Some? {
        return null, newRate;
      }
      AppendAllQueued(OpenedOutput(setup));
      assert swa.buffers[..] == [InitialBuffer(), InitialBuffer(), InitialBuffer()];
      newRate := setup.endpoint.sampleRate;
      swa.current := None;
      swa.latency := latency;
      swa.blocking := blockFrames != 0;
      swa.isPaused := true;
      assert swa.Abs() == InitialState(latency, blockFrames, swa.output);
    }

    /**
     * The buffer loop of switch_audio_init: prepare each buffer in turn and
     * append it to the output, giving up at the first append that fails.
     */
    method QueueBuffers() returns (failed: Option<nat>)
      requires buffers.Length == 3
      modifies this, buffers
      ensures (output, failed) == AppendFrom(old(output), 0)
      ensures failed.None? ==> forall j :: 0 <= j < 3 ==> buffers[j] == InitialBuffer()
      ensures blocking == old(blocking) && isPaused == old(isPaused) && latency == old(latency)
      ensures current == old(current)
    {
      ghost var o0 := output;
      for i := 0 to 3
        invariant AppendFrom(o0, 0) == AppendFrom(output, i)
        invariant buffers[..i] == seq(i, _ => InitialBuffer())
        invariant blocking == old(blocking) && isPaused == old(isPaused) && latency == old(latency)
        invariant current == old(current)
      {
        buffers[i] := InitialBuffer();
        var a := AppendBuffer(output, i);
        AppendFromStep(output, i);
        output := a.out;
        if a.status != 0 {
          return Some(i);
        }
        assert buffers[..i + 1] == buffers[..i] + [InitialBuffer()];
      }
      assert buffers[..] == buffers[..3];
      return None;
    }

    /**
     * switch_audio_write: consume up to |buf| bytes into the current buffer,
     * checking one out first when there is none.
     */
    method Write(buf: seq<bv8>) returns (r: int)
      requires Valid()
      modifies this, buffers
      ensures Valid()
      ensures (Abs(), r) == WriteSpec(old(Abs()), buf)
    {
      var got;
      got, r := CheckOut();
      if !got {
        return r;
      }
      r := Deposit(buf);
    }

    /**
     * The first part of switch_audio_write (lines up to the reset of the fill
     * level): keep the current buffer, or get a released one from the service.
     */
    method CheckOut() returns (got: bool, r: int)
      requires Valid()
      modifies this, buffers
      ensures buffers.Length == 3
      ensures got ==> current.Some? && CheckoutSpec(old(Abs())) == Got(Abs(), current.value)
      ensures !got ==> (r == -1 && CheckoutSpec(old(Abs())) == Failed(Abs())) ||
                       (r == 0 && CheckoutSpec(old(Abs())) == Starved(Abs()))
      ensures Valid()
    {
      ghost var s := Abs();
      r := 0;
      if current.None? {
        var q := GetReleasedBuffer(output);
        output := q.out;
        if q.status != 0 {
          return false, -1;
        }
        current := q.buffer;
        if q.num < 1 {
          current := None;
        }
        if current.None? {
          if blocking {
            ghost var o0 := output;
            while current.None?
              invariant current.None? ==> BlockLoop(o0) == BlockLoop(output)
              invariant current.Some? ==> BlockLoop(o0).out == output && BlockLoop(o0).buffer == current
              invariant buffers[..] == s.pool && blocking == s.blocking && isPaused == s.paused && latency == s.latency
              decreases |output.replies|, if current.None? then 1 else 0
            {
              output := WaitEvent(output);
              output := ResetEvent(output);
              var w := GetReleasedBuffer(output);
              output := w.out;
              if w.status != 0 {
                assert BlockLoop(o0) == w;
                return false, -1;
              }
              current := w.buffer;
            }
          } else {
            return false, 0;
          }
        }
        FreshInv(s, output, current.value);
        buffers[current.value] := buffers[current.value].(dataSize := 0);
      }
      got := true;
    }

    /**
     * The second part of switch_audio_write: copy what fits into the current
     * buffer and submit it once its fill level passes the threshold.
     */
    method Deposit(buf: seq<bv8>) returns (r: int)
      requires Valid() && current.Some?
      modifies this, buffers
      ensures buffers.Length == 3
      ensures (Abs(), r) == DepositSpec(old(Abs()), old(current.value), buf)
      ensures Valid()
    {
      var c := current.value;
      var toWrite := |buf|;
      if toWrite > SampleBufferSize - buffers[c].dataSize {
        toWrite := SampleBufferSize - buffers[c].dataSize;
      }
      var b := buffers[c];
      b := b.(sampleData := CopyInto(b.sampleData, b.dataSize, buf, toWrite));
      b := b.(dataSize := b.dataSize + toWrite);
      b := b.(bufferSize := SampleBufferSize);
      buffers[c] := b;
      if b.dataSize > FlushThreshold(latency) {
        var a := AppendBuffer(output, c);
        output := a.out;
        if a.status != 0 {
          return -1;
        }
        current := None;
      }
      return toWrite;
    }

    /** switch_audio_stop. */
    method Stop() returns (ok: bool)
      requires Valid()
      modifies this
      ensures Valid()
      ensures (Abs(), ok) == StopSpec(old(Abs()))
    {
      if !isPaused {
        var a := AudioService.Stop(output);
        output := a.out;
        if a.status != 0 {
          return false;
        }
      }
      isPaused := true;
      return true;
    }

    /** switch_audio_start. */
    method Start() returns (ok: bool)
      requires Valid()
      modifies this
      ensures Valid()
      ensures (Abs(), ok) == StartSpec(old(Abs()))
    {
      if isPaused {
        var a := AudioService.Start(output);
        output := a.out;
        if a.status != 0 {
          return false;
        }
      }
      isPaused := false;
      return true;
    }

    /** switch_audio_alive. */
    function Alive(): (alive: bool)
      reads this, buffers
      ensures alive == AliveOf(Abs())
    {
      !isPaused
    }

    /** switch_audio_write_avail. */
    function WriteAvail(): (n: nat)
      requires Valid()
      reads this, buffers
      ensures n == WriteAvailOf(Abs())
    {
      if current.None? then 0 else buffers[current.value].bufferSize
    }

    /** switch_audio_set_nonblock_state. */
    method SetNonblockState(state: bool)
      requires Valid()
      modifies this
      ensures Valid()
      ensures Abs() == old(Abs()).(blocking := !state)
    {
      blocking := !state;
    }
  }

  /** One append of AppendFrom: slot i fails, or the appends go on from slot i + 1. */
  lemma AppendFromStep(o: AudioOut, i: nat)
    requires i < 3
    ensures var a := AppendBuffer(o, i);
      AppendFrom(o, i) == if a.status != 0 then (a.out, Some(i)) else AppendFrom(a.out, i + 1)
  {
  }

  /** Three successful appends put exactly slots 0, 1, 2 at the back of the queue. */
  lemma AppendAllQueued(o: AudioOut)
    ensures AppendFrom(o, 0).1.None? ==> AppendFrom(o, 0).0.queue == o.queue + [0, 1, 2]
  {
  }

}
