# Switch audio writer and Wii U Pro report decoder, in Dafny

This project models two pieces of RetroArch and proves properties of them.

**The Switch audio output driver** (`audio/drivers/switch_audio.c`) streams
16-bit stereo samples to the console's audio output service through a pool
of three buffers. Each buffer holds one second of audio rounded up to whole
4 KiB pages: 192000 bytes become 47 pages, or 192512 bytes.

- `write` keeps filling the buffer it has checked out. When it has none, it
  asks the service for a released buffer. In blocking mode it waits on the
  release event and asks again until one comes back or a query fails. In
  non-blocking mode it gives up and returns 0.
- It copies as much of the request as fits, so a write may be short.
- Once the fill level passes `(48000 * latency) / 1000` bytes, it hands the
  buffer back to the service.
- `start` and `stop` toggle the paused flag. They call the service only when
  the flag actually changes.
- `init` checks that exactly one output exists and that it runs at 48000 Hz,
  stereo, PCM_INT16. It then queues the three buffers and starts paused.

**The Wii U Pro controller decoder** (`input/connect/connect_wiiupro.c`)
inverts the three button bytes of a raw HID report in place. It then clears
the decoded state and sets each of the 17 button flags from one bit.
`get_buttons` packs those flags into the frontend's 64-bit button mask.

Layout:

- `audio_service.dfy` (module `AudioService`) models the output service as
  a value:
  - a FIFO queue of submitted buffer slots;
  - a finite script of the replies the service gives;
  - a log of every call the driver makes.
- `switch_audio.dfy` (module `SwitchAudio`) holds the session state, its
  invariant and the session functions. The `Session` class has the fields and
  the array of three buffers, and its methods update them in place. Each
  method is proved to compute the matching pure function of the abstract
  state.
- `switch_audio_props.dfy` (module `SwitchAudioProps`) proves the properties
  of those functions.
- `bits.dfy` (module `Bits`) models unsigned 64-bit masks as natural numbers
  below 2^64, with `1 << s`, bitwise OR and their bit-level laws.
- `wiiupro.dfy` (module `WiiUPro`) holds the report handler, the button
  packing and the axis reader.

How the service is modelled:

- Every fallible call consumes the next reply of the script. A call made
  after the script is exhausted fails.
- A successful query may release the oldest queued buffer.
- The frontend's joypad ids are defined in headers outside this model, so
  they are a parameter. `DistinctIds` states that they are pairwise distinct.

## Model

| member | source | states |
|---|---|---|
| AudioService.GetReleasedBuffer | audio/drivers/switch_audio.c:55-63 | a query hands back at most one buffer, exactly when the count is at least one. That buffer is the oldest queued one and leaves the queue; otherwise the queue is unchanged. A successful query consumes a reply. |
| AudioService.AppendBuffer | audio/drivers/switch_audio.c:100-102 | an append is logged; on success the slot joins the back of the queue, on failure the queue is unchanged |
| AudioService.Start | audio/drivers/switch_audio.c:130 | starting the output is logged and leaves the queue alone |
| AudioService.Stop | audio/drivers/switch_audio.c:118 | stopping the output is logged and leaves the queue alone |
| AudioService.WaitEvent | audio/drivers/switch_audio.c:76 | waiting on the release event is logged and changes neither the queue nor the replies |
| AudioService.ResetEvent | audio/drivers/switch_audio.c:77 | resetting the release event is logged and changes neither the queue nor the replies |
| SwitchAudio.PageRoundUp | audio/drivers/switch_audio.c:29 | the result is a multiple of 0x1000 and is the least such value not below the input |
| SwitchAudio.FlushThreshold | audio/drivers/switch_audio.c:98 | the threshold is computed in unsigned 32-bit arithmetic, so it never exceeds 4294967 bytes, whatever the latency (its value per millisecond and its wrap are stated by ThresholdPerMillisecond and ThresholdWraps) |
| SwitchAudio.ToWrite | audio/drivers/switch_audio.c:91-92 | the bytes to copy are the request cut to the space left: at most each of the two, and equal to one of them |
| SwitchAudio.CopyInto | audio/drivers/switch_audio.c:94 | the memcpy puts the first n source bytes at the offset and leaves the bytes before and after it unchanged |
| SwitchAudio.BlockLoop | audio/drivers/switch_audio.c:71-81 | the loop ends with a buffer exactly when the status is success; that buffer is the oldest queued one and leaves the queue |
| SwitchAudio.TakeFresh | audio/drivers/switch_audio.c:88 | the buffer got becomes the current one with its fill level reset to 0; its bytes and capacity, every other buffer, the output, both flags and the latency are kept |
| SwitchAudio.CheckoutSpec | audio/drivers/switch_audio.c:52-89 | checking out a buffer keeps the session invariant; when a buffer is got, it is the current one |
| SwitchAudio.FreshInv | audio/drivers/switch_audio.c:88 | taking the head of the queue as the current buffer keeps every buffer either queued once or checked out, never both |
| SwitchAudio.DepositSpec | audio/drivers/switch_audio.c:91-108 | copying into the current buffer, and submitting it past the threshold, keeps the session invariant |
| SwitchAudio.WriteSpec | audio/drivers/switch_audio.c:44-109 | a whole write keeps the session invariant: a full buffer pool, fill levels within capacity, and exclusive ownership of each buffer |
| SwitchAudio.StopSpec | audio/drivers/switch_audio.c:111-123 | stop reports success exactly when the session ends up paused; on a paused session it changes nothing; it never touches the pool, the current buffer or the queue |
| SwitchAudio.StartSpec | audio/drivers/switch_audio.c:125-135 | start reports success exactly when the session ends up running; on a running session it changes nothing; it never touches the pool, the current buffer or the queue |
| SwitchAudio.AliveOf | audio/drivers/switch_audio.c:137-143 | a session is alive exactly when a start would succeed without any change, and not alive exactly when a stop would |
| SwitchAudio.WriteAvailOf | audio/drivers/switch_audio.c:163-171 | write_avail as written is 0 exactly when no buffer is checked out, and otherwise the whole capacity |
| SwitchAudio.InitialBuffer | audio/drivers/switch_audio.c:236-239 | a prepared buffer has sample memory of full capacity, records that capacity and is marked full |
| SwitchAudio.AppendFrom | audio/drivers/switch_audio.c:232-245 | appending buffers i to 2 stops at the first failure, which names one of those slots; the queue keeps its old entries and gains slots i, i+1, ... in order, exactly the slots before the failing one, or all of them when nothing fails |
| SwitchAudio.SetupFailure | audio/drivers/switch_audio.c:194-230 | the setup is accepted exactly when every setup call succeeds, exactly one output is listed and it runs at 48000 Hz, stereo, PCM_INT16; a refusal here is never an append failure |
| SwitchAudio.InitialState | audio/drivers/switch_audio.c:247-254 | the session init hands back is paused (not alive) over the given output and latency; once buffers 0, 1 and 2 are queued it satisfies the session invariant and has no current buffer |
| SwitchAudio.InitSpec | audio/drivers/switch_audio.c:194-254 | an opened session satisfies the session invariant |
| SwitchAudio.AppendAllQueued | audio/drivers/switch_audio.c:232-245 | three successful appends queue slots 0, 1 and 2 in that order |
| SwitchAudio.Session.Alloc | audio/drivers/switch_audio.c:189 | the zeroed session: three buffers, not blocking, not paused, no current buffer |
| SwitchAudio.Session.Init | audio/drivers/switch_audio.c:181-268 | init returns null exactly when the setup is refused. Otherwise the fresh session's state is the initial state, it satisfies the invariant, and the reported rate is 48000. |
| SwitchAudio.Session.QueueBuffers | audio/drivers/switch_audio.c:232-245 | the loop prepares each buffer full and appends it, stopping at the first failed append; the new output and the failure are those the appends give |
| SwitchAudio.Session.Write | audio/drivers/switch_audio.c:44-109 | the write updates the fields in place to the state WriteSpec gives and returns its count, keeping the invariant |
| SwitchAudio.Session.CheckOut | audio/drivers/switch_audio.c:52-89 | the query, the blocking loop and the non-blocking exit leave the state CheckoutSpec gives; they return -1 on a failed query and 0 on starvation |
| SwitchAudio.Session.Deposit | audio/drivers/switch_audio.c:91-108 | the copy and the threshold flush leave the state and the count that DepositSpec gives |
| SwitchAudio.Session.Stop | audio/drivers/switch_audio.c:111-123 | stop updates the fields to the state StopSpec gives and keeps the invariant |
| SwitchAudio.Session.Start | audio/drivers/switch_audio.c:125-135 | start updates the fields to the state StartSpec gives and keeps the invariant |
| SwitchAudio.Session.Alive | audio/drivers/switch_audio.c:137-143 | alive reads the abstract state's "not paused", the value AliveOf gives |
| SwitchAudio.Session.WriteAvail | audio/drivers/switch_audio.c:163-171 | write_avail reads 0 with no current buffer, otherwise that buffer's buffer_size field |
| SwitchAudio.Session.SetNonblockState | audio/drivers/switch_audio.c:173-179 | blocking becomes the negation of the argument and nothing else changes |
| SwitchAudioProps.BufferCapacity | audio/drivers/switch_audio.c:26-29 | one second of stereo 16-bit audio is 192000 bytes, and the buffer capacity is 47 whole pages, 192512 bytes |
| SwitchAudioProps.ThresholdPerMillisecond | audio/drivers/switch_audio.c:98 | while 48000 * latency fits in 32 bits, the flush threshold is 48 bytes per millisecond |
| SwitchAudioProps.ThresholdAt32 | audio/drivers/switch_audio.c:98 | a latency of 32 ms gives a threshold of 1536 bytes |
| SwitchAudioProps.ThresholdWraps | audio/drivers/switch_audio.c:98 | at 89479 ms the unsigned product wraps and the threshold falls to 24 bytes, below that of 1 ms |
| SwitchAudioProps.NeverFlushes | audio/drivers/switch_audio.c:91-104 | from 4011 ms of latency up to the wrap, the threshold is at least the capacity: a write never submits the current buffer, and once that buffer is full every write changes nothing and returns 0, in blocking mode too |
| SwitchAudioProps.CheckoutKeeps | audio/drivers/switch_audio.c:52-89 | the checkout keeps the flags and the latency. With a current buffer it makes no call and changes nothing. When it gets no buffer, the pool, the queue and "no current buffer" are kept, and starvation happens only in non-blocking mode, after one query. |
| SwitchAudioProps.FreshCheckout | audio/drivers/switch_audio.c:55-88 | a newly checked-out buffer is the oldest queued one and leaves the queue. Its fill level is reset to 0; its bytes and the other buffers are untouched. |
| SwitchAudioProps.DepositCopies | audio/drivers/switch_audio.c:91-96 | the copy grows the fill level by the request cut to the space left, within capacity, and sets buffer_size to the capacity. The returned count is that growth or -1, the copied bytes are the request's first bytes at the old fill level, and nothing else changes. |
| SwitchAudioProps.WriteCopies | audio/drivers/switch_audio.c:91-96 | the same for the whole write, measured from the buffer as checked out |
| SwitchAudioProps.WriteFlushes | audio/drivers/switch_audio.c:98-104 | past the threshold there is exactly one append. On success the buffer joins the queue and is released; on failure the write returns -1 and the buffer stays current. At or below the threshold there is no call, and the buffer stays current. |
| SwitchAudioProps.WriteBounds | audio/drivers/switch_audio.c:91-108 | a write returns -1 or a count between 0 and the request's length |
| SwitchAudioProps.QueryFailure | audio/drivers/switch_audio.c:55-59 | a failed query makes the write return -1, with no buffer checked out and the pool and queue unchanged |
| SwitchAudioProps.NonBlockingStarves | audio/drivers/switch_audio.c:83-85 | non-blocking with nothing released: the write returns 0 after a single query, with no wait, no current buffer and the pool unchanged |
| SwitchAudioProps.NonBlockingNeverWaits | audio/drivers/switch_audio.c:52-104 | in non-blocking mode a write makes at most one query and at most one append, and never waits |
| SwitchAudioProps.BlockLoopRounds | audio/drivers/switch_audio.c:71-81 | after k answers that release nothing, a release ends the loop in round k+1 with the oldest buffer; the log holds exactly k+1 wait, reset and query rounds |
| SwitchAudioProps.BlockLoopFails | audio/drivers/switch_audio.c:79-80 | after k answers that release nothing, a failed query ends the loop in round k+1 with its status and no buffer |
| SwitchAudioProps.BlockingWaitsForRelease | audio/drivers/switch_audio.c:62-88 | a blocking write that finds nothing makes one wait round per answer that releases nothing, then takes the oldest queued buffer, emptied |
| SwitchAudioProps.BlockingQueryFails | audio/drivers/switch_audio.c:79-80 | a query failing inside the blocking loop makes the write return -1, after the rounds made so far |
| SwitchAudioProps.TwoWaits | audio/drivers/switch_audio.c:62-81 | the answers "none, none, released" give exactly two wait-and-reset rounds before the buffer is got |
| SwitchAudioProps.FlushAt1537 | audio/drivers/switch_audio.c:91-104 | at 32 ms latency, 1537 bytes into a fresh buffer make exactly one append, and 1536 bytes make none |
| SwitchAudioProps.WriteTouchesOnlyCheckedOut | audio/drivers/switch_audio.c:52-104 | the only buffer a write changes is the one it checked out, which is not queued with the service |
| SwitchAudioProps.StopPauses | audio/drivers/switch_audio.c:117-122 | a successful stop leaves the session paused and not alive, and a failed stop keeps the flag. The service is called exactly when the session was running, and the failure happens exactly when that call fails. Nothing else changes. |
| SwitchAudioProps.StartResumes | audio/drivers/switch_audio.c:129-134 | the mirror image for start |
| SwitchAudioProps.StopStartIdempotent | audio/drivers/switch_audio.c:117-134 | a second stop after a successful stop, or a second start after a successful start, succeeds with no service call and no change |
| SwitchAudioProps.WriteAvailIsCapacity | audio/drivers/switch_audio.c:163-171 | write_avail as written reports either 0 or the whole capacity, whatever the fill level |
| SwitchAudioProps.WriteAvailOverstates | audio/drivers/switch_audio.c:163-171 | once the current buffer holds any bytes, a write of the size write_avail reports is cut short |
| SwitchAudioProps.WriteAvailAfterShortWrite | audio/drivers/switch_audio.c:163-171 | after 1000 bytes at a latency of 21 ms or more, so below the threshold, write_avail reports 192512, but the next write of that size consumes at most 191512 |
| SwitchAudioProps.WriteAvailSpace | audio/drivers/switch_audio.c:163-171 | the corrected write_avail (capacity less fill level) never exceeds the capacity |
| SwitchAudioProps.WriteAvailSpaceExact | audio/drivers/switch_audio.c:163-171 | the corrected value is exactly the largest write consumed whole: anything up to it is taken in full, unless the submission fails, and anything longer is cut short |
| SwitchAudioProps.InitOpenedIff | audio/drivers/switch_audio.c:194-245 | init opens exactly when every setup call succeeds, the output is 48000 Hz stereo PCM_INT16, exactly one output is listed, and all three appends succeed |
| SwitchAudioProps.InitialSession | audio/drivers/switch_audio.c:247-254 | the opened session is paused (not alive), has no current buffer and blocks exactly when block_frames is non-zero. Buffers 0, 1 and 2 are queued in order, each full to capacity. |
| Bits.ZeroBit | input/connect/connect_wiiupro.c:109 | the empty mask has no bit set |
| Bits.OrBit | input/connect/connect_wiiupro.c:116-133 | a bit of a \| b is set exactly when it is set in a or in b |
| Bits.Pow2Bit | input/connect/connect_wiiupro.c:116-133 | 1 << s has bit s set and no other |
| Bits.OrBound | input/connect/connect_wiiupro.c:116-133 | OR-ing values below 2^n stays below 2^n |
| Bits.Pow2Monotone | input/connect/connect_wiiupro.c:116-133 | 2^s grows with s |
| Bits.Pow2Add | input/connect/connect_wiiupro.c:116-133 | 2^(a+b) = 2^a * 2^b |
| Bits.Pow2Is64 | input/connect/connect_wiiupro.c:107 | 2^64 is the modulus of uint64_t |
| WiiUPro.ReportBitsAreSingleBits | input/connect/connect_wiiupro.c:166-184 | every button is read from one of bytes 0x0C to 0x0E, through a single-bit mask |
| WiiUPro.ReportBitsDistinct | input/connect/connect_wiiupro.c:166-184 | no two buttons share a (byte, bit) pair |
| WiiUPro.ButtonsOfTable | input/connect/connect_wiiupro.c:166-184 | the 17 assignments (`ButtonsOf`) build exactly the buttons that read each button from the byte and the bit the per-button table gives |
| WiiUPro.ButtonsOfBit | input/connect/connect_wiiupro.c:166-184 | so each button of `ButtonsOf` is set exactly when its own bit of its own byte is set |
| WiiUPro.Invert | input/connect/connect_wiiupro.c:160-162 | the inverted byte shares no bit with the original, and together they cover all eight bits |
| WiiUPro.InvertedBit | input/connect/connect_wiiupro.c:160-162 | a bit of the inverted byte is set exactly when it was clear |
| WiiUPro.DecodePressed | input/connect/connect_wiiupro.c:160-184 | a button of the decoded report (`DecodeReport`, through `Decode`) reads as pressed exactly when its bit in the raw report is clear |
| WiiUPro.PacketHandler | input/connect/connect_wiiupro.c:145-185 | a null device leaves the packet untouched. Otherwise bytes 0x0C, 0x0D and 0x0E are inverted and every other byte is kept; the hat bytes are zero and the buttons are those the three raw bytes decode to, so nothing of the previous report survives. |
| WiiUPro.PackOrderComplete | input/connect/connect_wiiupro.c:116-133 | every one of the 17 buttons takes part in the packing (`PackOrder`, the order of the OR-ed lines) |
| WiiUPro.Flag | input/connect/connect_wiiupro.c:116-133 | one button's contribution fits in uint64_t |
| WiiUPro.FlagBit | input/connect/connect_wiiupro.c:116-133 | one button's contribution has only its own bit, and only when pressed |
| WiiUPro.Pack | input/connect/connect_wiiupro.c:109-135 | the accumulated mask stays a uint64_t value |
| WiiUPro.PackDrives | input/connect/connect_wiiupro.c:116-133 | a bit of the accumulated mask is set exactly when some button OR-ed in so far drives it |
| WiiUPro.DrivesSome | input/connect/connect_wiiupro.c:116-133 | that happens exactly when some pressed button of the list has that bit |
| WiiUPro.PackBits | input/connect/connect_wiiupro.c:116-133 | a bit of the packed mask is set exactly when some pressed button of the list has that id |
| WiiUPro.PackOrderBits | input/connect/connect_wiiupro.c:116-133 | in source order, with each button shifted to the id `MaskBit` assigns it, every set bit belongs to a pressed button, and with distinct ids each button's bit is set exactly when the button is pressed |
| WiiUPro.GetButtons | input/connect/connect_wiiupro.c:107-136 | a null device gives 0. Otherwise no bit is set except the bit of a pressed button, and with distinct ids bit ID_k is set exactly when button k is pressed. |
| WiiUPro.GetAxis | input/connect/connect_wiiupro.c:138-143 | every axis reads 0 |
| WiiUPro.MaskFromRawReport | input/connect/connect_wiiupro.c:107-185 | end to end, with distinct ids, the mask bit of a button is set exactly when that button's bit in the raw report was clear |

## Left out

- The null-session guards of switch_audio.c are left out, because the Session methods run on an existing object. In the source a null session makes write return -1 (lines 49-50), stop return false (114-115), alive return false (140-141) and write_avail return 0 (167); set_nonblock_state does nothing (177). switch_audio_start (125-135) has no null guard at all.
- `last_append` and `svcGetSystemTick` are left out; they are diagnostics that are never read.
- `svcWaitSynchronization`, `svcResetSignal` and the 33 ms timeout are left out as time and OS synchronisation. They appear only as logged calls that change nothing.
- The blocking loop may spin forever in the source if the service never releases a buffer. In the model the replies are a finite script and an exhausted script answers failure, so the loop always ends. The model does not capture an endless wait.
- The service is assumed to release buffers in the order they were queued and at most one per query. It is also assumed to hand back a buffer exactly when the count is at least one, and to leave the current-buffer pointer untouched when a query fails or releases nothing. So the reset of switch_audio.c:62-63 (count below one drops the pointer) can never fire in the model. The blocking loop (79-81) has no such reset: were the service to write a pointer with a count of 0, the loop would end with it and line 88 would empty a buffer that may still be queued. That WriteSpec keeps the ownership half of the session invariant (each buffer queued once or checked out, never both) rests on this assumption.
- `alloc_pages` failure (switch_audio.c:240-241) is left out, along with `calloc` failure and the goto unwind with `audio_ipc_output_close` and `audio_ipc_finalize`. This is resource plumbing, and allocation is taken to succeed. Page alignment enters only as the page-rounded size. The contents of the fresh pages are not specified by the source; the model fills them with zero bytes, and no property depends on them.
- The names list of `audio_ipc_list_outputs` is left out; only the count and the status take part. The `device` and `rate` arguments of init are not read by the source.
- Sample memory is a sequence of bytes held in the buffer record. This leaves out the `ptr` and `unknown` fields and the aliasing between the pool and the service.
- `switch_audio_free`, `switch_audio_use_float` and `switch_audio_buffer_size` (switch_audio.c:145-161 and 270-274) are left out: resource release and two constant getters.
- The logging macros are left out, and so are the dispatch tables `audio_switch` and `pad_connection_wiiupro`.
- `hidpad_wiiupro_init`, `deinit`, `send_control`, `set_rumble` and the disabled `#if 0` block of connect_wiiupro.c are left out. They are foreign callbacks, allocation and an empty stub.
- WiiUPro.PacketHandler requires the packet to hold at least 0x0F bytes, because the source indexes it without checking `size`. It stores the 17 button assignments as one record value, which `ButtonsOf` spells out field by field.
- The joypad ids `RETRO_DEVICE_ID_JOYPAD_*` and `RARCH_MENU_TOGGLE` are parameters below 64; their header values are not part of this model.
- Session.WriteAvail follows the code and reports the `buffer_size` field. The behaviour is described as "available space", and this disagreement is logged under Findings.

## Findings

| source | as written | input that shows it | evidently intended | confidence | as-written member | corrected member |
|---|---|---|---|---|---|---|
| audio/drivers/switch_audio.c:163-171 | write_avail returns the `buffer_size` field of the current buffer. That field always equals the capacity, so the result is 0 or 192512 whatever the fill level. | a fresh buffer after a 1000-byte write below the flush threshold: write_avail reports 192512, but a write of 192512 bytes consumes at most 191512 | the space left in the current buffer, capacity minus fill level | low to medium (a design choice of the frontend is possible); not executed | SwitchAudioProps.WriteAvailOverstates | SwitchAudioProps.WriteAvailSpaceExact |
