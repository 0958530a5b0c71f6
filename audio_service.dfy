/**
 * The audio output service that the Switch audio driver talks to over IPC
 * (the audio_ipc_output_* calls), as an abstract value.
 *
 * The service keeps a FIFO queue of submitted buffers (identified by their
 * slot in the driver's 3-entry pool) and releases them back in order.  What
 * the real service answers, and when, is not known to the driver: every
 * fallible call takes the next reply of a finite script of replies, and a
 * call made when the script is exhausted fails.  Every call is logged, so
 * that properties can speak about which calls the driver made.
 */
module AudioService {

  datatype Option<T> = None | Some(value: T)

  /** The service calls the driver makes. */
  datatype Call =
    | GetReleased        // audio_ipc_output_get_released_buffer
    | Append(slot: nat)  // audio_ipc_output_append_buffer
    | StartOutput        // audio_ipc_output_start
    | StopOutput         // audio_ipc_output_stop
    | Wait               // svcWaitSynchronization on the release event
    | ResetSignal        // svcResetSignal on the release event

  /**
   * One answer of the service: the status code (0 is success) and, for a
   * query of released buffers, whether the service has finished with the
   * oldest queued buffer.
   */
  datatype Reply = Reply(status: int, release: bool)

  /** The opened output (audio_output_t): the queue, the replies still to come and the calls so far. */
  datatype AudioOut = AudioOut(queue: seq<nat>, replies: seq<Reply>, log: seq<Call>)

  /** The answer to the next fallible call; an exhausted script answers failure. */
  function NextReply(o: AudioOut): Reply
  {
    if o.replies == [] then Reply(-1, false) else o.replies[0]
  }

  /** The replies left once the next one is used. */
  function RestReplies(o: AudioOut): (rest: seq<Reply>)
    ensures o.replies != [] ==> |rest| == |o.replies| - 1
    ensures o.replies == [] ==> rest == []
  {
    if o.replies == [] then [] else o.replies[1..]
  }

  /** What a query of released buffers answers: the status, the count and the buffer. */
  datatype Released = Released(out: AudioOut, status: int, num: nat, buffer: Option<nat>)

  /**
   * audio_ipc_output_get_released_buffer: on success with a release, the
   * oldest queued buffer leaves the queue and is handed back with a count of
   * one; otherwise no buffer is handed back and the count is zero.
   */
  function GetReleasedBuffer(o: AudioOut): (r: Released)
    ensures r.out.log == o.log + [GetReleased]
    ensures r.status == 0 ==> |r.out.replies| < |o.replies|
    ensures r.buffer.Some? <==> r.num >= 1
    ensures r.buffer.Some? ==>
      r.status == 0 && o.queue != [] && r.buffer.value == o.queue[0] && r.out.queue == o.queue[1..]
    ensures r.buffer.None? ==> r.out.queue == o.queue
  {
    var reply := NextReply(o);
    var o' := o.(replies := RestReplies(o), log := o.log + [GetReleased]);
    if reply.status == 0 && reply.release && o.queue != [] then
      Released(o'.(queue := o.queue[1..]), 0, 1, Some(o.queue[0]))
    else
      Released(o', reply.status, 0, None)
  }

  /** The new service state and the status of a call that only succeeds or fails. */
  datatype Outcome = Outcome(out: AudioOut, status: int)

  /** audio_ipc_output_append_buffer: on success the buffer joins the back of the queue. */
  function AppendBuffer(o: AudioOut, slot: nat): (r: Outcome)
    ensures r.out.log == o.log + [Append(slot)]
    ensures r.status == 0 ==> r.out.queue == o.queue + [slot]
    ensures r.status != 0 ==> r.out.queue == o.queue
  {
    var reply := NextReply(o);
    var o' := o.(replies := RestReplies(o), log := o.log + [Append(slot)]);
    if reply.status == 0 then Outcome(o'.(queue := o.queue + [slot]), 0)
    else Outcome(o', reply.status)
  }

  /** audio_ipc_output_start: the queue is untouched. */
  function Start(o: AudioOut): (r: Outcome)
    ensures r.out.log == o.log + [StartOutput] && r.out.queue == o.queue
  {
    Outcome(o.(replies := RestReplies(o), log := o.log + [StartOutput]), NextReply(o).status)
  }

  /** audio_ipc_output_stop: the queue is untouched. */
  function Stop(o: AudioOut): (r: Outcome)
    ensures r.out.log == o.log + [StopOutput] && r.out.queue == o.queue
  {
    Outcome(o.(replies := RestReplies(o), log := o.log + [StopOutput]), NextReply(o).status)
  }

  /** Waiting on, and resetting, the release event: logged, nothing else changes. */
  function WaitEvent(o: AudioOut): (r: AudioOut)
    ensures r.log == o.log + [Wait] && r.queue == o.queue && r.replies == o.replies
  {
    o.(log := o.log + [Wait])
  }

  function ResetEvent(o: AudioOut): (r: AudioOut)
    ensures r.log == o.log + [ResetSignal] && r.queue == o.queue && r.replies == o.replies
  {
    o.(log := o.log + [ResetSignal])
  }
}
