/**
  The shared write buffer: socket_queue_data of src/rtmp/rtmp-stream.c fills it, the socket
  thread of src/rtmp/rtmp-windows.c empties it.  Each step is one stretch under
  write_buf_mutex; what send returns is an input.
 */
module WriteBuffer {
  import opened Common
  import opened Memory

  // ----- the steps on values ----------------------------------------------

  /** `queued` and `sent` are all the bytes ever put in and ever sent. */
  datatype World = World(
    capacity: nat, buffered: seq<byte>, queued: seq<byte>, sent: seq<byte>,
    canWrite: bool, signalled: bool, exited: bool, failed: bool)

  // What RTMPSockBuf_Send returns.
  datatype SendResult = Sent(n: pos) | WouldBlock | Error

  datatype Event =
    | Queue(data: seq<byte>)       // one attempt of socket_queue_data
    | SignalExit                   // the sending thread is done
    | Writable                     // FD_WRITE
    | Write(offer: nat, result: SendResult)
    | SocketFailure
    | CheckExit

  function Start(capacity: nat): World {
    World(capacity, [], [], [], false, false, false, false)
  }

  predicate HasRoom(w: World, data: seq<byte>) {
    |w.buffered| + |data| <= w.capacity
  }

  // fatal_sock_shutdown
  function Shutdown(w: World): World {
    w.(buffered := [], failed := true)
  }

  // write_data, offering at most `offer` bytes to send.
  function WriteStep(w: World, result: SendResult): World {
    if w.buffered == [] then w else
    match result
    case Sent(n) =>
      if n <= |w.buffered| then w.(buffered := w.buffered[n..], sent := w.sent + w.buffered[..n]) else w
    case WouldBlock => w.(canWrite := false)
    case Error => Shutdown(w)
  }

  function Step(w: World, e: Event): World {
    match e
    case Queue(data) =>
      if !w.failed && HasRoom(w, data) then w.(buffered := w.buffered + data, queued := w.queued + data) else w
    case SignalExit => w.(signalled := true)
    case Writable => w.(canWrite := true)
    case Write(_, result) => WriteStep(w, result)
    case SocketFailure => Shutdown(w)
    case CheckExit => if w.signalled && w.buffered == [] then w.(exited := true, signalled := false) else w
  }

  // The sending thread queues nothing after its signal; the socket thread does nothing after it
  // has ended, writes only when the socket takes data, and send takes at most what it is offered.
  predicate MayHappen(w: World, done: bool, e: Event) {
    match e
    case Queue(_) => !done
    case SignalExit => !done
    case Write(offer, result) =>
      !w.exited && !w.failed && w.canWrite && (result.Sent? ==> result.n <= offer <= |w.buffered|)
    case _ => !w.exited && !w.failed
  }

  // ----- whole runs -------------------------------------------------------

  predicate Done(es: seq<Event>) {
    exists k :: 0 <= k < |es| && es[k].SignalExit?
  }

  ghost predicate IsRun(capacity: nat, es: seq<Event>, ws: seq<World>) {
    && |ws| == |es| + 1 && ws[0] == Start(capacity)
    && forall n {:trigger es[n]} :: 0 <= n < |es| ==>
       MayHappen(ws[n], Done(es[..n]), es[n]) && ws[n + 1] == Step(ws[n], es[n])
  }

  ghost predicate Inv(w: World, done: bool) {
    && |w.buffered| <= w.capacity
    && (!w.failed ==> w.sent + w.buffered == w.queued)
    && w.sent <= w.queued
    && (w.signalled ==> done)
    && (w.exited ==> done && !w.failed && w.buffered == [])
  }

  lemma StepKeepsInv(w: World, done: bool, e: Event)
    requires Inv(w, done) && MayHappen(w, done, e)
    ensures Inv(Step(w, e), done || e.SignalExit?)
  {
    match e
    case Queue(data) =>
      assert w.sent + (w.buffered + data) == (w.sent + w.buffered) + data;
    case Write(_, result) =>
      if result.Sent? && w.buffered != [] {
        assert w.buffered == w.buffered[..result.n] + w.buffered[result.n..];
        assert w.sent + w.buffered[..result.n] + w.buffered[result.n..] == w.sent + w.buffered;
      }
    case _ =>
  }

  lemma DoneGrows(es: seq<Event>, n: nat)
    requires n < |es|
    ensures Done(es[..n + 1]) <==> Done(es[..n]) || es[n].SignalExit?
  {
    assert es[..n + 1] == es[..n] + [es[n]];
    if Done(es[..n]) {
      var k :| 0 <= k < n && es[..n][k].SignalExit?;
      assert es[..n + 1][k].SignalExit?;
    }
    if es[n].SignalExit? {
      assert es[..n + 1][n].SignalExit?;
    }
  }

  lemma {:induction false} RunKeepsInv(capacity: nat, es: seq<Event>, ws: seq<World>, n: nat)
    requires IsRun(capacity, es, ws) && n < |ws|
    ensures Inv(ws[n], Done(es[..n])) && ws[n].capacity == capacity
  {
    if n > 0 {
      RunKeepsInv(capacity, es, ws, n - 1);
      StepKeepsInv(ws[n - 1], Done(es[..n - 1]), es[n - 1]);
      DoneGrows(es, n - 1);
    }
  }

  /**
    Lossless and in order: in every run, what was sent followed by what is buffered is what was
    queued, unless the socket has failed; even then what was sent is a prefix of it.  The buffer
    never overflows.
   */
  lemma LosslessFifo(capacity: nat, es: seq<Event>, ws: seq<World>, n: nat)
    requires IsRun(capacity, es, ws) && n < |ws|
    ensures !ws[n].failed ==> ws[n].sent + ws[n].buffered == ws[n].queued
    ensures ws[n].sent <= ws[n].queued && |ws[n].buffered| <= capacity
  {
    RunKeepsInv(capacity, es, ws, n);
  }

  /**
    A normal exit means that every byte ever queued was sent: nothing is in the buffer, and the
    run is over.
   */
  lemma ExitMeansAllSent(capacity: nat, es: seq<Event>, ws: seq<World>, n: nat)
    requires IsRun(capacity, es, ws) && n < |ws| && ws[n].exited
    ensures ws[n].sent == ws[n].queued && n == |es|
  {
    RunKeepsInv(capacity, es, ws, n);
    if n < |es| {
      NothingAfterExit(ws[n], Done(es[..n]), es[n]);
    }
  }

  lemma NothingAfterExit(w: World, done: bool, e: Event)
    requires Inv(w, done) && w.exited
    ensures !MayHappen(w, done, e)
  {
  }

  // ----- what the events do to a run --------------------------------------

  // What the attempts that found room have put in, in the first n events.
  ghost function PutIn(es: seq<Event>, ws: seq<World>, n: nat): seq<byte>
    requires n <= |es| && |ws| == |es| + 1
  {
    if n == 0 then [] else
    var w := ws[n - 1];
    match es[n - 1]
    case Queue(data) =>
      PutIn(es, ws, n - 1) + if !w.failed && |w.buffered| + |data| <= w.capacity then data else []
    case _ => PutIn(es, ws, n - 1)
  }

  // How many bytes send has said it took, in the first n events.
  ghost function Taken(es: seq<Event>, ws: seq<World>, n: nat): nat
    requires n <= |es| && |ws| == |es| + 1
  {
    if n == 0 then 0 else
    Taken(es, ws, n - 1)
    + if es[n - 1].Write? && es[n - 1].result.Sent? && ws[n - 1].buffered != [] then es[n - 1].result.n else 0
  }

  /**
    In every run the data of every attempt that found room is queued, and only that; and as many
    bytes are sent, from the front of what is queued, as send said it took.
   */
  lemma {:induction false} QueuedAndSentExactly(capacity: nat, es: seq<Event>, ws: seq<World>, n: nat)
    requires IsRun(capacity, es, ws) && n < |ws|
    ensures ws[n].queued == PutIn(es, ws, n)
    ensures |ws[n].sent| == Taken(es, ws, n) <= |ws[n].queued| && ws[n].sent == ws[n].queued[..Taken(es, ws, n)]
  {
    RunKeepsInv(capacity, es, ws, n);
    if n > 0 {
      QueuedAndSentExactly(capacity, es, ws, n - 1);
      RunKeepsInv(capacity, es, ws, n - 1);
      assert MayHappen(ws[n - 1], Done(es[..n - 1]), es[n - 1]);
    }
  }

  /**
    Nothing is buffered, queued or sent any more once the socket has failed; it fails exactly
    when send reports an error, with something to send, or the socket does.
   */
  lemma {:induction false} NothingAfterFailure(capacity: nat, es: seq<Event>, ws: seq<World>, n: nat, m: nat)
    requires IsRun(capacity, es, ws) && n <= m < |ws| && ws[n].failed
    ensures ws[m].failed && ws[m].buffered == [] && ws[m].queued == ws[n].queued && ws[m].sent == ws[n].sent
    decreases m
  {
    if n < m {
      NothingAfterFailure(capacity, es, ws, n, m - 1);
      assert MayHappen(ws[m - 1], Done(es[..m - 1]), es[m - 1]);
    } else {
      FailedIsEmpty(capacity, es, ws, n);
    }
  }

  lemma {:induction false} FailedIsEmpty(capacity: nat, es: seq<Event>, ws: seq<World>, n: nat)
    requires IsRun(capacity, es, ws) && n < |ws| && ws[n].failed
    ensures ws[n].buffered == []
  {
    if n > 0 {
      if ws[n - 1].failed {
        FailedIsEmpty(capacity, es, ws, n - 1);
      }
      assert MayHappen(ws[n - 1], Done(es[..n - 1]), es[n - 1]);
    }
  }

  lemma FailsExactly(capacity: nat, es: seq<Event>, ws: seq<World>, n: nat)
    requires IsRun(capacity, es, ws) && n < |es|
    ensures ws[n + 1].failed <==>
              ws[n].failed || es[n].SocketFailure? || (es[n].Write? && es[n].result.Error? && ws[n].buffered != [])
  {
    assert MayHappen(ws[n], Done(es[..n]), es[n]);
  }

  /**
    After send would have blocked, the socket thread does not write until the socket reports
    that it takes data again.
   */
  lemma {:induction false} WaitsUntilWritable(capacity: nat, es: seq<Event>, ws: seq<World>, n: nat, m: nat)
    requires IsRun(capacity, es, ws) && n < m < |es|
    requires es[n].Write? && es[n].result.WouldBlock? && ws[n].buffered != []
    requires forall k :: n < k < m ==> !es[k].Writable?
    ensures !ws[m].canWrite && !es[m].Write?
    decreases m
  {
    assert MayHappen(ws[m - 1], Done(es[..m - 1]), es[m - 1]) && MayHappen(ws[m], Done(es[..m]), es[m]);
    if n < m - 1 {
      WaitsUntilWritable(capacity, es, ws, n, m - 1);
    }
  }

  /**
    The exit test ends the socket thread exactly when the sending thread is done and everything
    is out.
   */
  lemma ExitsExactly(capacity: nat, es: seq<Event>, ws: seq<World>, n: nat)
    requires IsRun(capacity, es, ws) && n < |es| && es[n] == CheckExit
    ensures ws[n + 1].exited <==> Done(es[..n]) && ws[n].buffered == []
  {
    SignalStays(capacity, es, ws, n);
    RunKeepsInv(capacity, es, ws, n);
    assert MayHappen(ws[n], Done(es[..n]), es[n]);
  }

  lemma {:induction false} SignalStays(capacity: nat, es: seq<Event>, ws: seq<World>, n: nat)
    requires IsRun(capacity, es, ws) && n < |ws|
    ensures Done(es[..n]) ==> ws[n].signalled || ws[n].exited
  {
    if n > 0 {
      SignalStays(capacity, es, ws, n - 1);
      DoneGrows(es, n - 1);
      assert MayHappen(ws[n - 1], Done(es[..n - 1]), es[n - 1]);
    }
  }

  // ----- what can be queued -----------------------------------------------

  function After(w: World, es: seq<Event>): World
    decreases |es|
  {
    if es == [] then w else After(Step(w, es[0]), es[1..])
  }

  // The socket thread's part of a run, while a sender waits for room.
  predicate SocketMay(w: World, es: seq<Event>)
    decreases |es|
  {
    es != [] ==> !es[0].Queue? && !es[0].SignalExit? && MayHappen(w, false, es[0]) && SocketMay(Step(w, es[0]), es[1..])
  }

  predicate GetsThrough(w: World, es: seq<Event>, data: seq<byte>) {
    SocketMay(w, es) && After(w, es + [Queue(data)]).queued == w.queued + data
  }

  lemma {:induction false} SocketKeepsQueued(w: World, es: seq<Event>, data: seq<byte>)
    requires SocketMay(w, es)
    ensures After(w, es).queued == w.queued && After(w, es).capacity == w.capacity
    ensures After(w, es + [Queue(data)]) == Step(After(w, es), Queue(data))
    decreases |es|
  {
    hide MayHappen;
    if es == [] {
      assert [] + [Queue(data)] == [Queue(data)] && [Queue(data)][1..] == [];
    } else {
      assert (es + [Queue(data)])[1..] == es[1..] + [Queue(data)];
      SocketKeepsQueued(Step(w, es[0]), es[1..], data);
    }
  }

  // Once the socket takes data, one write can empty the buffer.
  function Emptying(w: World): seq<Event> {
    if w.buffered == [] then [] else [Writable, Write(|w.buffered|, Sent(|w.buffered|))]
  }

  lemma EmptyingMay(w: World)
    requires !w.failed && !w.exited
    ensures SocketMay(w, Emptying(w)) && After(w, Emptying(w)).buffered == [] && !After(w, Emptying(w)).failed
  {
    var es := Emptying(w);
    if es != [] {
      var w1 := Step(w, es[0]);
      var w2 := Step(w1, es[1]);
      var last := [es[1]];
      assert es[1..] == last && last[1..] == [];
      assert After(w2, []) == w2 && After(w1, last) == w2;
      assert SocketMay(w2, []) && SocketMay(w1, last);
    }
  }

  /**
    From every state of a run in which neither side has ended, the socket thread can come to
    take what is waiting to be queued if and only if it is no longer than the buffer.
   */
  lemma GetsThroughExactly(w: World, data: seq<byte>)
    requires Inv(w, false) && !w.failed && !w.exited && data != []
    ensures (exists es :: GetsThrough(w, es, data)) <==> |data| <= w.capacity
  {
    if |data| <= w.capacity {
      var es := Emptying(w);
      EmptyingMay(w);
      SocketKeepsQueued(w, es, data);
      assert GetsThrough(w, es, data);
    } else {
      forall es | SocketMay(w, es)
        ensures !GetsThrough(w, es, data)
      {
        SocketKeepsQueued(w, es, data);
        assert |w.queued + data| != |w.queued|;
      }
    }
  }

  // ----- the buffer in place ----------------------------------------------

  class Buffer {
    const writeBuf: array<byte>
    var writeBufLen: nat
    var canWrite: bool
    var sendThreadSignaledExit: bool
    var exited: bool
    var failed: bool
    ghost var queued: seq<byte>
    ghost var sent: seq<byte>

    ghost predicate Valid()
      reads this
    {
      writeBufLen <= writeBuf.Length
    }

    ghost function View(): World
      requires Valid()
      reads this, writeBuf
    {
      World(writeBuf.Length, writeBuf[..writeBufLen], queued, sent, canWrite, sendThreadSignaledExit, exited, failed)
    }

    constructor (writeBufSize: nat)
      ensures Valid() && View() == Start(writeBufSize) && fresh(writeBuf)
    {
      writeBuf := new byte[writeBufSize](_ => 0);
      writeBufLen, canWrite, sendThreadSignaledExit, exited, failed := 0, false, false, false, false;
      queued, sent := [], [];
    }

    /**
      One attempt of socket_queue_data; it is repeated while there is no room.
     */
    method QueueData(data: seq<byte>) returns (done: bool, len: nat)
      requires Valid()
      modifies this`writeBufLen, this`queued, writeBuf
      ensures Valid() && View() == Step(old(View()), Queue(data))
      ensures done == (failed || |old(writeBuf[..writeBufLen])| + |data| <= writeBuf.Length)
      ensures len == if done && !failed then |data| else 0
    {
      if failed {
        return true, 0;
      }
      if writeBufLen + |data| > writeBuf.Length {
        return false, 0;
      }
      ghost var before := writeBuf[..writeBufLen];
      Store(writeBuf, writeBufLen, data);
      writeBufLen := writeBufLen + |data|;
      assert writeBuf[..writeBufLen] == before + data;
      queued := queued + data;
      done, len := true, |data|;
    }

    // memmove of what was not sent to the front.
    method MoveDown(n: nat)
      requires Valid() && n <= writeBufLen
      modifies writeBuf
      ensures writeBuf[..writeBufLen - n] == old(writeBuf[n..writeBufLen])
    {
      var i := 0;
      while i < writeBufLen - n
        invariant 0 <= i <= writeBufLen - n
        invariant writeBuf[..i] == old(writeBuf[n..n + i])
        invariant forall k :: i <= k < writeBuf.Length ==> writeBuf[k] == old(writeBuf[k])
      {
        writeBuf[i] := writeBuf[n + i];
        assert old(writeBuf[n..n + i]) + [old(writeBuf[n + i])] == old(writeBuf[n..n + (i + 1)]);
        assert writeBuf[..i + 1] == writeBuf[..i] + [writeBuf[i]];
        i := i + 1;
      }
    }

    /**
      write_data: the bytes that send took leave the buffer.
     */
    method WriteData(lowLatency: bool, latencyPacketSize: nat, result: SendResult) returns (r: DataRet)
      requires Valid()
      requires result.Sent? ==> result.n <= if lowLatency then Min(latencyPacketSize, writeBufLen) else writeBufLen
      modifies this, writeBuf
      ensures Valid() && View() == WriteStep(old(View()), result)
      ensures r == RET_FATAL <==> old(writeBufLen) > 0 && result.Error?
      ensures r == RET_CONTINUE <==> result.Sent? && old(writeBufLen) > 0 && writeBufLen > 1000
    {
      if writeBufLen == 0 {
        return RET_BREAK;
      }
      match result {
        case Sent(ret) =>
          ghost var before := writeBuf[..writeBufLen];
          if writeBufLen - ret != 0 {
            MoveDown(ret);
          }
          writeBufLen := writeBufLen - ret;
          assert writeBuf[..writeBufLen] == before[ret..];
          sent := sent + before[..ret];
        case WouldBlock =>
          canWrite := false;
          return RET_BREAK;
        case Error =>
          writeBufLen := 0;
          failed := true;
          return RET_FATAL;
      }
      r := if writeBufLen <= 1000 then RET_BREAK else RET_CONTINUE;
    }

    // The exit test at the head of the socket thread's loop.
    method CheckForExit() returns (leave: bool)
      requires Valid()
      modifies this
      ensures Valid() && View() == Step(old(View()), CheckExit)
      ensures leave <==> old(sendThreadSignaledExit) && old(writeBufLen) == 0
    {
      leave := false;
      if sendThreadSignaledExit {
        if writeBufLen == 0 {
          sendThreadSignaledExit := false;
          exited := true;
          leave := true;
        }
      }
    }
  }

  datatype DataRet = RET_BREAK | RET_FATAL | RET_CONTINUE
}
