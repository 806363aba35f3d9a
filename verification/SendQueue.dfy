/** The sending half of Session.cs: buffers are queued, and handed to the socket in batches of
    which one at most is on its way. */
module SendQueue {
  import opened Seqs

  type Buffer = int

  /** What SendAsync does with a batch. */
  datatype Outcome = Pending | CompletesNow(success: bool) | Throws

  class SendSession {
    var sendQueue: seq<Buffer>
    var pendingList: seq<Buffer>
    var disconnected: bool
    /** Everything queued so far, in order. */
    ghost var enqueued: seq<Buffer>
    /** The batches the socket has been given, in order. */
    ghost var handed: seq<seq<Buffer>>
    /** The socket holds a batch whose completion has not been reported. */
    ghost var inFlight: bool
    /** SendAsync has thrown. */
    ghost var failed: bool

    /** The batches are always the beginning of what was queued. While the connection lives, the
        queue is the remainder; it waits only behind a pending batch, and a batch is pending
        exactly while the socket has it (or for good, if the socket has thrown). */
    ghost predicate Valid()
      reads this
    {
      && Concat(handed) <= enqueued
      && (!disconnected ==>
            && Concat(handed) + sendQueue == enqueued
            && (sendQueue != [] ==> pendingList != [])
            && (pendingList != [] <==> inFlight || failed)
            && (pendingList != [] ==> handed != [] && handed[|handed| - 1] == pendingList))
      && !(inFlight && failed)
    }

    /** A batch may be started: nothing is pending. */
    ghost predicate Idle()
      reads this
    {
      pendingList == [] && !inFlight && !failed && Concat(handed) + sendQueue == enqueued
    }

    constructor ()
      ensures Valid() && !disconnected && sendQueue == [] && enqueued == [] && handed == [] && !inFlight && !failed
    {
      sendQueue, pendingList, disconnected := [], [], false;
      enqueued, handed, inFlight, failed := [], [], false, false;
    }

    /** Send: `outcome` is what the socket does if a batch is started now, which happens exactly
        when no other batch is pending. */
    method Send(buffers: seq<Buffer>, outcome: Outcome)
      requires Valid()
      modifies this
      ensures Valid() && enqueued == old(enqueued) + buffers
      ensures handed == if old(disconnected || inFlight || failed) || buffers == [] then old(handed)
                        else old(handed) + [buffers]
    {
      if |buffers| == 0 {
        assert enqueued + buffers == enqueued;
        return;
      }
      Enqueue(buffers);
      assert Concat(handed) + (old(sendQueue) + buffers) == Concat(handed) + old(sendQueue) + buffers;
      assert old(sendQueue) == [] ==> sendQueue == buffers;
      if |pendingList| == 0 {
        RegisterSend(outcome);
      }
    }

    method Enqueue(buffers: seq<Buffer>)
      modifies `sendQueue, `enqueued
      ensures sendQueue == old(sendQueue) + buffers && enqueued == old(enqueued) + buffers
    {
      for i := 0 to |buffers|
        invariant sendQueue == old(sendQueue) + buffers[..i] && enqueued == old(enqueued) + buffers[..i]
      {
        sendQueue := sendQueue + [buffers[i]];
        enqueued := enqueued + [buffers[i]];
      }
    }

    /** The whole queue becomes one batch. A batch that completes at once is dealt with here. */
    method RegisterSend(outcome: Outcome)
      requires Concat(handed) <= enqueued && !(inFlight && failed)
      requires !disconnected ==> Idle() && sendQueue != []
      modifies this
      ensures Valid() && enqueued == old(enqueued)
      ensures handed == if old(disconnected) then old(handed) else old(handed) + [old(sendQueue)]
      ensures old(disconnected) ==> disconnected && sendQueue == old(sendQueue)
      decreases |sendQueue|, 0
    {
      if disconnected {
        return;
      }
      while |sendQueue| > 0
        invariant pendingList + sendQueue == old(sendQueue)
        modifies `sendQueue, `pendingList
        decreases |sendQueue|
      {
        pendingList := pendingList + [sendQueue[0]];
        sendQueue := sendQueue[1..];
      }
      assert pendingList == old(sendQueue) && sendQueue == [];
      ConcatSnoc(handed, pendingList);
      assert Concat(handed + [pendingList]) + [] == enqueued;
      handed := handed + [pendingList];
      match outcome {
        case Pending =>
          inFlight := true;
        case CompletesNow(success) =>
          inFlight := true;
          OnSendCompleted(success, outcome, true);
        case Throws =>
          failed := true;
      }
    }

    /** The socket reports the batch in flight; `next` is what it does with the following one. */
    method OnSendCompleted(success: bool, next: Outcome, closes: bool)
      requires Valid() && inFlight
      modifies this
      ensures Valid() && enqueued == old(enqueued)
      ensures handed == if success && !old(disconnected) && old(sendQueue) != [] then old(handed) + [old(sendQueue)]
                        else old(handed)
      ensures !success || old(disconnected) ==> disconnected
      decreases |sendQueue|, 1
    {
      inFlight := false;
      if success {
        pendingList := [];
        if |sendQueue| > 0 {
          RegisterSend(next);
        }
      } else {
        Disconnect(closes);
      }
    }

    /** Disconnect: both lists are dropped, unless closing the socket throws first. */
    method Disconnect(closes: bool)
      requires Concat(handed) <= enqueued && !(inFlight && failed)
      modifies `disconnected, `sendQueue, `pendingList
      ensures Valid() && disconnected
    {
      if disconnected {
        return;
      }
      disconnected := true;
      if closes {
        sendQueue, pendingList := [], [];
      }
    }
  }
}
