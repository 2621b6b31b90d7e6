/**
 * The worker's receive / execute / reply loop (`AbstractWorker.run`).
 *
 * The worker's side of the transport is an inbox of messages from the controller
 * and a log of what the worker sent; `execute` is the user's `execute_task`,
 * applied to whatever the message's problem field holds.
 */
module Workers {
  import opened Wrappers
  import opened Protocol

  /** Index of the first should-exit message, or `|msgs|` when there is none. */
  function FirstExit<T>(msgs: seq<Msg<T>>): (k: nat)
    ensures k <= |msgs|
  {
    if msgs == [] || msgs[0].shouldExit then 0 else 1 + FirstExit(msgs[1..])
  }

  /** `FirstExit` is the index of the first should-exit message: none before it, and it is one. */
  lemma {:induction false} FirstExitMeans<T>(msgs: seq<Msg<T>>)
    ensures forall i :: 0 <= i < FirstExit(msgs) ==> !msgs[i].shouldExit
    ensures FirstExit(msgs) < |msgs| ==> msgs[FirstExit(msgs)].shouldExit
  {
    if msgs != [] && !msgs[0].shouldExit {
      FirstExitMeans(msgs[1..]);
    }
  }

  /** What a worker sends after receiving `msgs` in order: one reply to rank 0 per message, up to the first exit. */
  function Replies<T, R>(execute: Option<T> -> R, msgs: seq<Msg<T>>): seq<Send<R>>
  {
    if msgs == [] || msgs[0].shouldExit then []
    else [Send(0, execute(msgs[0].problem))] + Replies(execute, msgs[1..])
  }

  /**
   * Exactly one reply per message before the first exit message, in the order the
   * messages were received, each addressed to rank 0 and holding the executor's
   * result for that message's task.
   */
  lemma {:induction false} RepliesShape<T, R>(execute: Option<T> -> R, msgs: seq<Msg<T>>)
    ensures |Replies(execute, msgs)| == FirstExit(msgs)
    ensures forall i :: 0 <= i < FirstExit(msgs) ==> Replies(execute, msgs)[i] == Send(0, execute(msgs[i].problem))
  {
    if msgs != [] && !msgs[0].shouldExit {
      RepliesShape(execute, msgs[1..]);
    }
  }

  /** Nothing after the first exit message is processed: those messages cannot change the replies. */
  lemma {:induction false} RepliesIgnoreAfterExit<T, R>(execute: Option<T> -> R, before: seq<Msg<T>>, exit: Msg<T>, after: seq<Msg<T>>)
    requires forall i :: 0 <= i < |before| ==> !before[i].shouldExit
    requires exit.shouldExit
    ensures Replies(execute, before + [exit] + after) == Replies(execute, before)
    ensures Replies(execute, before) == Replies(execute, before + [exit])
    ensures FirstExit(before + [exit] + after) == |before|
  {
    if before == [] {
      assert (before + [exit] + after)[0] == exit;
      assert (before + [exit])[0] == exit;
    } else {
      assert (before + [exit] + after)[1..] == before[1..] + [exit] + after;
      assert (before + [exit])[1..] == before[1..] + [exit];
      RepliesIgnoreAfterExit(execute, before[1..], exit, after);
    }
  }

  /** Receiving `m` ahead of `rest`: an exit message ends the replies, any other message adds one. */
  lemma RepliesCons<T, R>(execute: Option<T> -> R, m: Msg<T>, rest: seq<Msg<T>>)
    ensures Replies(execute, [m] + rest) == if m.shouldExit then [] else [Send(0, execute(m.problem))] + Replies(execute, rest)
    ensures FirstExit([m] + rest) == if m.shouldExit then 0 else 1 + FirstExit(rest)
  {
    assert ([m] + rest)[1..] == rest;
  }

  /** Dropping a prefix leaves what followed it. */
  lemma DropPrefix<X>(a: seq<X>, b: seq<X>)
    ensures (a + b)[|a|..] == b
  {
  }

  /** The worker's end of the transport. */
  class WorkerComm<T, R> {
    /** Messages from the controller that arrived and were not yet received, oldest first. */
    var inbox: seq<Msg<T>>
    /** Every send the worker issued, in order. */
    var sent: seq<Send<R>>

    constructor ()
      ensures inbox == [] && sent == []
    {
      inbox := [];
      sent := [];
    }

    /** `recv()`: takes the oldest message that arrived. */
    method Recv() returns (m: Msg<T>)
      requires inbox != []
      modifies this
      ensures old(inbox) == [m] + inbox && sent == old(sent)
    {
      m := inbox[0];
      inbox := inbox[1..];
      assert old(inbox) == [m] + inbox;
    }

    /** `send(r, dest)`: appends one send to the log. */
    method Send(dest: int, r: R)
      modifies this
      ensures sent == old(sent) + [Protocol.Send(dest, r)] && inbox == old(inbox)
    {
      sent := sent + [Protocol.Send(dest, r)];
    }
  }

  class Worker<T, R> {
    const comm: WorkerComm<T, R>
    const rank: int
    /** The user's `execute_task`. */
    const execute: Option<T> -> R
    /** The process left by `sys.exit(0)`. */
    var exited: bool

    constructor (comm: WorkerComm<T, R>, rank: int, execute: Option<T> -> R)
      ensures this.comm == comm && this.rank == rank && this.execute == execute && !exited
    {
      this.comm := comm;
      this.rank := rank;
      this.execute := execute;
      exited := false;
    }

    /**
     * `run`: receives messages in order; a should-exit message stops the worker with
     * no reply, any other message is executed and its result sent to rank 0. When
     * the inbox is empty and the worker has not exited it is blocked in `recv`,
     * which is where this method returns.
     */
    method Run()
      requires !exited
      modifies this, comm
      ensures comm.sent == old(comm.sent) + Replies(execute, old(comm.inbox))
      ensures exited <==> FirstExit(old(comm.inbox)) < |old(comm.inbox)|
      ensures comm.inbox == if exited then old(comm.inbox)[FirstExit(old(comm.inbox)) + 1..] else []
    {
      ghost var received: seq<Msg<T>> := [];
      while comm.inbox != []
        invariant !exited
        invariant old(comm.inbox) == received + comm.inbox
        invariant old(comm.sent) + Replies(execute, old(comm.inbox)) == comm.sent + Replies(execute, comm.inbox)
        invariant FirstExit(old(comm.inbox)) == |received| + FirstExit(comm.inbox)
        decreases |comm.inbox|
      {
        ghost var sentBefore := comm.sent;
        var msg := comm.Recv();
        RepliesCons(execute, msg, comm.inbox);
        ConcatAssoc(received, [msg], comm.inbox);
        if ShouldExit(msg) {
          exited := true;
          DropPrefix(received + [msg], comm.inbox);
          return;
        }
        var task := Problem(msg);
        var results := execute(task);
        comm.Send(0, results);
        ConcatAssoc(sentBefore, [Protocol.Send(0, results)], Replies(execute, comm.inbox));
        received := received + [msg];
      }
    }
  }
}
