/**
 * The message-passing transport (MPI's communicator) reduced to what the controller
 * observes: the process count, the log of its sends, and the queue of results
 * that have arrived and not yet been received.
 */
module Transport {
  import opened Protocol

  class Comm<T, R> {
    /** `comm.Get_size()`: the number of processes, controller included. */
    const size: nat
    /** Every `isend` issued so far, in order. */
    var sent: seq<Send<Msg<T>>>
    /** Results that arrived from workers and are waiting to be received, in arrival order. */
    var pending: seq<Reply<R>>

    /** Every pending result comes from a worker rank: never from rank 0, never from outside the communicator. */
    ghost predicate Valid()
      reads this
    {
      forall i :: 0 <= i < |pending| ==> 1 <= pending[i].source < size
    }

    constructor (size: nat)
      ensures this.size == size && sent == [] && pending == [] && Valid()
    {
      this.size := size;
      sent := [];
      pending := [];
    }

    /** `isend(msg, dest)`: appends one send to the log. */
    method ISend(dest: int, msg: Msg<T>)
      modifies this
      ensures sent == old(sent) + [Send(dest, msg)]
      ensures pending == old(pending)
    {
      sent := sent + [Send(dest, msg)];
    }

    /** `Iprobe(source=ANY_SOURCE)`: is any result waiting? */
    method IProbe() returns (b: bool)
      ensures b <==> pending != []
    {
      b := pending != [];
    }

    /** `recv(status=status)`: takes the oldest waiting result together with its source rank. */
    method Recv() returns (r: Reply<R>)
      requires pending != []
      modifies this
      ensures old(pending) == [r] + pending && sent == old(sent)
      ensures old(Valid()) ==> Valid() && 1 <= r.source < size
    {
      r := pending[0];
      pending := pending[1..];
      assert old(pending) == [r] + pending;
    }

    /** The transport delivers a result that worker `source` sent to rank 0. */
    method Deliver(source: int, result: R)
      requires Valid() && 1 <= source < size
      modifies this
      ensures Valid()
      ensures pending == old(pending) + [Reply(source, result)] && sent == old(sent)
    {
      pending := pending + [Reply(source, result)];
    }
  }
}
