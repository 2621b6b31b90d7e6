/**
 * The worker-pool tracker: which worker ranks are idle, handing one out, taking
 * one back, and broadcasting terminate.
 *
 * `nWorkers` is the process count (`comm.Get_size()`), so the worker ranks are
 * `1 .. nWorkers - 1` and rank 0, the controller, is never one of them.
 */
module Pool {
  import opened Protocol
  import opened Transport

  /** The worker ranks of a communicator of `size` processes: `set(range(1, size))`. */
  function WorkerRanks(size: int): (ws: set<int>)
    decreases size
    ensures forall w :: w in ws <==> 1 <= w < size
    ensures |ws| == if size > 1 then size - 1 else 0
  {
    if size <= 1 then {} else WorkerRanks(size - 1) + {size - 1}
  }

  /** `list(range(lo, hi))`. */
  function RankList(lo: int, hi: int): (ws: seq<int>)
    decreases hi - lo
    ensures |ws| == if lo < hi then hi - lo else 0
    ensures forall i :: 0 <= i < |ws| ==> ws[i] == lo + i
  {
    if lo >= hi then [] else [lo] + RankList(lo + 1, hi)
  }

  /** `list(range(1, size))` lists each worker rank exactly once and nothing else. */
  lemma {:induction false} RankListCounts(lo: int, hi: int)
    decreases hi - lo
    ensures forall w :: multiset(RankList(lo, hi))[w] == if lo <= w < hi then 1 else 0
  {
    if lo < hi {
      RankListCounts(lo + 1, hi);
      assert RankList(lo, hi) == [lo] + RankList(lo + 1, hi);
      assert multiset(RankList(lo, hi)) == multiset{lo} + multiset(RankList(lo + 1, hi));
    }
  }

  /** The destinations of a list of sends, in order. */
  function Dests<M>(log: seq<Send<M>>): (ds: seq<int>)
    ensures |ds| == |log|
    ensures forall i :: 0 <= i < |log| ==> ds[i] == log[i].dest
  {
    seq(|log|, i requires 0 <= i < |log| => log[i].dest)
  }

  /**
   * The broadcast of `terminate_everything` reaches every worker rank exactly once,
   * reaches no other rank, and every message in it is a terminate message.
   */
  lemma BroadcastReachesEveryWorkerOnce<T>(size: int)
    ensures forall w :: multiset(Dests(TerminateLog<T>(RankList(1, size))))[w] == if w in WorkerRanks(size) then 1 else 0
    ensures forall s :: s in TerminateLog<T>(RankList(1, size)) ==> s.msg == Exit()
  {
    var ws := RankList(1, size);
    assert Dests(TerminateLog<T>(ws)) == ws;
    RankListCounts(1, size);
  }

  /** A non-empty set has a member to pick. */
  lemma SomeMember(s: set<int>)
    requires s != {}
    ensures exists x :: x in s
  {
    if forall x :: x !in s {
      assert false;
    }
  }

  class Controller<T, R> {
    const comm: Comm<T, R>
    /** The process count, taken from the communicator at construction. */
    const nWorkers: int
    /** Ranks of idle workers. */
    var available: set<int>
    /** Only worker ranks are ever idle: never rank 0, never a rank outside the communicator. */
    ghost predicate Valid()
      reads this
    {
      forall w :: w in available ==> 1 <= w < nWorkers
    }

    /** Ranks that were handed a task and have not been added back since. */
    ghost function Busy(): set<int>
      reads this
    {
      WorkerRanks(nWorkers) - available
    }

    /** All worker ranks start idle. */
    constructor (comm: Comm<T, R>)
      ensures this.comm == comm && nWorkers == comm.size
      ensures available == WorkerRanks(nWorkers) && Busy() == {} && Valid()
      ensures 0 !in available
    {
      this.comm := comm;
      nWorkers := comm.size;
      available := WorkerRanks(comm.size);
    }

    /** `have_available_workers_p`: is some worker idle? */
    method HaveAvailableWorkers() returns (b: bool)
      ensures b <==> available != {}
    {
      b := |available| > 0;
    }

    /**
     * `add_available_worker(w)`: `w` becomes idle, every other rank keeps its state,
     * and a rank that is already idle leaves the set as it was. The tracker stays
     * consistent exactly when `w` is a worker rank.
     */
    method AddAvailableWorker(w: int)
      requires Valid()
      modifies this
      ensures available == old(available) + {w} && Busy() == old(Busy()) - {w}
      ensures w in old(available) ==> available == old(available)
      ensures Valid() <==> w in WorkerRanks(nWorkers)
    {
      available := available + {w};
    }

    /**
     * `terminate_everything`: sends terminate to every worker rank, idle or busy,
     * and leaves the idle set alone.
     */
    method TerminateEverything()
      modifies comm
      ensures comm.sent == old(comm.sent) + TerminateLog(RankList(1, nWorkers))
      ensures comm.pending == old(comm.pending)
    {
      TerminateWorkers(RankList(1, nWorkers));
    }

    /** `terminate_workers(ws)`: one terminate message per element of `ws`, in list order. */
    method TerminateWorkers(ws: seq<int>)
      modifies comm
      ensures comm.sent == old(comm.sent) + TerminateLog(ws)
      ensures comm.pending == old(comm.pending)
    {
      for i := 0 to |ws|
        invariant comm.sent == old(comm.sent) + TerminateLog(ws[..i])
        invariant comm.pending == old(comm.pending)
      {
        assert TerminateLog<T>(ws[..i + 1]) == TerminateLog(ws[..i]) + [Send(ws[i], Exit())];
        comm.ISend(ws[i], Exit());
      }
      assert ws[..|ws|] == ws;
    }

    /**
     * `get_available_worker`: removes one idle rank, which one being unspecified, and
     * returns it; that rank is now busy.
     */
    method GetAvailableWorker() returns (w: int)
      requires Valid() && available != {}
      modifies this
      ensures w in old(available) && w in WorkerRanks(nWorkers)
      ensures forall x :: x in available <==> x in old(available) && x != w
      ensures |available| == |old(available)| - 1
      ensures Valid()
    {
      SomeMember(available);
      w :| w in available;
      available := available - {w};
    }

    /**
     * `all_workers_completed`: every worker rank is idle, which is the same as no
     * rank holding an unanswered task.
     */
    method AllWorkersCompleted() returns (b: bool)
      requires Valid()
      ensures b <==> available == WorkerRanks(nWorkers)
      ensures b <==> Busy() == {}
    {
      b := available == WorkerRanks(nWorkers);
    }
  }
}
