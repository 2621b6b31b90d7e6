/**
 * The framework driver and the controller's scheduling loop (`HummingbirdFramework`).
 *
 * The controller loop alternates a drain phase (receive every waiting result, mark
 * its source idle, hand the result to `process_results`) with either a dispatch
 * phase (while a worker is idle, pull the next task and send it to one idle
 * worker; on exhaustion broadcast terminate and set `all_messages_sent`) or, once
 * `all_messages_sent` holds, a check whether every worker is idle, which ends the
 * controller.
 */
module Framework {
  import opened Wrappers
  import opened Protocol
  import opened Transport
  import opened Pool
  import opened Tasks

  datatype Role = ControllerRole | WorkerRole(rank: int)

  /** `run`: rank 0 runs the controller, every other rank runs a worker with its own rank. */
  function RoleOf(rank: int): (r: Role)
    ensures r == ControllerRole <==> rank == 0
    ensures r.WorkerRole? ==> r.rank == rank
  {
    if rank == 0 then ControllerRole else WorkerRole(rank)
  }

  /** In a communicator of `size` processes, the ranks that run a worker are exactly the ranks the controller tracks. */
  lemma WorkerRolesAreTrackedRanks(size: int)
    ensures forall r :: 0 <= r < size && RoleOf(r).WorkerRole? <==> r in WorkerRanks(size)
  {
  }

  function Min(a: int, b: int): int
  {
    if a <= b then a else b
  }

  /**
   * What the controller's send log means: the work messages are exactly the
   * dispatched tasks in order, each to its own worker, and after the broadcast every
   * worker rank has been sent exactly one terminate message (none before it).
   */
  lemma ControllerLogShape<T>(assignees: seq<int>, tasks: seq<T>, terminated: bool, size: int)
    requires |assignees| == |tasks|
    ensures var log := WorkLog(assignees, tasks) + (if terminated then TerminateLog(RankList(1, size)) else []);
      && WorkSends(log) == WorkLog(assignees, tasks)
      && forall w :: multiset(ExitDests(log))[w] == if terminated && w in WorkerRanks(size) then 1 else 0
  {
    var tail: seq<Send<Msg<T>>> := if terminated then TerminateLog(RankList(1, size)) else [];
    ExitDestsAppend(WorkLog(assignees, tasks), tail);
    WorkLogHasNoExit(assignees, tasks);
    TerminateLogExitDests<T>(RankList(1, size));
    RankListCounts(1, size);
    assert WorkSends(tail) == [];
  }

  /**
   * The loop state of one dispatch round that started with the idle set `idle0`:
   * `dests` are distinct ranks taken from `idle0`, exactly those are no longer idle,
   * and the idle set shrank by one per dispatched task.
   */
  ghost predicate Handed(idle0: set<int>, idle: set<int>, dests: seq<int>)
  {
    && NoDuplicates(dests)
    && (forall i :: 0 <= i < |dests| ==> dests[i] in idle0)
    && (forall w :: w in idle <==> w in idle0 && w !in dests)
    && |idle0| == |idle| + |dests|
  }

  /** Taking one more idle worker `w` extends a dispatch round by `w`. */
  lemma HandOne(idle0: set<int>, idle: set<int>, idle2: set<int>, dests: seq<int>, w: int)
    requires Handed(idle0, idle, dests) && w in idle
    requires forall x :: x in idle2 <==> x in idle && x != w
    requires |idle2| == |idle| - 1
    ensures Handed(idle0, idle2, dests + [w])
  {
    NoDuplicatesSnoc(dests, w);
  }

  /**
   * The sends of one dispatch round that started at task position `lo` with log
   * `sent0`: every task pulled so far, each to its worker, in order.
   */
  ghost predicate Logged<T>(sent0: seq<Send<Msg<T>>>, sent: seq<Send<Msg<T>>>, dests: seq<int>, tasks: seq<T>, lo: nat, pos: nat)
  {
    lo <= pos <= |tasks| && |dests| == pos - lo && sent == sent0 + WorkLog(dests, tasks[lo..pos])
  }

  /** Sending task `pos` to `w` extends the round's log by that send. */
  lemma LogOne<T>(sent0: seq<Send<Msg<T>>>, sent: seq<Send<Msg<T>>>, dests: seq<int>, tasks: seq<T>, lo: nat, pos: nat, w: int)
    requires Logged(sent0, sent, dests, tasks, lo, pos) && pos < |tasks|
    ensures Logged(sent0, sent + [Send(w, Build(tasks[pos]))], dests + [w], tasks, lo, pos + 1)
  {
    WorkLogExtend(dests, tasks, lo, pos, w);
    ConcatAssoc(sent0, WorkLog(dests, tasks[lo..pos]), [Send(w, Build(tasks[pos]))]);
  }

  /**
   * The controller's bookkeeping after pulling `pos` tasks: each pulled task went to
   * the worker rank at the same position of `assignees`, the send log holds exactly
   * those work messages in pull order, followed by the terminate broadcast once it
   * happened, which is only after every task was pulled.
   */
  ghost predicate ControllerLog<T>(sent: seq<Send<Msg<T>>>, assignees: seq<int>, tasks: seq<T>, pos: nat, terminated: bool, size: int)
  {
    && pos <= |tasks|
    && |assignees| == pos
    && (forall i :: 0 <= i < |assignees| ==> 1 <= assignees[i] < size)
    && (terminated ==> pos == |tasks|)
    && sent == WorkLog(assignees, tasks[..pos]) + (if terminated then TerminateLog(RankList(1, size)) else [])
  }

  /** A dispatch round to worker ranks, optionally followed by the broadcast, keeps the bookkeeping. */
  lemma RoundLogged<T>(sent0: seq<Send<Msg<T>>>, assignees: seq<int>, dests: seq<int>, tasks: seq<T>, p0: nat, p1: nat, size: int, terminated: bool)
    requires ControllerLog(sent0, assignees, tasks, p0, false, size)
    requires p0 <= p1 <= |tasks| && |dests| == p1 - p0
    requires forall i :: 0 <= i < |dests| ==> 1 <= dests[i] < size
    requires terminated ==> p1 == |tasks|
    ensures ControllerLog(sent0 + WorkLog(dests, tasks[p0..p1]) + (if terminated then TerminateLog(RankList(1, size)) else []),
                          assignees + dests, tasks, p1, terminated, size)
  {
    WorkLogAppend(assignees, tasks[..p0], dests, tasks[p0..p1]);
    assert tasks[..p1] == tasks[..p0] + tasks[p0..p1];
  }

  /**
   * How many tasks a round hands out: all idle workers get one unless the source
   * runs out first, and it runs out (with a worker left idle) exactly when there
   * were more idle workers than remaining tasks.
   */
  lemma RoundCount(idle0: set<int>, idle: set<int>, dests: seq<int>, remaining: int, exhausted: bool)
    requires Handed(idle0, idle, dests)
    requires exhausted ==> |dests| == remaining && idle != {}
    requires !exhausted ==> idle == {} && |dests| <= remaining
    ensures |dests| == Min(|idle0|, remaining)
    ensures exhausted <==> |idle0| > remaining
  {
  }

  class ControllerRun<T, R> {
    const comm: Comm<T, R>
    const controller: Controller<T, R>
    const solver: TaskSource<T, R>
    var allMessagesSent: bool
    /** The controller process left by `sys.exit(0)`. */
    var exited: bool
    /** The worker each task pulled so far was sent to, in pull order. */
    ghost var assignees: seq<int>

    /** The run's parts are the controller's, talking over the same communicator. */
    ghost predicate Wired()
    {
      controller.comm == comm && controller.nWorkers == comm.size
    }

    ghost predicate Valid()
      reads this, comm, controller, solver
    {
      && Wired() && controller.Valid() && comm.Valid() && solver.Valid()
      && (exited ==> allMessagesSent)
      && ControllerLog(comm.sent, assignees, solver.tasks, solver.pos, allMessagesSent, comm.size)
    }

    /** The set-up of `_run_controller`: every worker idle, a fresh task source, nothing sent. */
    constructor (comm: Comm<T, R>, tasks: seq<T>)
      requires comm.Valid() && comm.sent == []
      ensures this.comm == comm && fresh(controller) && fresh(solver) && Valid()
      ensures controller.available == WorkerRanks(comm.size)
      ensures solver.tasks == tasks && solver.pos == 0 && solver.consumed == []
      ensures !allMessagesSent && !exited && assignees == []
    {
      this.comm := comm;
      controller := new Controller(comm);
      solver := new TaskSource(tasks);
      allMessagesSent := false;
      exited := false;
      assignees := [];
    }

    /**
     * The drain phase: every waiting result is received once, its source becomes
     * idle and the result is handed to `process_results`, in arrival order.
     */
    method Drain()
      requires Valid() && !exited
      modifies comm, controller, solver
      ensures Valid()
      ensures comm.pending == [] && comm.sent == old(comm.sent)
      ensures controller.available == old(controller.available) + Sources(old(comm.pending))
      ensures solver.consumed == old(solver.consumed) + Results(old(comm.pending))
      ensures solver.pos == old(solver.pos)
    {
      var more := comm.IProbe();
      while more
        invariant controller.Valid() && comm.Valid()
        invariant more <==> comm.pending != []
        invariant comm.sent == old(comm.sent) && solver.pos == old(solver.pos)
        invariant old(controller.available) + Sources(old(comm.pending)) == controller.available + Sources(comm.pending)
        invariant old(solver.consumed) + Results(old(comm.pending)) == solver.consumed + Results(comm.pending)
        decreases |comm.pending|
      {
        ghost var idleBefore := controller.available;
        ghost var consumedBefore := solver.consumed;
        var reply := comm.Recv();
        ReceivedCons(reply, comm.pending);
        controller.AddAvailableWorker(reply.source);
        solver.ProcessResults(reply.result);
        UnionAssoc(idleBefore, {reply.source}, Sources(comm.pending));
        ConcatAssoc(consumedBefore, [reply.result], Results(comm.pending));
        more := comm.IProbe();
      }
    }

    /**
     * The dispatch phase: while a worker is idle, pull a task and send it to one idle
     * worker, which becomes busy; if the source is exhausted while a worker is idle,
     * broadcast terminate and set `allMessagesSent`. A task is pulled only when a
     * worker is idle to take it, so exactly `min(idle, remaining)` tasks go out.
     */
    method Dispatch() returns (ghost dests: seq<int>)
      requires Valid() && !exited && !allMessagesSent
      modifies this, comm, controller, solver
      ensures Valid() && !exited
      ensures comm.pending == old(comm.pending) && solver.consumed == old(solver.consumed)
      ensures |dests| == Min(|old(controller.available)|, |solver.tasks| - old(solver.pos))
      ensures solver.pos == old(solver.pos) + |dests| && assignees == old(assignees) + dests
      ensures Handed(old(controller.available), controller.available, dests)
      ensures comm.sent == old(comm.sent) + WorkLog(dests, solver.tasks[old(solver.pos)..solver.pos])
                           + (if allMessagesSent then TerminateLog(RankList(1, comm.size)) else [])
      ensures allMessagesSent <==> |old(controller.available)| > |solver.tasks| - old(solver.pos)
    {
      var exhausted;
      exhausted, dests := AssignWhileIdle();
      if exhausted {
        controller.TerminateEverything();
        allMessagesSent := true;
      }
      RoundCount(old(controller.available), controller.available, dests, |solver.tasks| - old(solver.pos), exhausted);
      RoundLogged(old(comm.sent), assignees, dests, solver.tasks, old(solver.pos), solver.pos, comm.size, allMessagesSent);
      assignees := assignees + dests;
    }

    /**
     * The inner `while` of the dispatch phase up to the broadcast: while a worker is
     * idle, pull a task and send it to one idle worker; stop when no worker is idle
     * or the source reports exhaustion (`exhausted`, with a worker still idle).
     */
    method AssignWhileIdle() returns (exhausted: bool, ghost dests: seq<int>)
      requires controller.Valid() && comm.Valid() && solver.Valid()
      modifies comm, controller, solver
      ensures controller.Valid() && comm.Valid() && solver.Valid()
      ensures comm.pending == old(comm.pending) && solver.consumed == old(solver.consumed)
      ensures exhausted ==> solver.pos == |solver.tasks| && controller.available != {}
      ensures !exhausted ==> controller.available == {}
      ensures Handed(old(controller.available), controller.available, dests)
      ensures Logged(old(comm.sent), comm.sent, dests, solver.tasks, old(solver.pos), solver.pos)
    {
      dests := [];
      exhausted := false;
      var hasWorker := controller.HaveAvailableWorkers();
      while hasWorker
        invariant controller.Valid() && comm.Valid() && solver.Valid()
        invariant hasWorker <==> controller.available != {}
        invariant comm.pending == old(comm.pending) && solver.consumed == old(solver.consumed)
        invariant Handed(old(controller.available), controller.available, dests)
        invariant Logged(old(comm.sent), comm.sent, dests, solver.tasks, old(solver.pos), solver.pos)
        decreases |controller.available|
      {
        var task := solver.GetNext();
        if task.None? {
          exhausted := true;
          return;
        }
        var worker := AssignOne(task.value, old(controller.available), old(comm.sent), old(solver.pos), dests);
        dests := dests + [worker];
        hasWorker := controller.HaveAvailableWorkers();
      }
    }

    /** One dispatch of the inner `while`: this newly pulled task goes to an idle worker, who becomes busy. */
    method AssignOne(task: T, ghost idle0: set<int>, ghost sent0: seq<Send<Msg<T>>>, ghost lo: nat, ghost dests: seq<int>) returns (worker: int)
      requires controller.Valid() && comm.Valid() && controller.available != {}
      requires 1 <= solver.pos <= |solver.tasks| && solver.tasks[solver.pos - 1] == task
      requires Handed(idle0, controller.available, dests)
      requires Logged(sent0, comm.sent, dests, solver.tasks, lo, solver.pos - 1)
      modifies comm, controller
      ensures controller.Valid() && comm.Valid() && comm.pending == old(comm.pending)
      ensures Handed(idle0, controller.available, dests + [worker])
      ensures Logged(sent0, comm.sent, dests + [worker], solver.tasks, lo, solver.pos)
    {
      ghost var idle := controller.available;
      worker := controller.GetAvailableWorker();
      HandOne(idle0, idle, controller.available, dests, worker);
      LogOne(sent0, comm.sent, dests, solver.tasks, lo, solver.pos - 1, worker);
      comm.ISend(worker, Build(task));
    }

    /**
     * One iteration of the controller's `while True`: drain, then either check for
     * completion (after the broadcast) or dispatch. After the broadcast nothing more
     * is pulled or sent, and the controller exits exactly when every worker is idle.
     */
    method Step() returns (ghost dests: seq<int>)
      requires Valid() && !exited
      modifies this, comm, controller, solver
      ensures Valid()
      ensures comm.pending == []
      ensures solver.consumed == old(solver.consumed) + Results(old(comm.pending))
      ensures old(allMessagesSent) ==> allMessagesSent && dests == [] && solver.pos == old(solver.pos) && comm.sent == old(comm.sent)
      ensures exited <==> old(allMessagesSent) && controller.available == WorkerRanks(comm.size)
      ensures old(allMessagesSent) ==> controller.available == old(controller.available) + Sources(old(comm.pending))
      ensures !old(allMessagesSent) ==>
        var idle := old(controller.available) + Sources(old(comm.pending));
        && |dests| == Min(|idle|, |solver.tasks| - old(solver.pos))
        && solver.pos == old(solver.pos) + |dests|
        && NoDuplicates(dests)
        && (forall i :: 0 <= i < |dests| ==> dests[i] in idle)
        && (forall w :: w in controller.available <==> w in idle && w !in dests)
        && comm.sent == old(comm.sent) + WorkLog(dests, solver.tasks[old(solver.pos)..solver.pos])
                        + (if allMessagesSent then TerminateLog(RankList(1, comm.size)) else [])
        && (allMessagesSent <==> |idle| > |solver.tasks| - old(solver.pos))
    {
      Drain();
      if allMessagesSent {
        var done := controller.AllWorkersCompleted();
        if done {
          exited := true;
        }
        dests := [];
        return;
      }
      dests := Dispatch();
    }
  }
}
