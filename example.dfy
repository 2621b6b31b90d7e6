/**
 * The example program built on the same pattern (`python-mpi-example.py`): workers
 * run `ls` on a directory and report the length of the output; the controller
 * aggregates the lengths.
 *
 * Its task generator yields `['ls', d]` for each directory, sometimes preceded by
 * the sentinel `'Wait Please!'` (which ends the current dispatch round), and finally
 * the sentinel `'End of Problems!'` (which broadcasts terminate and exits at once,
 * without waiting for busy workers). The random choice of where a wait appears is
 * the parameter `waits`.
 */
module MpiExample {
  import opened Wrappers
  import opened Protocol
  import opened Transport
  import opened Pool
  import opened Workers
  import opened Framework

  /** The problem dictionary `{'cmd_l': ..., 'cmd_input': ...}`. */
  datatype ShellProblem = ShellProblem(cmdL: seq<string>, cmdInput: string)

  /** The results dictionary `{'directory': ..., 'len': ...}`. */
  datatype ExampleResult = ExampleResult(directory: string, len: nat)

  /** What the generator yields: a sentinel string or a command list. */
  datatype ExampleTask = WaitPlease | EndOfProblems | Command(cmdL: seq<string>)

  /** `pack_problem`: a work message carrying the command with empty input. */
  function PackProblem(cmdL: seq<string>): (m: Msg<ShellProblem>)
    ensures WellFormed(m)
  {
    Build(ShellProblem(cmdL, ""))
  }

  /**
   * `worker_should_exit` and `unpack_problem` read the two fields: a packed problem
   * says "do not exit" and unpacks to the command with empty input, and a message
   * from `terminate_workers` says "exit" and carries no problem.
   */
  lemma PackRoundTrip(cmdL: seq<string>)
    ensures !ShouldExit(PackProblem(cmdL))
    ensures Problem(PackProblem(cmdL)) == Some(ShellProblem(cmdL, ""))
    ensures ShouldExit(Exit<ShellProblem>()) && Problem(Exit<ShellProblem>()) == None
  {
  }

  /** The directories `initialize_task_generator` lists: the root once, then `/hb/home` fourteen times. */
  const DirList: seq<string> := ["/", "/hb/home", "/hb/home", "/hb/home", "/hb/home",
                                 "/hb/home", "/hb/home", "/hb/home", "/hb/home",
                                 "/hb/home", "/hb/home", "/hb/home", "/hb/home",
                                 "/hb/home", "/hb/home"]

  /**
   * `task_generator_creator`: for each directory, a wait sentinel when `waits` says
   * the random draw exceeded 6, then `['ls', d]`; at the end one end sentinel.
   */
  function TaskStream(dirs: seq<string>, waits: seq<bool>): (s: seq<ExampleTask>)
    requires |waits| == |dirs|
    ensures |s| > 0
  {
    if dirs == [] then [EndOfProblems]
    else (if waits[0] then [WaitPlease] else []) + [Command(["ls", dirs[0]])] + TaskStream(dirs[1..], waits[1..])
  }

  /** Items of a stream that are not wait sentinels, in order. */
  function NonWait(s: seq<ExampleTask>): seq<ExampleTask>
  {
    if s == [] then [] else (if s[0] == WaitPlease then [] else [s[0]]) + NonWait(s[1..])
  }

  /** One `ls` command per directory, in order. */
  function LsCommands(dirs: seq<string>): (cs: seq<ExampleTask>)
    ensures |cs| == |dirs|
  {
    if dirs == [] then [] else [Command(["ls", dirs[0]])] + LsCommands(dirs[1..])
  }

  lemma {:induction false} NonWaitAppend(a: seq<ExampleTask>, b: seq<ExampleTask>)
    ensures NonWait(a + b) == NonWait(a) + NonWait(b)
  {
    if a == [] {
      assert a + b == b;
    } else {
      assert (a + b)[0] == a[0] && (a + b)[1..] == a[1..] + b;
      NonWaitAppend(a[1..], b);
    }
  }

  /**
   * With the wait sentinels removed, the generator yields `['ls', d]` for each
   * directory in order, then exactly one end sentinel, whatever the random draws.
   */
  lemma {:induction false} TaskStreamWithoutWaits(dirs: seq<string>, waits: seq<bool>)
    requires |waits| == |dirs|
    ensures NonWait(TaskStream(dirs, waits)) == LsCommands(dirs) + [EndOfProblems]
  {
    if dirs == [] {
      assert NonWait([EndOfProblems]) == [EndOfProblems] + NonWait([]);
    } else {
      var head: seq<ExampleTask> := (if waits[0] then [WaitPlease] else []) + [Command(["ls", dirs[0]])];
      var rest := TaskStream(dirs[1..], waits[1..]);
      NonWaitAppend(head, rest);
      TaskStreamWithoutWaits(dirs[1..], waits[1..]);
      if waits[0] {
        NonWaitAppend([WaitPlease], [Command(["ls", dirs[0]])]);
        assert NonWait([WaitPlease]) == [];
      }
      assert NonWait([Command(["ls", dirs[0]])]) == [Command(["ls", dirs[0]])] + NonWait([]);
    }
  }

  /** The end sentinel is the last task and occurs nowhere else. */
  ghost predicate EndsOnce(s: seq<ExampleTask>)
  {
    |s| > 0 && s[|s| - 1] == EndOfProblems && forall i :: 0 <= i < |s| - 1 ==> s[i] != EndOfProblems
  }

  lemma {:induction false} TaskStreamEndsOnce(dirs: seq<string>, waits: seq<bool>)
    requires |waits| == |dirs|
    ensures EndsOnce(TaskStream(dirs, waits))
  {
    if dirs != [] {
      var head: seq<ExampleTask> := (if waits[0] then [WaitPlease] else []) + [Command(["ls", dirs[0]])];
      var rest := TaskStream(dirs[1..], waits[1..]);
      TaskStreamEndsOnce(dirs[1..], waits[1..]);
      var s := head + rest;
      forall i | 0 <= i < |s| - 1
        ensures s[i] != EndOfProblems
      {
        if i >= |head| {
          assert s[i] == rest[i - |head|];
        }
      }
      assert s[|s| - 1] == rest[|rest| - 1];
    }
  }

  /** The problems the controller packs from the items `s`: one per command, in order. */
  function Issued(s: seq<ExampleTask>): seq<ShellProblem>
  {
    if s == [] then []
    else Issued(s[..|s| - 1]) + (if s[|s| - 1].Command? then [ShellProblem(s[|s| - 1].cmdL, "")] else [])
  }

  lemma {:induction false} IssuedAppend(a: seq<ExampleTask>, b: seq<ExampleTask>)
    ensures Issued(a + b) == Issued(a) + Issued(b)
  {
    if b == [] {
      assert a + b == a;
    } else {
      var b' := b[..|b| - 1];
      assert (a + b)[..|a + b| - 1] == a + b';
      IssuedAppend(a, b');
    }
  }

  /** Sum of the lengths recorded in the aggregator's list. */
  function SumLens(l: seq<(string, nat)>): int
  {
    if l == [] then 0 else SumLens(l[..|l| - 1]) + l[|l| - 1].1
  }

  /** The counter of two lists put together is the sum of their counters. */
  lemma {:induction false} SumLensAppend(a: seq<(string, nat)>, b: seq<(string, nat)>)
    ensures SumLens(a + b) == SumLens(a) + SumLens(b)
  {
    if b != [] {
      assert (a + b)[..|a + b| - 1] == a + b[..|b| - 1];
      SumLensAppend(a, b[..|b| - 1]);
    } else {
      assert a + b == a;
    }
  }

  /** `ProblemSolver`: the example's task source and result aggregator. */
  class ProblemSolver {
    /** `data_aggregator['list']`: one `(directory, len)` pair per processed result. */
    var list: seq<(string, nat)>
    /** `data_aggregator['counter']`: the running total of the lengths. */
    var counter: int
    var dirList: seq<string>
    /** Everything the generator yields, fixed when it is created (the random draws are `waits`). */
    var stream: seq<ExampleTask>
    /** How many items the generator has yielded. */
    var pos: nat

    /** The counter is the sum of the lengths in the list. */
    ghost predicate Valid()
      reads this
    {
      counter == SumLens(list) && pos <= |stream|
    }

    /** `__init__`: an empty aggregator and no directories; no generator yet. */
    constructor ()
      ensures list == [] && counter == 0 && dirList == [] && stream == [] && pos == 0 && Valid()
    {
      list := [];
      counter := 0;
      dirList := [];
      stream := [];
      pos := 0;
    }

    /** `initialize_task_generator`: sets the directory list and creates the generator over it. */
    method InitializeTaskGenerator(waits: seq<bool>)
      requires Valid() && |waits| == |DirList|
      modifies this
      ensures Valid() && list == old(list) && counter == old(counter)
      ensures dirList == DirList && stream == TaskStream(DirList, waits) && pos == 0
      ensures EndsOnce(stream)
    {
      dirList := DirList;
      stream := TaskStream(dirList, waits);
      pos := 0;
      TaskStreamEndsOnce(DirList, waits);
    }

    /** `next_task`: the generator's next item; `None` stands for `StopIteration`. */
    method NextTask() returns (t: Option<ExampleTask>)
      requires Valid()
      modifies this
      ensures Valid() && list == old(list) && counter == old(counter) && stream == old(stream) && dirList == old(dirList)
      ensures old(pos) < |stream| ==> t == Some(stream[old(pos)]) && pos == old(pos) + 1
      ensures old(pos) == |stream| ==> t == None && pos == old(pos)
    {
      if pos < |stream| {
        t := Some(stream[pos]);
        pos := pos + 1;
      } else {
        t := None;
      }
    }

    /** `process_results`: appends `(directory, len)` and adds `len` to the counter, keeping the counter the sum. */
    method ProcessResults(r: ExampleResult)
      requires Valid()
      modifies this
      ensures Valid()
      ensures list == old(list) + [(r.directory, r.len)] && counter == old(counter) + r.len
      ensures stream == old(stream) && pos == old(pos) && dirList == old(dirList)
    {
      SumLensAppend(list, [(r.directory, r.len)]);
      assert SumLens([(r.directory, r.len)]) == r.len by {
        assert [(r.directory, r.len)][..0] == [];
      }
      list := list + [(r.directory, r.len)];
      counter := counter + r.len;
    }
  }

  /**
   * The example controller's bookkeeping after `pos` items of `stream`: each packed
   * command went to the worker at the same position of `assignees`, the send log
   * holds exactly those work messages in order, followed by the terminate broadcast
   * exactly when the end sentinel was pulled.
   */
  ghost predicate ExampleLog(sent: seq<Send<Msg<ShellProblem>>>, assignees: seq<int>, stream: seq<ExampleTask>, pos: nat, exited: bool, size: int)
  {
    && pos <= |stream|
    && |assignees| == |Issued(stream[..pos])|
    && (forall i :: 0 <= i < |assignees| ==> 1 <= assignees[i] < size)
    && (exited <==> pos == |stream|)
    && sent == WorkLog(assignees, Issued(stream[..pos])) + (if exited then TerminateLog(RankList(1, size)) else [])
  }

  /** A dispatch round of the example keeps its bookkeeping. */
  lemma ExampleRoundLogged(sent0: seq<Send<Msg<ShellProblem>>>, assignees: seq<int>, dests: seq<int>, stream: seq<ExampleTask>,
                           p0: nat, p1: nat, size: int, exited: bool)
    requires ExampleLog(sent0, assignees, stream, p0, false, size)
    requires p0 <= p1 <= |stream| && |dests| == |Issued(stream[p0..p1])|
    requires forall i :: 0 <= i < |dests| ==> 1 <= dests[i] < size
    requires exited <==> p1 == |stream|
    ensures ExampleLog(sent0 + WorkLog(dests, Issued(stream[p0..p1])) + (if exited then TerminateLog(RankList(1, size)) else []),
                       assignees + dests, stream, p1, exited, size)
  {
    assert stream[..p1] == stream[..p0] + stream[p0..p1];
    IssuedAppend(stream[..p0], stream[p0..p1]);
    WorkLogAppend(assignees, Issued(stream[..p0]), dests, Issued(stream[p0..p1]));
  }

  /** Pulling the item at `p` extends what the round issued by its packed problem, if it is a command. */
  lemma IssuedSnoc(stream: seq<ExampleTask>, lo: nat, p: nat)
    requires lo <= p < |stream|
    ensures Issued(stream[lo..p + 1]) == Issued(stream[lo..p]) + (if stream[p].Command? then [ShellProblem(stream[p].cmdL, "")] else [])
  {
    assert stream[lo..p + 1][..p - lo] == stream[lo..p];
  }

  /** The sends of one round of the example, started at item `lo` with log `sent0`. */
  ghost predicate ExampleRound(sent0: seq<Send<Msg<ShellProblem>>>, sent: seq<Send<Msg<ShellProblem>>>, dests: seq<int>, stream: seq<ExampleTask>, lo: nat, pos: nat)
  {
    lo <= pos <= |stream| && |dests| == |Issued(stream[lo..pos])| && sent == sent0 + WorkLog(dests, Issued(stream[lo..pos]))
  }

  /** Packing the command at `p` for worker `w` extends the round's log by that send. */
  lemma ExampleRoundCommand(sent0: seq<Send<Msg<ShellProblem>>>, sent: seq<Send<Msg<ShellProblem>>>, dests: seq<int>, stream: seq<ExampleTask>, lo: nat, p: nat, w: int)
    requires ExampleRound(sent0, sent, dests, stream, lo, p) && p < |stream| && stream[p].Command?
    ensures ExampleRound(sent0, sent + [Send(w, PackProblem(stream[p].cmdL))], dests + [w], stream, lo, p + 1)
  {
    IssuedSnoc(stream, lo, p);
    WorkLogSnoc(dests, Issued(stream[lo..p]), w, ShellProblem(stream[p].cmdL, ""));
    ConcatAssoc(sent0, WorkLog(dests, Issued(stream[lo..p])), [Send(w, PackProblem(stream[p].cmdL))]);
  }

  /** Pulling a sentinel issues nothing. */
  lemma ExampleRoundSentinel(sent0: seq<Send<Msg<ShellProblem>>>, sent: seq<Send<Msg<ShellProblem>>>, dests: seq<int>, stream: seq<ExampleTask>, lo: nat, p: nat)
    requires ExampleRound(sent0, sent, dests, stream, lo, p) && p < |stream| && !stream[p].Command?
    ensures ExampleRound(sent0, sent, dests, stream, lo, p + 1)
  {
    IssuedSnoc(stream, lo, p);
  }

  /** The controller branch of `main`. */
  class ExampleRun {
    const comm: Comm<ShellProblem, ExampleResult>
    const controller: Controller<ShellProblem, ExampleResult>
    const solver: ProblemSolver
    /** The controller process left by `sys.exit(0)` inside `terminate_everything`. */
    var exited: bool
    /** The worker each packed command was sent to, in order. */
    ghost var assignees: seq<int>

    ghost predicate Valid()
      reads this, comm, controller, solver
    {
      && controller.comm == comm && controller.nWorkers == comm.size
      && controller.Valid() && comm.Valid() && solver.Valid()
      && EndsOnce(solver.stream)
      && ExampleLog(comm.sent, assignees, solver.stream, solver.pos, exited, comm.size)
    }

    /** The set-up of the controller branch: every worker idle, a fresh aggregator, the generator created. */
    constructor (comm: Comm<ShellProblem, ExampleResult>, waits: seq<bool>)
      requires comm.Valid() && comm.sent == [] && |waits| == |DirList|
      ensures this.comm == comm && fresh(controller) && fresh(solver) && Valid()
      ensures controller.available == WorkerRanks(comm.size)
      ensures solver.stream == TaskStream(DirList, waits) && solver.pos == 0
      ensures solver.list == [] && solver.counter == 0
      ensures !exited && assignees == []
    {
      this.comm := comm;
      controller := new Controller(comm);
      var s := new ProblemSolver();
      s.InitializeTaskGenerator(waits);
      solver := s;
      exited := false;
      assignees := [];
    }

    /**
     * The drain loop: every waiting result is received once, its source becomes
     * idle, and the result is aggregated, in arrival order.
     */
    method Drain()
      requires Valid() && !exited
      modifies comm, controller, solver
      ensures Valid()
      ensures comm.pending == [] && comm.sent == old(comm.sent)
      ensures controller.available == old(controller.available) + Sources(old(comm.pending))
      ensures solver.list == old(solver.list) + ResultPairs(Results(old(comm.pending)))
      ensures solver.pos == old(solver.pos) && solver.stream == old(solver.stream) && solver.dirList == old(solver.dirList)
    {
      var more := comm.IProbe();
      while more
        invariant controller.Valid() && comm.Valid() && solver.Valid()
        invariant more <==> comm.pending != []
        invariant comm.sent == old(comm.sent) && solver.pos == old(solver.pos) && solver.stream == old(solver.stream)
        invariant solver.dirList == old(solver.dirList)
        invariant old(controller.available) + Sources(old(comm.pending)) == controller.available + Sources(comm.pending)
        invariant old(solver.list) + ResultPairs(Results(old(comm.pending))) == solver.list + ResultPairs(Results(comm.pending))
        decreases |comm.pending|
      {
        ghost var idleBefore := controller.available;
        ghost var listBefore := solver.list;
        var reply := comm.Recv();
        ReceivedCons(reply, comm.pending);
        ResultPairsCons(reply.result, Results(comm.pending));
        controller.AddAvailableWorker(reply.source);
        solver.ProcessResults(reply.result);
        UnionAssoc(idleBefore, {reply.source}, Sources(comm.pending));
        ConcatAssoc(listBefore, [(reply.result.directory, reply.result.len)], ResultPairs(Results(comm.pending)));
        more := comm.IProbe();
      }
    }

    /** A command pulled by the dispatch loop goes, packed, to an idle worker, who becomes busy. */
    method SendCommand(cmdL: seq<string>, ghost idle0: set<int>, ghost sent0: seq<Send<Msg<ShellProblem>>>, ghost lo: nat, ghost dests: seq<int>)
      returns (worker: int)
      requires controller.Valid() && comm.Valid() && controller.available != {}
      requires 1 <= solver.pos <= |solver.stream| && solver.stream[solver.pos - 1] == Command(cmdL)
      requires Handed(idle0, controller.available, dests)
      requires ExampleRound(sent0, comm.sent, dests, solver.stream, lo, solver.pos - 1)
      modifies comm, controller
      ensures controller.Valid() && comm.Valid() && comm.pending == old(comm.pending)
      ensures Handed(idle0, controller.available, dests + [worker])
      ensures ExampleRound(sent0, comm.sent, dests + [worker], solver.stream, lo, solver.pos)
      ensures worker in old(controller.available)
      ensures forall x :: x in controller.available <==> x in old(controller.available) && x != worker
    {
      ghost var idle := controller.available;
      worker := controller.GetAvailableWorker();
      HandOne(idle0, idle, controller.available, dests, worker);
      ExampleRoundCommand(sent0, comm.sent, dests, solver.stream, lo, solver.pos - 1, worker);
      var message := PackProblem(cmdL);
      comm.ISend(worker, message);
    }

    /**
     * One iteration of the dispatch loop, entered with a worker idle: pull the next
     * item. A sentinel stops the round and takes no worker (`stop`; `ended` for the
     * end sentinel); a command goes, packed, to one idle worker.
     */
    method PullOne(ghost idle0: set<int>, ghost sent0: seq<Send<Msg<ShellProblem>>>, ghost lo: nat, ghost dests: seq<int>)
      returns (stop: bool, ended: bool, ghost dests': seq<int>)
      requires controller.Valid() && comm.Valid() && solver.Valid() && EndsOnce(solver.stream)
      requires controller.available != {} && lo <= solver.pos < |solver.stream|
      requires Handed(idle0, controller.available, dests)
      requires ExampleRound(sent0, comm.sent, dests, solver.stream, lo, solver.pos)
      modifies comm, controller, solver
      ensures controller.Valid() && comm.Valid() && solver.Valid()
      ensures comm.pending == old(comm.pending)
      ensures solver.list == old(solver.list) && solver.counter == old(solver.counter) && solver.stream == old(solver.stream)
      ensures solver.dirList == old(solver.dirList)
      ensures solver.pos == old(solver.pos) + 1
      ensures Handed(idle0, controller.available, dests')
      ensures ExampleRound(sent0, comm.sent, dests', solver.stream, lo, solver.pos)
      ensures stop <==> !solver.stream[old(solver.pos)].Command?
      ensures ended <==> solver.stream[old(solver.pos)] == EndOfProblems
      ensures ended <==> solver.pos == |solver.stream|
      ensures stop ==> controller.available == old(controller.available) && dests' == dests && comm.sent == old(comm.sent)
      ensures !stop ==> |dests'| == |dests| + 1 && dests'[..|dests|] == dests && dests'[|dests|] in old(controller.available)
                        && (forall x :: x in controller.available <==> x in old(controller.available) && x != dests'[|dests|])
    {
      var problem := solver.NextTask();
      stop := false;
      ended := false;
      dests' := dests;
      if problem == Some(WaitPlease) {
        ExampleRoundSentinel(sent0, comm.sent, dests, solver.stream, lo, solver.pos - 1);
        stop := true;
      } else if problem == Some(EndOfProblems) {
        ExampleRoundSentinel(sent0, comm.sent, dests, solver.stream, lo, solver.pos - 1);
        stop := true;
        ended := true;
      } else {
        var worker := SendCommand(problem.value.cmdL, idle0, sent0, lo, dests);
        dests' := dests + [worker];
      }
    }

    /**
     * The dispatch loop: while a worker is idle, pull the next item. A wait sentinel
     * ends the round and takes no worker; a command takes one idle worker and is
     * sent to it packed; the end sentinel stops the round with `ended`.
     */
    method PullWhileIdle() returns (ended: bool, ghost dests: seq<int>)
      requires controller.Valid() && comm.Valid() && solver.Valid() && EndsOnce(solver.stream)
      requires solver.pos < |solver.stream|
      modifies comm, controller, solver
      ensures controller.Valid() && comm.Valid() && solver.Valid()
      ensures comm.pending == old(comm.pending)
      ensures solver.list == old(solver.list) && solver.counter == old(solver.counter) && solver.stream == old(solver.stream)
      ensures solver.dirList == old(solver.dirList)
      ensures old(solver.pos) <= solver.pos <= |solver.stream|
      ensures ended <==> solver.pos == |solver.stream|
      ensures Handed(old(controller.available), controller.available, dests)
      ensures ExampleRound(old(comm.sent), comm.sent, dests, solver.stream, old(solver.pos), solver.pos)
      ensures forall i :: old(solver.pos) <= i < solver.pos - 1 ==> solver.stream[i].Command?
      ensures !ended && solver.pos > old(solver.pos) && !solver.stream[solver.pos - 1].Command? ==> solver.stream[solver.pos - 1] == WaitPlease
      ensures !ended && (solver.pos == old(solver.pos) || solver.stream[solver.pos - 1].Command?) ==> controller.available == {}
      ensures solver.pos > old(solver.pos) && !solver.stream[solver.pos - 1].Command? ==> controller.available != {}
    {
      dests := [];
      ended := false;
      var hasWorker := controller.HaveAvailableWorkers();
      while hasWorker
        invariant controller.Valid() && comm.Valid() && solver.Valid()
        invariant hasWorker <==> controller.available != {}
        invariant comm.pending == old(comm.pending)
        invariant solver.list == old(solver.list) && solver.counter == old(solver.counter) && solver.stream == old(solver.stream)
        invariant solver.dirList == old(solver.dirList)
        invariant old(solver.pos) <= solver.pos < |solver.stream|
        invariant Handed(old(controller.available), controller.available, dests)
        invariant ExampleRound(old(comm.sent), comm.sent, dests, solver.stream, old(solver.pos), solver.pos)
        invariant forall i :: old(solver.pos) <= i < solver.pos ==> solver.stream[i].Command?
        invariant !ended
        decreases |solver.stream| - solver.pos
      {
        var stop;
        stop, ended, dests := PullOne(old(controller.available), old(comm.sent), old(solver.pos), dests);
        if stop {
          return;
        }
        hasWorker := controller.HaveAvailableWorkers();
      }
    }

    /**
     * The dispatch round after the drain. It ends when no worker is idle, at a wait
     * sentinel (which takes no worker), or at the end sentinel, which broadcasts
     * terminate and exits at once, whether or not some worker is still busy.
     */
    method Dispatch() returns (ghost dests: seq<int>)
      requires Valid() && !exited
      modifies this, comm, controller, solver
      ensures Valid()
      ensures comm.pending == old(comm.pending)
      ensures solver.list == old(solver.list) && solver.stream == old(solver.stream) && old(solver.pos) <= solver.pos
      ensures solver.dirList == old(solver.dirList)
      ensures var pulled := solver.stream[old(solver.pos)..solver.pos];
        && Handed(old(controller.available), controller.available, dests)
        && |dests| == |Issued(pulled)|
        && comm.sent == old(comm.sent) + WorkLog(dests, Issued(pulled))
                        + (if exited then TerminateLog(RankList(1, comm.size)) else [])
        && RoundPulled(pulled, exited, controller.available != {})
    {
      var ended;
      ended, dests := PullWhileIdle();
      if ended {
        controller.TerminateEverything();
        exited := true;
      }
      ExampleRoundLogged(old(comm.sent), assignees, dests, solver.stream, old(solver.pos), solver.pos, comm.size, exited);
      assignees := assignees + dests;
      PulledRound(solver.stream, old(solver.pos), solver.pos, exited, controller.available != {});
    }

    /** One pass of the controller's `while True`: drain, then a dispatch round. */
    method Step() returns (ghost dests: seq<int>)
      requires Valid() && !exited
      modifies this, comm, controller, solver
      ensures Valid()
      ensures comm.pending == []
      ensures solver.list == old(solver.list) + ResultPairs(Results(old(comm.pending)))
      ensures solver.stream == old(solver.stream) && old(solver.pos) <= solver.pos && solver.dirList == old(solver.dirList)
      ensures var idle := old(controller.available) + Sources(old(comm.pending));
        var pulled := solver.stream[old(solver.pos)..solver.pos];
        && Handed(idle, controller.available, dests)
        && |dests| == |Issued(pulled)|
        && comm.sent == old(comm.sent) + WorkLog(dests, Issued(pulled))
                        + (if exited then TerminateLog(RankList(1, comm.size)) else [])
        && RoundPulled(pulled, exited, controller.available != {})
    {
      Drain();
      dests := Dispatch();
    }
  }

  /** The `(directory, len)` pairs `process_results` appends for some results, in order. */
  function ResultPairs(rs: seq<ExampleResult>): (ps: seq<(string, nat)>)
    ensures |ps| == |rs|
  {
    if rs == [] then [] else [(rs[0].directory, rs[0].len)] + ResultPairs(rs[1..])
  }

  lemma ResultPairsCons(r: ExampleResult, rest: seq<ExampleResult>)
    ensures ResultPairs([r] + rest) == [(r.directory, r.len)] + ResultPairs(rest)
  {
    assert ([r] + rest)[1..] == rest;
  }

  /** In a stream whose end sentinel comes last and only there, a slice holds it exactly when it reaches the end. */
  lemma EndPulled(s: seq<ExampleTask>, p0: nat, p1: nat)
    requires EndsOnce(s) && p0 < |s| && p0 <= p1 <= |s|
    ensures EndOfProblems in s[p0..p1] <==> p1 == |s|
  {
    if p1 == |s| {
      assert s[p0..p1][p1 - 1 - p0] == EndOfProblems;
    }
  }

  /**
   * What a dispatch round of the example pulled (`pulled`), given whether the
   * controller exited and whether a worker is still idle: every item but the last
   * is a command; the controller exited exactly when the end sentinel was pulled;
   * a round that stopped at a sentinel stopped with a worker still idle, and that
   * sentinel is the wait sentinel unless the controller exited; a round that did
   * not stop at a sentinel and did not exit stopped because no worker was idle.
   */
  ghost predicate RoundPulled(pulled: seq<ExampleTask>, exited: bool, idleLeft: bool)
  {
    && (exited <==> EndOfProblems in pulled)
    && (forall i :: 0 <= i < |pulled| - 1 ==> pulled[i].Command?)
    && (pulled != [] && !pulled[|pulled| - 1].Command? ==> idleLeft)
    && (!exited && pulled != [] && !pulled[|pulled| - 1].Command? ==> pulled[|pulled| - 1] == WaitPlease)
    && (!exited && (pulled == [] || pulled[|pulled| - 1].Command?) ==> !idleLeft)
  }

  /**
   * The dispatch loop's outcome, stated on positions of the stream, is a round that
   * pulled `s[p0..p1]`: a sentinel is pulled only while a worker is idle, and the end
   * sentinel is pulled exactly when the stream was read to its end.
   */
  lemma PulledRound(s: seq<ExampleTask>, p0: nat, p1: nat, ended: bool, idleLeft: bool)
    requires EndsOnce(s) && p0 < |s| && p0 <= p1 <= |s|
    requires ended <==> p1 == |s|
    requires forall i :: p0 <= i < p1 - 1 ==> s[i].Command?
    requires p1 > p0 && !s[p1 - 1].Command? ==> idleLeft
    requires !ended && p1 > p0 && !s[p1 - 1].Command? ==> s[p1 - 1] == WaitPlease
    requires !ended && (p1 == p0 || s[p1 - 1].Command?) ==> !idleLeft
    ensures RoundPulled(s[p0..p1], ended, idleLeft)
  {
    EndPulled(s, p0, p1);
    var pulled := s[p0..p1];
    forall i | 0 <= i < |pulled| - 1
      ensures pulled[i].Command?
    {
      assert pulled[i] == s[p0 + i];
    }
    if pulled != [] {
      assert pulled[|pulled| - 1] == s[p1 - 1];
    }
  }

  /**
   * The worker branch of `main`: a worker that receives messages in order, stops at
   * the first exit message with no reply, and otherwise sends `calculate` of the
   * unpacked problem to rank 0.
   */
  method RunWorker(comm: WorkerComm<ShellProblem, ExampleResult>, rank: int, calculate: Option<ShellProblem> -> ExampleResult)
    returns (exited: bool)
    modifies comm
    ensures comm.sent == old(comm.sent) + Replies(calculate, old(comm.inbox))
    ensures exited <==> FirstExit(old(comm.inbox)) < |old(comm.inbox)|
  {
    var worker := new Worker(comm, rank, calculate);
    worker.Run();
    exited := worker.exited;
  }
}
