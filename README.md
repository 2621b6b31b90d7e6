# Hummingbird master–worker coordination, modelled in Dafny

Hummingbird runs a pool of MPI processes as one controller (rank 0) and many
workers (every other rank). The controller pulls tasks one at a time from a
user-supplied generator. It sends each task to an idle worker, marks that worker
busy, and marks it idle again when its result arrives. When the generator is
exhausted, it broadcasts a terminate message to every worker rank. A worker loops:
it receives a message, exits if the message says so, and otherwise executes the
task and sends the result back to rank 0. `examples/python-mpi-example.py` is a
stand-alone program built on the same pattern, with sentinel strings in its task
stream.

This project models that coordination core:

- `wrappers.dfy`: `Option`.
- `protocol.dfy` (`Protocol`): the controller-to-worker message
  `{'should_exit', 'problem'}`. Also the logs of sends the controller writes: a
  work log (task `i` to worker `dests[i]`) and a terminate broadcast.
- `transport.dfy` (`Transport`): the communicator as the controller sees it. It
  holds the process count, the log of `isend`s, and the queue of results that have
  arrived but not yet been received.
- `pool.dfy` (`Pool`): the `Controller` worker-pool tracker (the set of idle worker
  ranks).
- `tasks.dfy` (`Tasks`): `AbstractTask`, the pull-based task source. The user's
  `process_results` is recorded as the sequence of results handed to it.
- `worker.dfy` (`Workers`): `AbstractWorker.run`, the receive / execute / reply loop.
- `framework.dfy` (`Framework`): `HummingbirdFramework.run` (role by rank) and
  `_run_controller`, the drain, dispatch and completion loop.
- `example.dfy` (`MpiExample`): the example program. It covers `pack_problem`,
  `unpack_problem` and `worker_should_exit`, and the `ProblemSolver` with its task
  generator and its aggregator. It also covers both branches of `main`, reusing
  `Pool.Controller`, `Transport.Comm` and `Workers.Worker`. The example's own
  `Controller` (`examples/python-mpi-example.py:17-41`) matches
  `python_simplified/mpi/controller.py` line for line, except that its
  `terminate_everything` also leaves the process. So `Pool.Controller` models both,
  and that exit is `MpiExample.ExampleRun.exited`.

Code that changes state in place is modelled as classes with `modifies` clauses.
Each of these methods is proved against a value-level description:

- the controller's send log always equals `WorkLog(assignees, tasks[..pos])`,
  followed by the terminate broadcast once it has happened;
- the idle set shrinks by exactly the distinct ranks a round handed out;
- a worker's sends are `Replies(execute, inbox)`, one reply per message up to the
  first exit message.

Where the code and its description differ, the model follows the code:

- The message is the dictionary shape `Msg(shouldExit, problem: Option<T>)`, not a
  two-variant union. `Protocol.WellFormed` states when the two agree.
- Worker ranks are `1 .. size - 1`, where `size` is the process count
  (`n_workers = comm.Get_size()`, `python_simplified/mpi/controller.py:7-8`). They
  are not `1 .. N` for a count `N` of workers.
- `python_simplified/mpi/controller.py` defines no `all_workers_completed`, but
  `_run_controller` calls it (`python_simplified/mpi/hb_framework.py:88`). The model
  defines it as "every worker rank is idle", which is the behaviour the completion
  phase relies on.
- Re-adding a rank that is already idle does nothing
  (`python_simplified/mpi/controller.py:23` is a plain `set.add`). It is not
  reported as a duplicate-worker error.
- `get_available_worker` returns whichever rank `set.pop()` yields
  (`python_simplified/mpi/controller.py:50`), not the lowest idle rank. The model
  lets any idle rank be chosen.
- The example's controller does not wait for busy workers. On `'End of Problems!'`
  it broadcasts terminate and leaves at once (`sys.exit(0)` inside its own
  `terminate_everything`), so results still in flight are never aggregated.

## Model

| member | source | states |
|---|---|---|
| Protocol.BuildRoundTrip | python_simplified/mpi/hb_framework.py:105 | a work message built from a task reads back as "do not exit" with exactly that task, and is well formed |
| Protocol.ExitShape | python_simplified/mpi/controller.py:40 | the terminate message reads back as "exit" with no problem, is well formed, and is the only message with both properties |
| Protocol.TerminateLog | python_simplified/mpi/controller.py:39-41 | the broadcast to a list of ranks holds one terminate send per rank, at the same position as that rank in the list |
| Protocol.LogsWellFormed | python_simplified/mpi/controller.py:39-41 | every message the controller sends is well formed; work messages say "do not exit" and terminate messages say "exit" |
| Protocol.WorkLogHasNoExit | python_simplified/mpi/hb_framework.py:103-106 | a log of dispatched tasks holds no terminate message |
| Protocol.TerminateLogExitDests | python_simplified/mpi/controller.py:39-41 | a terminate broadcast holds no work message and addresses exactly the listed ranks, in list order |
| Protocol.NoDuplicatesMeans | python_simplified/mpi/controller.py:50 | the ranks handed out by `pop` are free of duplicates exactly when any two positions hold different ranks |
| Protocol.SourcesMeans | python_simplified/mpi/hb_framework.py:81-83 | the ranks marked idle by a drain are exactly the source ranks of the received results |
| Protocol.ResultsMeans | python_simplified/mpi/hb_framework.py:81-84 | a drain hands the received results to `process_results` in arrival order, one per message |
| Transport.Comm.constructor | python_simplified/mpi/hb_framework.py:41 | a fresh communicator of a given size has sent nothing and has nothing waiting |
| Transport.Comm.ISend | python_simplified/mpi/hb_framework.py:106 | `isend` appends exactly one send to the log and leaves the waiting results alone |
| Transport.Comm.IProbe | python_simplified/mpi/hb_framework.py:53-61 | the probe reports true exactly when some result is waiting |
| Transport.Comm.Recv | python_simplified/mpi/hb_framework.py:82-83 | `recv` takes the oldest waiting result together with its source, which is a worker rank |
| Transport.Comm.Deliver | python_simplified/mpi/abstract_classes.py:44 | a worker's `send(results, dest=0)` arrives at the back of the controller's queue |
| Pool.WorkerRanks | python_simplified/mpi/controller.py:8 | `set(range(1, size))` holds exactly the ranks from 1 to size - 1, and there are size - 1 of them |
| Pool.RankList | python_simplified/mpi/controller.py:29 | `list(range(lo, hi))` holds `lo + i` at position `i` and has `hi - lo` elements |
| Pool.RankListCounts | python_simplified/mpi/controller.py:29 | `list(range(lo, hi))` holds each rank in the range exactly once and nothing else |
| Pool.BroadcastReachesEveryWorkerOnce | python_simplified/mpi/controller.py:25-41 | `terminate_everything` sends exactly one message to each worker rank and none elsewhere, and every message is terminate |
| Pool.Controller.constructor | python_simplified/mpi/controller.py:5-8 | every worker rank starts idle, no rank is busy, and rank 0 is never tracked |
| Pool.Controller.HaveAvailableWorkers | python_simplified/mpi/controller.py:10-17 | true exactly when some worker is idle |
| Pool.Controller.AddAvailableWorker | python_simplified/mpi/controller.py:19-23 | the rank becomes idle and nothing else changes (re-adding an idle rank is a no-op); the tracker stays consistent exactly when the rank is a worker rank |
| Pool.Controller.TerminateEverything | python_simplified/mpi/controller.py:25-30 | sends terminate to every worker rank, idle or busy, in rank order; the idle set is untouched |
| Pool.Controller.TerminateWorkers | python_simplified/mpi/controller.py:32-41 | one terminate message per listed rank, in list order |
| Pool.Controller.GetAvailableWorker | python_simplified/mpi/controller.py:43-50 | returns some idle worker rank and removes exactly that rank from the idle set |
| Pool.Controller.AllWorkersCompleted | python_simplified/mpi/hb_framework.py:88 | true exactly when every worker rank is idle, that is, when no rank holds an unanswered task |
| Tasks.TaskSource.constructor | python_simplified/mpi/abstract_classes.py:66-72 | a fresh generator is positioned before its first task, and no result has been processed yet |
| Tasks.TaskSource.GetNext | python_simplified/mpi/abstract_classes.py:74-81 | yields the next task and moves past it; once every task has been yielded it signals exhaustion and stays put |
| Tasks.TaskSource.ProcessResults | python_simplified/mpi/hb_framework.py:84 | the result is handed to the user's hook exactly once, after those handed before it |
| Workers.FirstExitMeans | python_simplified/mpi/abstract_classes.py:29-35 | `FirstExit` is the position of the first exit message: no earlier message says "exit", and the one there does |
| Workers.RepliesShape | python_simplified/mpi/abstract_classes.py:29-44 | a worker sends exactly one reply per message before the first exit message, in order, to rank 0, each holding the result of executing that message's task |
| Workers.RepliesIgnoreAfterExit | python_simplified/mpi/abstract_classes.py:32-35 | messages after the first exit message are never processed and cannot change what the worker sends |
| Workers.WorkerComm.constructor | python_simplified/mpi/abstract_classes.py:18-19 | a worker's end of the communicator starts with no message waiting and nothing sent |
| Workers.WorkerComm.Recv | python_simplified/mpi/abstract_classes.py:30 | the worker's `recv` takes its oldest message and sends nothing |
| Workers.WorkerComm.Send | python_simplified/mpi/abstract_classes.py:44 | the worker's `send` appends exactly one send to its log |
| Workers.Worker.constructor | python_simplified/mpi/abstract_classes.py:18-20 | the worker keeps its communicator, its rank and its executor, and has not exited |
| Workers.Worker.Run | python_simplified/mpi/abstract_classes.py:22-44 | the worker's sends are exactly `Replies` of the messages it was given; it exits exactly when one of them says "exit", and then everything after that message is left unread |
| Framework.RoleOf | python_simplified/mpi/hb_framework.py:40-50 | rank 0 runs the controller; every other rank runs a worker with its own rank |
| Framework.WorkerRolesAreTrackedRanks | python_simplified/mpi/hb_framework.py:45-50 | the ranks that run a worker are exactly the worker ranks the controller tracks |
| Framework.ControllerLogShape | python_simplified/mpi/hb_framework.py:94-106 | the controller's work sends are exactly the dispatched tasks in order; after the broadcast every worker rank has received exactly one terminate message, and none before |
| Framework.HandOne | python_simplified/mpi/hb_framework.py:103 | taking one more idle rank keeps the handed-out ranks distinct, drawn from the round's initial idle set, and disjoint from the ranks still idle |
| Framework.LogOne | python_simplified/mpi/hb_framework.py:103-106 | sending this newly pulled task to the chosen worker extends the round's work log by exactly that send |
| Framework.RoundLogged | python_simplified/mpi/hb_framework.py:94-101 | a dispatch round, with or without the terminate broadcast, keeps the send log equal to the work log of all tasks pulled so far plus the broadcast |
| Framework.RoundCount | python_simplified/mpi/hb_framework.py:94-101 | a round hands out min(idle, remaining) tasks, and broadcasts terminate exactly when more workers were idle than tasks remained |
| Framework.ControllerRun.constructor | python_simplified/mpi/hb_framework.py:72-77 | the controller starts with every worker idle, a fresh task source, nothing sent and `all_messages_sent` false |
| Framework.ControllerRun.Drain | python_simplified/mpi/hb_framework.py:81-84 | receives every waiting result once; the source ranks become idle and the results go to `process_results` in arrival order; nothing is sent |
| Framework.ControllerRun.AssignOne | python_simplified/mpi/hb_framework.py:103-106 | this newly pulled task goes to one idle worker, who becomes busy, and the send is logged |
| Framework.ControllerRun.AssignWhileIdle | python_simplified/mpi/hb_framework.py:94-106 | the inner loop pulls a task only while some worker is idle; it stops with no idle worker, or with the generator exhausted and a worker idle |
| Framework.ControllerRun.Dispatch | python_simplified/mpi/hb_framework.py:94-106 | a dispatch round sends min(idle, remaining) tasks to distinct idle workers, in generator order; it broadcasts terminate and sets `all_messages_sent` exactly when the generator ran out with a worker still idle |
| Framework.ControllerRun.Step | python_simplified/mpi/hb_framework.py:80-107 | one pass drains, then dispatches; after the broadcast it only drains (the idle set becomes the old one plus the sources of the received results, and nothing more is pulled or sent), and the controller exits exactly when every worker rank is then idle |
| MpiExample.PackProblem | examples/python-mpi-example.py:100-104 | a packed problem is a well-formed work message |
| MpiExample.PackRoundTrip | examples/python-mpi-example.py:89-104 | `worker_should_exit` of a packed problem is false and `unpack_problem` gives the command with empty input; the terminate message says "exit" and unpacks to nothing |
| MpiExample.TaskStreamWithoutWaits | examples/python-mpi-example.py:56-61 | with the wait sentinels removed, the generator yields `['ls', d]` for each directory in order, then one end sentinel, whatever the random draws |
| MpiExample.TaskStreamEndsOnce | examples/python-mpi-example.py:56-61 | the end sentinel is the generator's last item and occurs nowhere else |
| MpiExample.SumLensAppend | examples/python-mpi-example.py:66-68 | the counter of a list extended by more pairs is the old counter plus theirs |
| MpiExample.ProblemSolver.constructor | examples/python-mpi-example.py:45-47 | an empty aggregator with counter 0 and no directories |
| MpiExample.ProblemSolver.InitializeTaskGenerator | examples/python-mpi-example.py:49-54 | sets the fifteen directories and creates the generator over them, with the end sentinel last and only last |
| MpiExample.ProblemSolver.NextTask | examples/python-mpi-example.py:70-71 | yields the generator's next item and moves past it, or signals `StopIteration` at the end |
| MpiExample.ProblemSolver.ProcessResults | examples/python-mpi-example.py:63-68 | appends `(directory, len)` and adds `len` to the counter, so the counter stays the sum of the recorded lengths |
| MpiExample.ExampleRoundLogged | examples/python-mpi-example.py:126-138 | a dispatch round keeps the send log equal to the packed commands pulled so far, each to its worker, plus the broadcast once the end sentinel was pulled |
| MpiExample.ExampleRoundCommand | examples/python-mpi-example.py:134-138 | pulling a command and packing it for a worker extends the round's log by exactly that send |
| MpiExample.ExampleRoundSentinel | examples/python-mpi-example.py:128-133 | pulling a sentinel sends no work message |
| MpiExample.EndPulled | examples/python-mpi-example.py:131-133 | the items pulled include the end sentinel exactly when the generator has been read to its end |
| MpiExample.PulledRound | examples/python-mpi-example.py:126-133 | the dispatch loop's outcome is a round in which every item but the last is a command, a sentinel was pulled only with a worker idle, the end sentinel was pulled exactly when the controller exited, and a round that did not stop at a sentinel or exit stopped with no worker idle |
| MpiExample.ExampleRun.constructor | examples/python-mpi-example.py:116-120 | the controller branch starts with every worker idle, an empty aggregator, and a fresh generator over the directory list |
| MpiExample.ExampleRun.Drain | examples/python-mpi-example.py:122-125 | receives every waiting result once; the source ranks become idle and each result is aggregated in arrival order; nothing is sent |
| MpiExample.ExampleRun.SendCommand | examples/python-mpi-example.py:134-138 | a pulled command goes, packed, to one rank that was idle; exactly that rank leaves the idle set and exactly that send is logged |
| MpiExample.ExampleRun.PullOne | examples/python-mpi-example.py:127-138 | one iteration, entered with a worker idle, pulls exactly one item; a sentinel takes no worker and sends nothing, the end sentinel being the last item of the stream; a command goes, packed, to exactly one rank that was idle, which is appended to the round's hand-outs and is the only rank to leave the idle set |
| MpiExample.ExampleRun.PullWhileIdle | examples/python-mpi-example.py:126-138 | an item is pulled only while a worker is idle, so a sentinel is pulled only with a worker still idle; a wait sentinel ends the round without taking a worker; a command takes exactly one worker; the end sentinel stops the round; otherwise the round stops when no worker is idle |
| MpiExample.ExampleRun.Dispatch | examples/python-mpi-example.py:126-138 | every command pulled goes to a distinct idle worker, in order; a sentinel is pulled only while a worker is idle; the controller broadcasts terminate and exits (its `terminate_everything` leaves the process) exactly when it pulled the end sentinel, whether or not another worker is busy |
| MpiExample.ExampleRun.Step | examples/python-mpi-example.py:121-139 | one pass of `while True` drains, then dispatches, with the combined effect on the idle set, the aggregator and the send log |
| MpiExample.RunWorker | examples/python-mpi-example.py:140-150 | the worker branch replies with `calculate` of each problem to rank 0, up to the first exit message, and exits exactly when one arrives |

## Left out

- MPI itself is not modelled: process interleaving, message delivery and its
  timing. The transport is a send log plus a queue of waiting results, and
  `Comm.Deliver` stands for a result arriving. No lemma relates one worker's run to
  the controller's run.
- `sleep`, logging, `print`, `socket.gethostname` and the final statistics print
  are left out. `sys.exit(0)` is modelled as an `exited` flag that ends the loop.
- The controller's `while True` is modelled one pass at a time (`Step`). The model
  does not prove that the whole run terminates: that depends on workers replying,
  which is outside the model.
- `execute_task` and `calculate` are uninterpreted function parameters. The
  subprocess call, the output decoding and `len(output)` are not modelled.
  `python_simplified/command_line/processcall.py` is not part of this model.
- A message arriving at a worker is not an operation of the model. The worker's
  inbox is given to `Workers.Worker.Run` in full, in the order it arrives. On the
  controller side, `Transport.Comm.Deliver` states how a worker's result joins the
  queue, and `Drain` takes the queue as it finds it.
- The example generator's `random.randint(1, 10) > 6` draws are the parameter
  `waits`, one flag per directory.
- `python_simplified/mpi/message.py` (`ControllerToWorkerMessage`) is not part of
  this model. Its `build` and `extract_*` calls are modelled as `Protocol.Build`,
  `Protocol.ShouldExit` and `Protocol.Problem` over the dictionary shape that the
  example uses.
- Pool.Controller.GetAvailableWorker: the rank `set.pop()` picks is unspecified
  (any idle rank may be chosen). Its effect on `Busy()` is not restated, because
  `Busy()` is derived from the idle set.
- Tasks.TaskSource.ProcessResults: `process_results` is abstract, so its effect is
  recorded only as the sequence of results handed to it.
- `AbstractWorker.execute_task` and `AbstractTask.task_generator` are abstract.
  They are the executor function and the sequence of tasks given to the model.
- MpiExample.RunWorker, Workers.Worker.Run: when the inbox is empty and no exit
  message has arrived, the worker would block in `recv`. The model returns at that
  point instead.
