/**
 * The pull-based task source (`AbstractTask`): a generator of tasks, read one at a
 * time with `get_next`, plus the user's `process_results` hook, whose effect is
 * recorded as the sequence of results handed to it.
 */
module Tasks {
  import opened Wrappers

  class TaskSource<T, R> {
    /** Everything the user's `task_generator` yields, in order. */
    const tasks: seq<T>
    /** How many tasks the generator has yielded so far. */
    var pos: nat
    /** Every result passed to `process_results`, in the order it was passed. */
    var consumed: seq<R>

    ghost predicate Valid()
      reads this
    {
      pos <= |tasks|
    }

    /** `__init__`: a fresh generator, positioned before the first task. */
    constructor (tasks: seq<T>)
      ensures this.tasks == tasks && pos == 0 && consumed == [] && Valid()
    {
      this.tasks := tasks;
      pos := 0;
      consumed := [];
    }

    /**
     * `get_next`: yields the next task and moves past it; once every task has been
     * yielded it signals exhaustion (`StopIteration`, here `None`) and stays put.
     */
    method GetNext() returns (t: Option<T>)
      requires Valid()
      modifies this
      ensures Valid() && consumed == old(consumed)
      ensures old(pos) < |tasks| ==> t == Some(tasks[old(pos)]) && pos == old(pos) + 1
      ensures old(pos) == |tasks| ==> t == None && pos == old(pos)
    {
      if pos < |tasks| {
        t := Some(tasks[pos]);
        pos := pos + 1;
      } else {
        t := None;
      }
    }

    /** `process_results(r)`: the result is handed to the user's hook exactly once. */
    method ProcessResults(r: R)
      modifies this
      ensures consumed == old(consumed) + [r] && pos == old(pos)
    {
      consumed := consumed + [r];
    }
  }
}
