/**
 * The controller-to-worker message and the logs of sends that the controller writes.
 *
 * A message is the dictionary `{'should_exit': ..., 'problem': ...}`: a flag and an
 * optional payload. A work message carries `should_exit = False` and its task; a
 * terminate message carries `should_exit = True` and `problem = None`.
 */
module Protocol {
  import opened Wrappers

  datatype Msg<T> = Msg(shouldExit: bool, problem: Option<T>)

  /** One point-to-point send: the destination rank and what was sent. */
  datatype Send<M> = Send(dest: int, msg: M)

  /** One message received by the controller: the source rank the transport reports and the worker's result. */
  datatype Reply<R> = Reply(source: int, result: R)

  /** A message is exactly one of "work with a task" or "terminate with no task". */
  predicate WellFormed<T>(m: Msg<T>)
  {
    m.shouldExit <==> m.problem.None?
  }

  /** Builds the work message that carries `task`. */
  function Build<T>(task: T): Msg<T>
  {
    Msg(false, Some(task))
  }

  /** Builds the terminate message. */
  function Exit<T>(): Msg<T>
  {
    Msg(true, None)
  }

  /** Reads the should-exit flag. */
  function ShouldExit<T>(m: Msg<T>): bool
  {
    m.shouldExit
  }

  /** Reads what task the message carries (`None` for a terminate message). */
  function Problem<T>(m: Msg<T>): Option<T>
  {
    m.problem
  }

  /** Reading back a built work message gives "do not exit" and the payload it was built from. */
  lemma BuildRoundTrip<T>(task: T)
    ensures !ShouldExit(Build(task)) && Problem(Build(task)) == Some(task)
    ensures WellFormed(Build(task))
  {
  }

  /** A terminate message says "exit", carries no task, and any two of them are equal. */
  lemma ExitShape<T>()
    ensures ShouldExit(Exit<T>()) && Problem(Exit<T>()) == None
    ensures WellFormed(Exit<T>())
    ensures forall m: Msg<T> :: ShouldExit(m) && Problem(m) == None ==> m == Exit<T>()
  {
  }

  /** The sends of a terminate broadcast to the ranks `ws`, one per rank, in list order. */
  function TerminateLog<T>(ws: seq<int>): (log: seq<Send<Msg<T>>>)
    ensures |log| == |ws|
    ensures forall i :: 0 <= i < |ws| ==> log[i] == Send(ws[i], Exit())
  {
    seq(|ws|, i requires 0 <= i < |ws| => Send(ws[i], Exit()))
  }

  /** The sends that hand `tasks[i]` to worker `dests[i]`, in order. */
  function WorkLog<T>(dests: seq<int>, tasks: seq<T>): (log: seq<Send<Msg<T>>>)
    requires |dests| == |tasks|
    ensures |log| == |tasks|
  {
    seq(|tasks|, i requires 0 <= i < |tasks| => Send(dests[i], Build(tasks[i])))
  }

  /** Extending a work log by one dispatch appends exactly that send. */
  lemma WorkLogSnoc<T>(dests: seq<int>, tasks: seq<T>, d: int, t: T)
    requires |dests| == |tasks|
    ensures WorkLog(dests + [d], tasks + [t]) == WorkLog(dests, tasks) + [Send(d, Build(t))]
  {
    var a := WorkLog(dests + [d], tasks + [t]);
    var b := WorkLog(dests, tasks) + [Send(d, Build(t))];
    assert |a| == |b|;
    forall i | 0 <= i < |a| ensures a[i] == b[i] {
      if i < |tasks| {
        assert (dests + [d])[i] == dests[i] && (tasks + [t])[i] == tasks[i];
      }
    }
  }

  /** Sending the next task of `tasks[lo..]` to `w` extends the log of that round by exactly that send. */
  lemma WorkLogExtend<T>(ds: seq<int>, tasks: seq<T>, lo: nat, p: nat, w: int)
    requires lo <= p < |tasks| && |ds| == p - lo
    ensures WorkLog(ds + [w], tasks[lo..p + 1]) == WorkLog(ds, tasks[lo..p]) + [Send(w, Build(tasks[p]))]
  {
    assert tasks[lo..p + 1] == tasks[lo..p] + [tasks[p]];
    WorkLogSnoc(ds, tasks[lo..p], w, tasks[p]);
  }

  /** No element occurs twice in `s`. */
  predicate NoDuplicates(s: seq<int>)
  {
    |s| == 0 || (s[|s| - 1] !in s[..|s| - 1] && NoDuplicates(s[..|s| - 1]))
  }

  /** Appending an element not yet present keeps a sequence free of duplicates. */
  lemma NoDuplicatesSnoc(s: seq<int>, x: int)
    requires NoDuplicates(s) && x !in s
    ensures NoDuplicates(s + [x])
  {
    assert (s + [x])[..|s|] == s;
  }

  /** `NoDuplicates` says that any two positions hold different elements. */
  lemma {:induction false} NoDuplicatesMeans(s: seq<int>)
    ensures NoDuplicates(s) <==> forall i, j :: 0 <= i < j < |s| ==> s[i] != s[j]
  {
    if |s| > 0 {
      var init := s[..|s| - 1];
      NoDuplicatesMeans(init);
      if NoDuplicates(s) {
        forall i, j | 0 <= i < j < |s| ensures s[i] != s[j] {
          if j == |s| - 1 {
            assert s[i] == init[i];
          } else {
            assert s[i] == init[i] && s[j] == init[j];
          }
        }
      }
      if forall i, j :: 0 <= i < j < |s| ==> s[i] != s[j] {
        assert s[|s| - 1] !in init by {
          forall i | 0 <= i < |init| ensures init[i] != s[|s| - 1] {
            assert init[i] == s[i];
          }
        }
        forall i, j | 0 <= i < j < |init| ensures init[i] != init[j] {
          assert init[i] == s[i] && init[j] == s[j];
        }
      }
    }
  }

  lemma ConcatAssoc<X>(a: seq<X>, b: seq<X>, c: seq<X>)
    ensures (a + b) + c == a + (b + c)
  {
  }

  /** Two consecutive rounds of dispatch make one work log. */
  lemma WorkLogAppend<T>(d1: seq<int>, t1: seq<T>, d2: seq<int>, t2: seq<T>)
    requires |d1| == |t1| && |d2| == |t2|
    ensures WorkLog(d1 + d2, t1 + t2) == WorkLog(d1, t1) + WorkLog(d2, t2)
  {
    var a := WorkLog(d1 + d2, t1 + t2);
    var b := WorkLog(d1, t1) + WorkLog(d2, t2);
    assert |a| == |b|;
    forall i | 0 <= i < |a| ensures a[i] == b[i] {
      if i < |t1| {
        assert (d1 + d2)[i] == d1[i] && (t1 + t2)[i] == t1[i];
      } else {
        assert (d1 + d2)[i] == d2[i - |t1|] && (t1 + t2)[i] == t2[i - |t1|];
      }
    }
  }

  /** Every message in a work log or a terminate log is well formed, and only the terminate log says "exit". */
  lemma LogsWellFormed<T>(dests: seq<int>, tasks: seq<T>, ws: seq<int>)
    requires |dests| == |tasks|
    ensures forall i :: 0 <= i < |tasks| ==> WellFormed(WorkLog(dests, tasks)[i].msg) && !WorkLog(dests, tasks)[i].msg.shouldExit
    ensures forall i :: 0 <= i < |ws| ==> WellFormed(TerminateLog<T>(ws)[i].msg) && TerminateLog<T>(ws)[i].msg.shouldExit
  {
  }

  /** The destinations of the terminate messages in a log, in order. */
  function ExitDests<T>(log: seq<Send<Msg<T>>>): seq<int>
  {
    if log == [] then []
    else (if log[0].msg.shouldExit then [log[0].dest] else []) + ExitDests(log[1..])
  }

  /** The sends in a log that are not terminate messages, in order. */
  function WorkSends<T>(log: seq<Send<Msg<T>>>): seq<Send<Msg<T>>>
  {
    if log == [] then []
    else (if log[0].msg.shouldExit then [] else [log[0]]) + WorkSends(log[1..])
  }

  lemma {:induction false} ExitDestsAppend<T>(a: seq<Send<Msg<T>>>, b: seq<Send<Msg<T>>>)
    ensures ExitDests(a + b) == ExitDests(a) + ExitDests(b)
    ensures WorkSends(a + b) == WorkSends(a) + WorkSends(b)
  {
    if a != [] {
      assert (a + b)[0] == a[0] && (a + b)[1..] == a[1..] + b;
      ExitDestsAppend(a[1..], b);
    } else {
      assert a + b == b;
    }
  }

  /** A work log holds no terminate message: its work sends are all of it. */
  lemma {:induction false} WorkLogHasNoExit<T>(dests: seq<int>, tasks: seq<T>)
    requires |dests| == |tasks|
    ensures ExitDests(WorkLog(dests, tasks)) == []
    ensures WorkSends(WorkLog(dests, tasks)) == WorkLog(dests, tasks)
  {
    var log := WorkLog(dests, tasks);
    if log != [] {
      assert log[1..] == WorkLog(dests[1..], tasks[1..]);
      WorkLogHasNoExit(dests[1..], tasks[1..]);
      assert log == [log[0]] + log[1..];
    }
  }

  /** A terminate broadcast holds only terminate messages, addressed to `ws` in order. */
  lemma {:induction false} TerminateLogExitDests<T>(ws: seq<int>)
    ensures ExitDests(TerminateLog<T>(ws)) == ws
    ensures WorkSends(TerminateLog<T>(ws)) == []
  {
    if ws != [] {
      assert TerminateLog<T>(ws)[1..] == TerminateLog<T>(ws[1..]);
      TerminateLogExitDests<T>(ws[1..]);
      assert ws == [ws[0]] + ws[1..];
    }
  }

  /** The set of source ranks of some received results. */
  function Sources<R>(ps: seq<Reply<R>>): (s: set<int>)
    ensures ps == [] ==> s == {}
  {
    if ps == [] then {} else {ps[0].source} + Sources(ps[1..])
  }

  /** `Sources` holds exactly the source ranks of the messages. */
  lemma {:induction false} SourcesMeans<R>(ps: seq<Reply<R>>)
    ensures forall i :: 0 <= i < |ps| ==> ps[i].source in Sources(ps)
    ensures forall w :: w in Sources(ps) ==> exists i :: 0 <= i < |ps| && ps[i].source == w
  {
    if ps != [] {
      SourcesMeans(ps[1..]);
      forall w | w in Sources(ps)
        ensures exists i :: 0 <= i < |ps| && ps[i].source == w
      {
        if w != ps[0].source {
          var j :| 0 <= j < |ps[1..]| && ps[1..][j].source == w;
          assert ps[j + 1].source == w;
        }
      }
    }
  }

  /** The results carried by some received messages, in order. */
  function Results<R>(ps: seq<Reply<R>>): (rs: seq<R>)
    ensures |rs| == |ps|
  {
    if ps == [] then [] else [ps[0].result] + Results(ps[1..])
  }

  /** `Results` keeps each message's result at the message's position. */
  lemma {:induction false} ResultsMeans<R>(ps: seq<Reply<R>>)
    ensures forall i :: 0 <= i < |ps| ==> Results(ps)[i] == ps[i].result
  {
    if ps != [] {
      ResultsMeans(ps[1..]);
    }
  }

  /** Receiving `r` ahead of `rest` contributes its source and its result first. */
  lemma ReceivedCons<R>(r: Reply<R>, rest: seq<Reply<R>>)
    ensures Sources([r] + rest) == {r.source} + Sources(rest)
    ensures Results([r] + rest) == [r.result] + Results(rest)
  {
    assert ([r] + rest)[1..] == rest;
  }

  lemma UnionAssoc(a: set<int>, b: set<int>, c: set<int>)
    ensures (a + b) + c == a + (b + c)
  {
  }
}
