/** The caller-pumped executor: first in, first out, tasks posted while pumping included. */
module ManualExecutors {
  import opened Basics

  /** What running a task posts: a finite tree of tasks. */
  datatype Task = Task(id: int, posts: seq<Task>)

  function PostedBy(tasks: seq<Task>): seq<Task> {
    if tasks == [] then [] else PostedBy(tasks[..|tasks| - 1]) + tasks[|tasks| - 1].posts
  }

  /** How many tasks there are, posted ones included. */
  function Count(tasks: seq<Task>): nat
    decreases tasks
  {
    if tasks == [] then 0 else CountOne(tasks[0]) + Count(tasks[1..])
  }

  function CountOne(t: Task): nat
    decreases t
  {
    1 + Count(t.posts)
  }

  lemma {:induction false} CountConcat(s: seq<Task>, t: seq<Task>)
    ensures Count(s + t) == Count(s) + Count(t)
    decreases |s|
  {
    if s == [] {
      assert s + t == t;
    } else {
      assert (s + t)[1..] == s[1..] + t;
      CountConcat(s[1..], t);
    }
  }

  /** Running the first task and queueing what it posts leaves one task less. */
  lemma {:induction false} CountFirst(queue: seq<Task>)
    requires queue != []
    ensures Count(queue[1..] + queue[0].posts) == Count(queue) - 1
  {
    CountConcat(queue[1..], queue[0].posts);
    assert CountOne(queue[0]) == 1 + Count(queue[0].posts);
  }

  /** Running what is queued, in order, with everything it posts behind it. */
  function Pumped(queue: seq<Task>): (ran: seq<Task>)
    decreases Count(queue)
  {
    if queue == [] then []
    else
      CountFirst(queue);
      [queue[0]] + Pumped(queue[1..] + queue[0].posts)
  }

  lemma PostedByNext(tasks: seq<Task>, t: Task)
    ensures PostedBy(tasks + [t]) == PostedBy(tasks) + t.posts
  {
    assert (tasks + [t])[..|tasks|] == tasks;
  }

  lemma {:induction false} PostedByCons(t: Task, tasks: seq<Task>)
    ensures PostedBy([t] + tasks) == t.posts + PostedBy(tasks)
    decreases |tasks|
  {
    if tasks == [] {
      PostedByNext([], t);
      assert [t] + tasks == [] + [t];
    } else {
      var n := |tasks| - 1;
      PostedByNext([t] + tasks[..n], tasks[n]);
      assert [t] + tasks == [t] + tasks[..n] + [tasks[n]];
      PostedByCons(t, tasks[..n]);
      AppendAfter(t.posts, PostedBy(tasks[..n]), tasks[n].posts);
    }
  }

  /**
   First in, first out: the tasks run are those queued followed by those posted, in the order in which they were
   posted.
   */
  lemma {:induction false} PumpsInOrder(queue: seq<Task>)
    ensures Pumped(queue) == queue + PostedBy(Pumped(queue))
    decreases Count(queue)
  {
    if queue != [] {
      var t, rest := queue[0], queue[1..];
      CountFirst(queue);
      PumpsInOrder(rest + t.posts);
      var ran := Pumped(rest + t.posts);
      PostedByCons(t, ran);
      AppendAfter(rest, t.posts, PostedBy(ran));
      assert queue == [t] + rest;
      AppendAfter([t], rest, t.posts + PostedBy(ran));
    }
  }

  /** Every task there is runs, and runs once. */
  lemma {:induction false} PumpsAll(queue: seq<Task>)
    ensures |Pumped(queue)| == Count(queue)
    decreases Count(queue)
  {
    if queue != [] {
      CountFirst(queue);
      PumpsAll(queue[1..] + queue[0].posts);
    }
  }

  class ManualExecutor {
    var queue: seq<Task>

    constructor ()
      ensures queue == []
    {
      queue := [];
    }

    method Post(task: Task)
      modifies this
      ensures queue == old(queue) + [task]
    {
      queue := queue + [task];
    }

    /** Running a task posts what it posts. */
    method Run(task: Task)
      modifies this
      ensures queue == old(queue) + task.posts
    {
      for i := 0 to |task.posts|
        invariant queue == old(queue) + task.posts[..i]
      {
        Post(task.posts[i]);
      }
    }

    method Pump() returns (count: nat, ghost ran: seq<Task>)
      modifies this
      ensures queue == [] && ran == Pumped(old(queue)) && count == |ran|
    {
      count, ran := 0, [];
      assert [] + Pumped(queue) == Pumped(queue);
      while queue != []
        invariant Pumped(old(queue)) == ran + Pumped(queue) && count == |ran|
        decreases Count(queue)
      {
        var task := queue[0];
        CountFirst(queue);
        AppendAfter(ran, [task], Pumped(queue[1..] + task.posts));
        queue := queue[1..];
        count := count + 1;
        Run(task);
        ran := ran + [task];
      }
      assert ran + Pumped([]) == ran;
    }
  }
}
