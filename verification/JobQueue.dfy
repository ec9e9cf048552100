/** The job executor of the script engine: promise jobs and asynchronous jobs. */
module JobQueue {
  import opened JobModel
  import opened JobRuns

  class Queue {
    var promiseJobs: seq<Job>
    var asyncJobs: seq<Job>
    ghost var enqueued: seq<Job>
    ghost var ran: seq<Job>
    ghost var submitted: seq<Job>
    ghost var called: seq<Job>
    ghost var polled: seq<Step>

    constructor ()
      ensures Contents() == State([], [], [], [], [], [], [])
    {
      promiseJobs, asyncJobs, enqueued, ran, submitted, called, polled := [], [], [], [], [], [], [];
    }

    ghost function Contents(): State
      reads this
    {
      State(promiseJobs, asyncJobs, enqueued, ran, submitted, called, polled)
    }

    method EnqueueJob(job: Job)
      modifies this
      ensures Contents() == Enqueued(old(Contents()), [job])
    {
      assert [job][1..] == [];
      assert Promises([]) == [] && Asyncs([]) == [];
      assert if job.Promise? then Promises([job]) == [job] && Asyncs([job]) == [] else Asyncs([job]) == [job] && Promises([job]) == [];
      assert asyncJobs + [] == asyncJobs && submitted + [] == submitted;
      assert promiseJobs + [] == promiseJobs && enqueued + [] == enqueued;
      match job
      case Promise(_, _) =>
        promiseJobs, enqueued := promiseJobs + [job], enqueued + [job];
      case Async(_, _, _) =>
        asyncJobs, submitted := asyncJobs + [job], submitted + [job];
    }

    method EnqueueAll(jobs: seq<Job>)
      modifies this
      ensures Contents() == Enqueued(old(Contents()), jobs)
    {
      NothingMore(Contents());
      for i := 0 to |jobs|
        invariant Contents() == Enqueued(old(Contents()), jobs[..i])
      {
        EnqueuedConcat(old(Contents()), jobs[..i], [jobs[i]]);
        EnqueueJob(jobs[i]);
        assert jobs[..i + 1] == jobs[..i] + [jobs[i]];
      }
      assert jobs[..|jobs|] == jobs;
    }

    /** Runs the promise jobs that are queued now; what they enqueue waits for the next drain. */
    method DrainJobs()
      requires forall j :: j in promiseJobs ==> j.Promise?
      modifies this
      ensures Contents() == Drained(old(Contents()))
    {
      var jobs := promiseJobs;
      promiseJobs := [];
      ghost var start := Contents();
      NothingMore(start);
      for i := 0 to |jobs|
        invariant Contents() == Ran(start, jobs[..i])
      {
        assert jobs[i] in jobs;
        RanConcat(start, jobs[..i], [jobs[i]]);
        OneJob(jobs[i]);
        ran := ran + [jobs[i]];
        EnqueueAll(jobs[i].spawns);
        assert jobs[..i + 1] == jobs[..i] + [jobs[i]];
      }
      assert jobs[..|jobs|] == jobs;
    }

    /** Calls the asynchronous jobs that are queued now; their futures join the group. */
    method CallAsyncJobs(group: seq<Future>) returns (more: seq<Future>)
      requires forall j :: j in asyncJobs ==> j.Async?
      modifies this
      ensures more == group + Futures(old(asyncJobs))
      ensures Contents() == AllCalled(old(Contents()))
    {
      var jobs := asyncJobs;
      asyncJobs := [];
      more := group;
      ghost var start := Contents();
      NothingMore(start);
      for i := 0 to |jobs|
        invariant more == group + Futures(jobs[..i])
        invariant Contents() == Called(start, jobs[..i])
      {
        assert jobs[i] in jobs;
        CalledConcat(start, jobs[..i], [jobs[i]]);
        OneJob(jobs[i]);
        FlatConcat(FutureOf, jobs[..i], [jobs[i]]);
        Associative(group, Futures(jobs[..i]), Futures([jobs[i]]));
        more := more + [Future(jobs[i].id, jobs[i].polls)];
        called := called + [jobs[i]];
        EnqueueAll(jobs[i].atCall);
        assert jobs[..i + 1] == jobs[..i] + [jobs[i]];
      }
      assert jobs[..|jobs|] == jobs;
    }

    /** The rounds of the run loop, as long as `schedule` says which futures are ready. */
    method RunRounds(schedule: seq<seq<nat>>) returns (done: bool, group: seq<Future>)
      requires Fifo(Contents())
      modifies this
      ensures Outcome(Contents(), group, done) == Rounds(old(Contents()), [], schedule)
    {
      group := [];
      for i := 0 to |schedule|
        invariant Fifo(Contents())
        invariant Rounds(Contents(), group, schedule[i..]) == Rounds(old(Contents()), [], schedule)
      {
        assert schedule[i..][1..] == schedule[i + 1..];
        FifoAllCalled(Contents());
        group := CallAsyncJobs(group);
        if group == [] && promiseJobs == [] {
          return true, group;
        }
        var poll := Poll(group, schedule[i]);
        FifoRound(Contents(), poll.steps);
        polled := polled + poll.steps;
        EnqueueAll(StepSpawns(poll.steps));
        DrainJobs();
        group := poll.group;
      }
      done := false;
    }

    /**
     The run loop, which returns at once when nothing is queued. It may be cut off before it is
     done only because `schedule` ends.
     */
    method RunJobsAsync(schedule: seq<seq<nat>>) returns (done: bool, group: seq<Future>)
      requires Fifo(Contents())
      modifies this
      ensures Outcome(Contents(), group, done) == RunJobs(old(Contents()), schedule)
      ensures Fifo(Contents()) && Extends(old(Contents()), Contents()) && Accounted(old(Contents()), Contents())
      ensures done ==> promiseJobs == [] && asyncJobs == [] && group == []
      ensures done ==> ran == enqueued && called == submitted
      ensures done ==> multiset(polled[old(|polled|)..]) == multiset(Polls(called[old(|called|)..]))
      ensures !done ==> Busy(schedule) <= old(Load(Contents()))
      ensures old(asyncJobs == [] && OnlyPromises(promiseJobs)) ==> SameOrder(old(Contents()), Contents())
    {
      RunsInOrder(Contents(), schedule);
      if promiseJobs == [] && asyncJobs == [] {
        return true, [];
      }
      done, group := RunRounds(schedule);
    }
  }
}
