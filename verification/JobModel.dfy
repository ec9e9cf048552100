/** Jobs of the script engine, and one round of the executor that runs them. */
module JobModel {
  import opened Wrappers

  /**
   What a job does is the jobs it enqueues: a promise job when it is run, an asynchronous job
   when it is called and then at each poll of its future, which completes at the last one.
   */
  datatype Job =
    | Promise(id: nat, spawns: seq<Job>)
    | Async(id: nat, atCall: seq<Job>, polls: seq<Step>)

  /** One poll of a future. */
  datatype Step = Step(spawns: seq<Job>)

  datatype Future = Future(id: nat, polls: seq<Step>)

  // ---------------------------------------------------------------------------
  // Sorting jobs into their queues
  // ---------------------------------------------------------------------------

  function Flat<A, B>(parts: A -> seq<B>, whole: seq<A>): seq<B> {
    if whole == [] then [] else parts(whole[0]) + Flat(parts, whole[1..])
  }

  function PromiseOf(job: Job): seq<Job> {
    if job.Promise? then [job] else []
  }

  function AsyncOf(job: Job): seq<Job> {
    if job.Async? then [job] else []
  }

  function SpawnsOf(job: Job): seq<Job> {
    if job.Promise? then job.spawns else []
  }

  function CallSpawnsOf(job: Job): seq<Job> {
    if job.Async? then job.atCall else []
  }

  function FutureOf(job: Job): seq<Future> {
    if job.Async? then [Future(job.id, job.polls)] else []
  }

  function StepSpawnsOf(step: Step): seq<Job> {
    step.spawns
  }

  function Promises(jobs: seq<Job>): seq<Job> {
    Flat(PromiseOf, jobs)
  }

  function Asyncs(jobs: seq<Job>): seq<Job> {
    Flat(AsyncOf, jobs)
  }

  /** Everything that promise jobs enqueue when they run one after the other. */
  function Spawns(jobs: seq<Job>): seq<Job> {
    Flat(SpawnsOf, jobs)
  }

  function CallSpawns(jobs: seq<Job>): seq<Job> {
    Flat(CallSpawnsOf, jobs)
  }

  function Futures(jobs: seq<Job>): seq<Future> {
    Flat(FutureOf, jobs)
  }

  /** Everything that polls of futures enqueue. */
  function StepSpawns(steps: seq<Step>): seq<Job> {
    Flat(StepSpawnsOf, steps)
  }

  // ---------------------------------------------------------------------------
  // One poll of the group of futures
  // ---------------------------------------------------------------------------

  /** The group after the poll, the steps that its futures took, and the future that completed. */
  datatype Polled = Polled(group: seq<Future>, steps: seq<Step>, completed: Option<nat>)

  /** Polls futures in the order given, until one completes. */
  function Poll(group: seq<Future>, order: seq<nat>): Polled
    decreases order
  {
    if order == [] || group == [] then Polled(group, [], None)
    else
      var k := order[0] % |group|;
      var future := group[k];
      if |future.polls| <= 1 then Polled(group[..k] + group[k + 1..], future.polls, Some(future.id))
      else
        var r := Poll(group[k := future.(polls := future.polls[1..])], order[1..]);
        r.(steps := [future.polls[0]] + r.steps)
  }

  // ---------------------------------------------------------------------------
  // The executor's state
  // ---------------------------------------------------------------------------

  /** The two queues, and a log of what was put into them, taken out of them and polled. */
  datatype State = State(
    promises: seq<Job>,
    asyncs: seq<Job>,
    enqueued: seq<Job>,   // promise jobs, as they were enqueued
    ran: seq<Job>,        // promise jobs, as they were run
    submitted: seq<Job>,  // asynchronous jobs, as they were enqueued
    called: seq<Job>,     // asynchronous jobs, as they were called
    polled: seq<Step>     // steps of futures, as they were taken
  )

  function Enqueued(s: State, jobs: seq<Job>): State {
    s.(promises := s.promises + Promises(jobs), enqueued := s.enqueued + Promises(jobs),
       asyncs := s.asyncs + Asyncs(jobs), submitted := s.submitted + Asyncs(jobs))
  }

  function Ran(s: State, jobs: seq<Job>): State {
    Enqueued(s.(ran := s.ran + jobs), Spawns(jobs))
  }

  function Called(s: State, jobs: seq<Job>): State {
    Enqueued(s.(called := s.called + jobs), CallSpawns(jobs))
  }

  function Stepped(s: State, steps: seq<Step>): State {
    Enqueued(s.(polled := s.polled + steps), StepSpawns(steps))
  }

  /** A whole queue is taken out and run. */
  function Drained(s: State): State {
    Ran(s.(promises := []), s.promises)
  }

  function AllCalled(s: State): State {
    Called(s.(asyncs := []), s.asyncs)
  }

  datatype Outcome = Outcome(state: State, group: seq<Future>, done: bool)

  /** The rounds of the run loop; `schedule` says which futures are ready in each of them. */
  function Rounds(s: State, group: seq<Future>, schedule: seq<seq<nat>>): Outcome
    decreases schedule
  {
    if schedule == [] then Outcome(s, group, false)
    else
      var t, more := AllCalled(s), group + Futures(s.asyncs);
      if more == [] && t.promises == [] then Outcome(t, more, true)
      else
        var polled := Poll(more, schedule[0]);
        Rounds(Drained(Stepped(t, polled.steps)), polled.group, schedule[1..])
  }

  function RunJobs(s: State, schedule: seq<seq<nat>>): Outcome {
    if s.promises == [] && s.asyncs == [] then Outcome(s, [], true) else Rounds(s, [], schedule)
  }
}
