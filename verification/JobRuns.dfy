/** What every run of the executor keeps: order, accounts and progress. */
module JobRuns {
  import opened JobModel

  lemma Associative<T>(a: seq<T>, b: seq<T>, c: seq<T>)
    ensures (a + b) + c == a + (b + c)
  {
  }

  lemma {:induction false} FlatConcat<A, B>(parts: A -> seq<B>, a: seq<A>, b: seq<A>)
    ensures Flat(parts, a + b) == Flat(parts, a) + Flat(parts, b)
  {
    if a == [] {
      assert a + b == b;
    } else {
      assert (a + b)[1..] == a[1..] + b;
      FlatConcat(parts, a[1..], b);
      Associative(parts(a[0]), Flat(parts, a[1..]), Flat(parts, b));
    }
  }

  lemma {:induction false} OnlyKind(jobs: seq<Job>)
    ensures forall j :: j in Promises(jobs) ==> j.Promise?
    ensures forall j :: j in Asyncs(jobs) ==> j.Async?
  {
    if jobs != [] {
      OnlyKind(jobs[1..]);
    }
  }

  lemma OneJob(job: Job)
    ensures job.Promise? ==> Spawns([job]) == job.spawns
    ensures job.Async? ==> CallSpawns([job]) == job.atCall && Futures([job]) == [Future(job.id, job.polls)]
  {
    assert [job][1..] == [];
    assert Spawns([]) == [] && CallSpawns([]) == [] && Futures([]) == [];
  }

  // ---------------------------------------------------------------------------
  // First in, first out
  // ---------------------------------------------------------------------------

  /** Jobs leave their queue in the order in which they came, each of them once. */
  ghost predicate Fifo(s: State) {
    && s.enqueued == s.ran + s.promises && s.submitted == s.called + s.asyncs
    && (forall j :: j in s.promises ==> j.Promise?) && (forall j :: j in s.asyncs ==> j.Async?)
  }

  lemma EnqueuedConcat(s: State, a: seq<Job>, b: seq<Job>)
    ensures Enqueued(Enqueued(s, a), b) == Enqueued(s, a + b)
  {
    FlatConcat(PromiseOf, a, b);
    FlatConcat(AsyncOf, a, b);
    Associative(s.promises, Promises(a), Promises(b));
    Associative(s.enqueued, Promises(a), Promises(b));
    Associative(s.asyncs, Asyncs(a), Asyncs(b));
    Associative(s.submitted, Asyncs(a), Asyncs(b));
  }

  lemma RanConcat(s: State, a: seq<Job>, b: seq<Job>)
    ensures Ran(Ran(s, a), b) == Ran(s, a + b)
  {
    FlatConcat(SpawnsOf, a, b);
    Associative(s.ran, a, b);
    EnqueuedConcat(s.(ran := s.ran + (a + b)), Spawns(a), Spawns(b));
  }

  lemma CalledConcat(s: State, a: seq<Job>, b: seq<Job>)
    ensures Called(Called(s, a), b) == Called(s, a + b)
  {
    FlatConcat(CallSpawnsOf, a, b);
    Associative(s.called, a, b);
    EnqueuedConcat(s.(called := s.called + (a + b)), CallSpawns(a), CallSpawns(b));
  }

  lemma NothingMore(s: State)
    ensures Enqueued(s, []) == s && Ran(s, []) == s && Called(s, []) == s
  {
  }

  lemma FifoEnqueued(s: State, jobs: seq<Job>)
    ensures Fifo(s) ==> Fifo(Enqueued(s, jobs))
  {
    OnlyKind(jobs);
    Associative(s.ran, s.promises, Promises(jobs));
    Associative(s.called, s.asyncs, Asyncs(jobs));
  }

  /** The logs only grow. */
  predicate Extends(s: State, t: State) {
    s.enqueued <= t.enqueued && s.ran <= t.ran && s.submitted <= t.submitted && s.called <= t.called && s.polled <= t.polled
  }

  lemma FifoAllCalled(s: State)
    requires Fifo(s)
    ensures Fifo(AllCalled(s)) && Extends(s, AllCalled(s))
  {
    FifoEnqueued(s.(asyncs := [], called := s.called + s.asyncs), CallSpawns(s.asyncs));
  }

  /** A poll and a drain keep the order. */
  lemma FifoRound(s: State, steps: seq<Step>)
    requires Fifo(s)
    ensures Fifo(Stepped(s, steps)) && Fifo(Drained(Stepped(s, steps))) && Extends(s, Drained(Stepped(s, steps)))
  {
    FifoEnqueued(s.(polled := s.polled + steps), StepSpawns(steps));
    var t := Stepped(s, steps);
    FifoEnqueued(t.(promises := [], ran := t.ran + t.promises), Spawns(t.promises));
  }

  /**
   Jobs run in the order in which they were enqueued, each of them once; the loop is done only
   when both queues and the group are empty, and then everything enqueued has run.
   */
  lemma {:induction false} RoundsInOrder(s: State, group: seq<Future>, schedule: seq<seq<nat>>)
    requires Fifo(s)
    ensures var r := Rounds(s, group, schedule);
            && Fifo(r.state) && Extends(s, r.state)
            && (r.done ==> r.state.promises == [] && r.state.asyncs == [] && r.group == []
                           && r.state.ran == r.state.enqueued && r.state.called == r.state.submitted)
    decreases schedule
  {
    if schedule != [] {
      FifoAllCalled(s);
      var t, more := AllCalled(s), group + Futures(s.asyncs);
      if more != [] || t.promises != [] {
        var polled := Poll(more, schedule[0]);
        FifoRound(t, polled.steps);
        RoundsInOrder(Drained(Stepped(t, polled.steps)), polled.group, schedule[1..]);
      }
    }
  }

  // ---------------------------------------------------------------------------
  // Accounts: no job is made up, and none is lost
  // ---------------------------------------------------------------------------

  function PollsOf(job: Job): seq<Step> {
    if job.Async? then job.polls else []
  }

  function PollsLeftOf(future: Future): seq<Step> {
    future.polls
  }

  function Polls(jobs: seq<Job>): seq<Step> {
    Flat(PollsOf, jobs)
  }

  function PollsLeft(group: seq<Future>): seq<Step> {
    Flat(PollsLeftOf, group)
  }

  /** Everything ever enqueued. */
  function Made(s: State): multiset<Job> {
    multiset(s.enqueued) + multiset(s.submitted)
  }

  /** Everything that the jobs run and called and the steps taken were to enqueue. */
  function Due(s: State): multiset<Job> {
    multiset(Spawns(s.ran)) + multiset(CallSpawns(s.called)) + multiset(StepSpawns(s.polled))
  }

  /** From `s` to `t`, what was enqueued is what was due, and the steps of called jobs were taken or are left. */
  ghost predicate Balanced(s: State, group: seq<Future>, t: State, more: seq<Future>) {
    && Made(t) + Due(s) == Made(s) + Due(t)
    && multiset(t.polled) + multiset(PollsLeft(more)) + multiset(Polls(s.called))
       == multiset(s.polled) + multiset(PollsLeft(group)) + multiset(Polls(t.called))
  }

  lemma Chained<T>(a: multiset<T>, b: multiset<T>, c: multiset<T>, x: multiset<T>, y: multiset<T>, z: multiset<T>)
    requires b + x == a + y && c + y == b + z
    ensures c + x == a + z
  {
    forall e: T
      ensures (c + x)[e] == (a + z)[e]
    {
      assert (b + x)[e] == (a + y)[e] && (c + y)[e] == (b + z)[e];
    }
  }

  lemma BalancedTransitive(s: State, g: seq<Future>, t: State, h: seq<Future>, u: State, k: seq<Future>)
    requires Balanced(s, g, t, h) && Balanced(t, h, u, k)
    ensures Balanced(s, g, u, k)
  {
    Chained(Made(s), Made(t), Made(u), Due(s), Due(t), Due(u));
    Chained(multiset(s.polled) + multiset(PollsLeft(g)), multiset(t.polled) + multiset(PollsLeft(h)),
            multiset(u.polled) + multiset(PollsLeft(k)),
            multiset(Polls(s.called)), multiset(Polls(t.called)), multiset(Polls(u.called)));
  }

  lemma {:induction false} SplitKeepsAll(jobs: seq<Job>)
    ensures multiset(Promises(jobs)) + multiset(Asyncs(jobs)) == multiset(jobs)
  {
    if jobs != [] {
      SplitKeepsAll(jobs[1..]);
      assert jobs == [jobs[0]] + jobs[1..];
    }
  }

  lemma MadeBy(s: State, jobs: seq<Job>)
    ensures Made(Enqueued(s, jobs)) == Made(s) + multiset(jobs)
  {
    SplitKeepsAll(jobs);
  }

  lemma {:induction false} FuturesPolls(jobs: seq<Job>)
    ensures PollsLeft(Futures(jobs)) == Polls(jobs)
  {
    if jobs != [] {
      FuturesPolls(jobs[1..]);
      if jobs[0].Async? {
        assert Futures(jobs)[1..] == Futures(jobs[1..]);
      } else {
        assert Futures(jobs) == Futures(jobs[1..]);
        assert Polls(jobs) == Polls(jobs[1..]);
      }
    }
  }

  lemma DueCalled(s: State, jobs: seq<Job>)
    ensures Due(s.(called := s.called + jobs)) == Due(s) + multiset(CallSpawns(jobs))
  {
    FlatConcat(CallSpawnsOf, s.called, jobs);
  }

  lemma DueRan(s: State, jobs: seq<Job>)
    ensures Due(s.(ran := s.ran + jobs)) == Due(s) + multiset(Spawns(jobs))
  {
    FlatConcat(SpawnsOf, s.ran, jobs);
  }

  lemma DueStepped(s: State, steps: seq<Step>)
    ensures Due(s.(polled := s.polled + steps)) == Due(s) + multiset(StepSpawns(steps))
  {
    FlatConcat(StepSpawnsOf, s.polled, steps);
  }

  /** Enqueueing what has just come due keeps the balance of jobs. */
  lemma Settles(s: State, t: State, jobs: seq<Job>)
    requires s.enqueued == t.enqueued && s.submitted == t.submitted && Due(t) == Due(s) + multiset(jobs)
    ensures Made(Enqueued(t, jobs)) + Due(s) == Made(s) + Due(Enqueued(t, jobs))
  {
    MadeBy(t, jobs);
  }

  lemma CallsBalanced(s: State, group: seq<Future>)
    ensures Balanced(s, group, AllCalled(s), group + Futures(s.asyncs))
  {
    DueCalled(s, s.asyncs);
    Settles(s, s.(asyncs := [], called := s.called + s.asyncs), CallSpawns(s.asyncs));
    CallsPolls(s, group);
    AddBoth(multiset(s.polled), multiset(PollsLeft(group + Futures(s.asyncs))), multiset(Polls(s.called)),
            multiset(PollsLeft(group)), multiset(Polls(s.called + s.asyncs)));
  }

  lemma AddBoth<T>(p: multiset<T>, a: multiset<T>, b: multiset<T>, c: multiset<T>, d: multiset<T>)
    requires a + b == c + d
    ensures p + a + b == p + c + d
  {
    assert p + a + b == p + (a + b) && p + c + d == p + (c + d);
  }

  lemma CallsPolls(s: State, group: seq<Future>)
    ensures multiset(PollsLeft(group + Futures(s.asyncs))) + multiset(Polls(s.called))
            == multiset(PollsLeft(group)) + multiset(Polls(s.called + s.asyncs))
  {
    FlatConcat(PollsOf, s.called, s.asyncs);
    FlatConcat(PollsLeftOf, group, Futures(s.asyncs));
    FuturesPolls(s.asyncs);
  }

  lemma {:induction false} PollTakes(group: seq<Future>, order: seq<nat>)
    ensures multiset(Poll(group, order).steps) + multiset(PollsLeft(Poll(group, order).group)) == multiset(PollsLeft(group))
    decreases order
  {
    if order != [] && group != [] {
      var k := order[0] % |group|;
      var polls := group[k].polls;
      if |polls| <= 1 {
        LastTaken(group, k);
      } else {
        var rest := group[k := group[k].(polls := polls[1..])];
        PollTakes(rest, order[1..]);
        FirstTaken(group, k, Poll(rest, order[1..]).steps, PollsLeft(Poll(rest, order[1..]).group));
      }
    }
  }

  lemma LastTaken(group: seq<Future>, k: nat)
    requires k < |group|
    ensures multiset(group[k].polls) + multiset(PollsLeft(group[..k] + group[k + 1..])) == multiset(PollsLeft(group))
  {
    LeftSplits(group, k);
    FlatConcat(PollsLeftOf, group[..k], group[k + 1..]);
  }

  lemma FirstTaken(group: seq<Future>, k: nat, steps: seq<Step>, left: seq<Step>)
    requires k < |group| && group[k].polls != []
    requires multiset(steps) + multiset(left) == multiset(PollsLeft(group[k := group[k].(polls := group[k].polls[1..])]))
    ensures multiset([group[k].polls[0]] + steps) + multiset(left) == multiset(PollsLeft(group))
  {
    LeftSplits(group, k);
    LeftReplaced(group, k, group[k].polls[1..]);
    OneTaken(PollsLeft(group[..k]), group[k].polls, PollsLeft(group[k + 1..]), steps, left);
  }

  lemma LeftReplaced(group: seq<Future>, k: nat, polls: seq<Step>)
    requires k < |group|
    ensures PollsLeft(group[k := group[k].(polls := polls)]) == PollsLeft(group[..k]) + polls + PollsLeft(group[k + 1..])
  {
    var rest := group[k := group[k].(polls := polls)];
    assert rest[..k] == group[..k] && rest[k + 1..] == group[k + 1..];
    LeftSplits(rest, k);
  }

  lemma LeftSplits(group: seq<Future>, k: nat)
    requires k < |group|
    ensures PollsLeft(group) == PollsLeft(group[..k]) + group[k].polls + PollsLeft(group[k + 1..])
  {
    assert group == group[..k] + group[k..] && group[k..][1..] == group[k + 1..];
    FlatConcat(PollsLeftOf, group[..k], group[k..]);
    Associative(PollsLeft(group[..k]), group[k].polls, PollsLeft(group[k + 1..]));
  }

  lemma OneTaken(a: seq<Step>, polls: seq<Step>, b: seq<Step>, steps: seq<Step>, left: seq<Step>)
    requires polls != [] && multiset(steps) + multiset(left) == multiset(a + polls[1..] + b)
    ensures multiset([polls[0]] + steps) + multiset(left) == multiset(a + polls + b)
  {
    assert polls == [polls[0]] + polls[1..];
    assert multiset(polls) == multiset{polls[0]} + multiset(polls[1..]);
    assert multiset([polls[0]] + steps) == multiset{polls[0]} + multiset(steps);
    assert multiset(a + polls + b) == multiset{polls[0]} + multiset(a + polls[1..] + b);
  }

  lemma StepsBalanced(s: State, group: seq<Future>, order: seq<nat>)
    ensures Balanced(s, group, Stepped(s, Poll(group, order).steps), Poll(group, order).group)
  {
    var steps := Poll(group, order).steps;
    PollTakes(group, order);
    DueStepped(s, steps);
    Settles(s, s.(polled := s.polled + steps), StepSpawns(steps));
  }

  lemma DrainBalanced(s: State, group: seq<Future>)
    ensures Balanced(s, group, Drained(s), group)
  {
    DueRan(s, s.promises);
    Settles(s, s.(promises := [], ran := s.ran + s.promises), Spawns(s.promises));
  }

  lemma {:induction false} RoundsBalanced(s: State, group: seq<Future>, schedule: seq<seq<nat>>)
    ensures Balanced(s, group, Rounds(s, group, schedule).state, Rounds(s, group, schedule).group)
    decreases schedule
  {
    if schedule != [] {
      var t, more := AllCalled(s), group + Futures(s.asyncs);
      CallsBalanced(s, group);
      if more != [] || t.promises != [] {
        var polled := Poll(more, schedule[0]);
        var u := Stepped(t, polled.steps);
        StepsBalanced(t, more, schedule[0]);
        DrainBalanced(u, polled.group);
        BalancedTransitive(s, group, t, more, u, polled.group);
        BalancedTransitive(s, group, u, polled.group, Drained(u), polled.group);
        RoundsBalanced(Drained(u), polled.group, schedule[1..]);
        var r := Rounds(Drained(u), polled.group, schedule[1..]);
        BalancedTransitive(s, group, Drained(u), polled.group, r.state, r.group);
      }
    }
  }

  /** What was enqueued between `s` and `t` is exactly what the jobs run and called and the steps taken since enqueue. */
  ghost predicate Accounted(s: State, t: State) {
    && Extends(s, t)
    && multiset(t.enqueued[|s.enqueued|..]) + multiset(t.submitted[|s.submitted|..])
    == multiset(Spawns(t.ran[|s.ran|..])) + multiset(CallSpawns(t.called[|s.called|..]))
       + multiset(StepSpawns(t.polled[|s.polled|..]))
  }

  lemma BalancedAccounts(s: State, group: seq<Future>, t: State, more: seq<Future>)
    requires Extends(s, t) && Balanced(s, group, t, more)
    ensures Accounted(s, t)
  {
    var made := multiset(t.enqueued[|s.enqueued|..]) + multiset(t.submitted[|s.submitted|..]);
    var due := multiset(Spawns(t.ran[|s.ran|..])) + multiset(CallSpawns(t.called[|s.called|..]))
               + multiset(StepSpawns(t.polled[|s.polled|..]));
    NewlyMade(s, t);
    NewlyDue(s, t);
    Cancelled(Made(s), Due(s), made, due);
  }

  lemma NewlyMade(s: State, t: State)
    requires Extends(s, t)
    ensures Made(t) == Made(s) + (multiset(t.enqueued[|s.enqueued|..]) + multiset(t.submitted[|s.submitted|..]))
  {
    assert t.enqueued == s.enqueued + t.enqueued[|s.enqueued|..];
    assert t.submitted == s.submitted + t.submitted[|s.submitted|..];
  }

  lemma NewlyDue(s: State, t: State)
    requires Extends(s, t)
    ensures Due(t) == Due(s) + (multiset(Spawns(t.ran[|s.ran|..])) + multiset(CallSpawns(t.called[|s.called|..]))
                                + multiset(StepSpawns(t.polled[|s.polled|..])))
  {
    var u := s.(ran := t.ran);
    var v := u.(called := t.called);
    assert t.ran == s.ran + t.ran[|s.ran|..] && t.called == s.called + t.called[|s.called|..];
    assert t.polled == s.polled + t.polled[|s.polled|..];
    DueRan(s, t.ran[|s.ran|..]);
    DueCalled(u, t.called[|s.called|..]);
    DueStepped(v, t.polled[|s.polled|..]);
  }

  lemma Cancelled<T>(a: multiset<T>, b: multiset<T>, x: multiset<T>, y: multiset<T>)
    requires a + x + b == a + (b + y)
    ensures x == y
  {
    forall e: T
      ensures x[e] == y[e]
    {
      assert (a + x + b)[e] == (a + (b + y))[e];
    }
  }

  /** When the loop is done, each step of each job called in it was taken once. */
  lemma AllStepsTaken(s: State, t: State)
    requires Extends(s, t) && Balanced(s, [], t, [])
    ensures multiset(t.polled[|s.polled|..]) == multiset(Polls(t.called[|s.called|..]))
  {
    var steps, jobs := t.polled[|s.polled|..], t.called[|s.called|..];
    assert t.polled == s.polled + steps && t.called == s.called + jobs;
    FlatConcat(PollsOf, s.called, jobs);
    assert PollsLeft([]) == [];
    assert multiset(t.polled) == multiset(s.polled) + multiset(steps);
    assert multiset(Polls(t.called)) == multiset(Polls(s.called)) + multiset(Polls(jobs));
    assert multiset(PollsLeft([])) == multiset{};
    NothingLeft(multiset(t.polled), multiset(Polls(s.called)), multiset(s.polled), multiset(Polls(t.called)));
    Cancelled(multiset(s.polled), multiset(Polls(s.called)), multiset(steps), multiset(Polls(jobs)));
  }

  lemma NothingLeft<T>(a: multiset<T>, b: multiset<T>, c: multiset<T>, d: multiset<T>)
    requires a + multiset{} + b == c + multiset{} + d
    ensures a + b == c + d
  {
    assert a + multiset{} == a && c + multiset{} == c;
  }

  // ---------------------------------------------------------------------------
  // How much there is to do
  // ---------------------------------------------------------------------------

  function Load(s: State): nat {
    WeightAll(s.promises) + WeightAll(s.asyncs)
  }

  function Weight(job: Job): nat {
    match job
    case Promise(_, spawns) => 1 + WeightAll(spawns)
    case Async(_, atCall, polls) => 1 + WeightAll(atCall) + PollsWeight(polls)
  }

  function WeightAll(jobs: seq<Job>): nat {
    if jobs == [] then 0 else Weight(jobs[0]) + WeightAll(jobs[1..])
  }

  function PollsWeight(polls: seq<Step>): nat {
    if polls == [] then 0 else 1 + WeightAll(polls[0].spawns) + PollsWeight(polls[1..])
  }

  function GroupWeight(group: seq<Future>): nat {
    if group == [] then 0 else 1 + PollsWeight(group[0].polls) + GroupWeight(group[1..])
  }

  /** The rounds in which some future is ready. */
  function Busy(schedule: seq<seq<nat>>): nat {
    if schedule == [] then 0
    else (if schedule[0] == [] then 0 else 1) + Busy(schedule[1..])
  }

  lemma {:induction false} WeightConcat(a: seq<Job>, b: seq<Job>)
    ensures WeightAll(a + b) == WeightAll(a) + WeightAll(b)
  {
    if a == [] {
      assert a + b == b;
    } else {
      assert (a + b)[1..] == a[1..] + b;
      WeightConcat(a[1..], b);
    }
  }

  lemma {:induction false} GroupConcat(a: seq<Future>, b: seq<Future>)
    ensures GroupWeight(a + b) == GroupWeight(a) + GroupWeight(b)
  {
    if a == [] {
      assert a + b == b;
    } else {
      assert (a + b)[1..] == a[1..] + b;
      GroupConcat(a[1..], b);
    }
  }

  lemma {:induction false} SplitWeight(jobs: seq<Job>)
    ensures WeightAll(Promises(jobs)) + WeightAll(Asyncs(jobs)) == WeightAll(jobs)
  {
    if jobs != [] {
      SplitWeight(jobs[1..]);
      assert [] + Promises(jobs[1..]) == Promises(jobs[1..]) && [] + Asyncs(jobs[1..]) == Asyncs(jobs[1..]);
    }
  }

  lemma {:induction false} SpawnsWeight(jobs: seq<Job>)
    requires forall j :: j in jobs ==> j.Promise?
    ensures WeightAll(Spawns(jobs)) + |jobs| == WeightAll(jobs)
  {
    if jobs != [] {
      assert jobs[0] in jobs && forall j :: j in jobs[1..] ==> j in jobs;
      SpawnsWeight(jobs[1..]);
      WeightConcat(jobs[0].spawns, Spawns(jobs[1..]));
    }
  }

  lemma {:induction false} CallsWeight(jobs: seq<Job>)
    requires forall j :: j in jobs ==> j.Async?
    ensures WeightAll(CallSpawns(jobs)) + GroupWeight(Futures(jobs)) == WeightAll(jobs)
  {
    if jobs != [] {
      assert jobs[0] in jobs && forall j :: j in jobs[1..] ==> j in jobs;
      CallsWeight(jobs[1..]);
      WeightConcat(jobs[0].atCall, CallSpawns(jobs[1..]));
      GroupConcat([Future(jobs[0].id, jobs[0].polls)], Futures(jobs[1..]));
      assert [Future(jobs[0].id, jobs[0].polls)][1..] == [];
    }
  }

  /** Calling the queued asynchronous jobs only moves work around. */
  lemma CallLoad(s: State, group: seq<Future>)
    requires Fifo(s)
    ensures Load(AllCalled(s)) + GroupWeight(group + Futures(s.asyncs)) == Load(s) + GroupWeight(group)
  {
    CallsWeight(s.asyncs);
    GroupConcat(group, Futures(s.asyncs));
    EnqueuedLoad(s.(asyncs := [], called := s.called + s.asyncs), CallSpawns(s.asyncs));
  }

  lemma OneMoreStep(step: Step, steps: seq<Step>)
    ensures WeightAll(StepSpawns([step] + steps)) == WeightAll(step.spawns) + WeightAll(StepSpawns(steps))
  {
    assert ([step] + steps)[1..] == steps;
    WeightConcat(step.spawns, StepSpawns(steps));
  }

  lemma {:induction false} PollWeight(group: seq<Future>, order: seq<nat>)
    ensures GroupWeight(Poll(group, order).group) + WeightAll(StepSpawns(Poll(group, order).steps))
            + (if order == [] || group == [] then 0 else 1) <= GroupWeight(group)
    decreases order
  {
    if order != [] && group != [] {
      var k := order[0] % |group|;
      var polls := group[k].polls;
      WeightSplits(group, k);
      if |polls| <= 1 {
        GroupConcat(group[..k], group[k + 1..]);
        LastStep(polls);
      } else {
        var rest := group[k := group[k].(polls := polls[1..])];
        assert rest[..k] == group[..k] && rest[k + 1..] == group[k + 1..];
        WeightSplits(rest, k);
        PollWeight(rest, order[1..]);
        OneMoreStep(polls[0], Poll(rest, order[1..]).steps);
      }
    }
  }

  lemma WeightSplits(group: seq<Future>, k: nat)
    requires k < |group|
    ensures GroupWeight(group) == GroupWeight(group[..k]) + 1 + PollsWeight(group[k].polls) + GroupWeight(group[k + 1..])
  {
    assert group == group[..k] + group[k..] && group[k..][1..] == group[k + 1..];
    GroupConcat(group[..k], group[k..]);
  }

  lemma LastStep(polls: seq<Step>)
    requires |polls| <= 1
    ensures WeightAll(StepSpawns(polls)) <= PollsWeight(polls)
  {
    if polls != [] {
      assert polls[1..] == [] && polls[0].spawns + [] == polls[0].spawns;
    }
  }

  lemma EnqueuedLoad(s: State, jobs: seq<Job>)
    ensures Load(Enqueued(s, jobs)) == Load(s) + WeightAll(jobs)
  {
    SplitWeight(jobs);
    WeightConcat(s.promises, Promises(jobs));
    WeightConcat(s.asyncs, Asyncs(jobs));
  }

  lemma RanLoad(s: State)
    requires forall j :: j in s.promises ==> j.Promise?
    ensures Load(Drained(s)) + |s.promises| == Load(s)
  {
    SpawnsWeight(s.promises);
    EnqueuedLoad(s.(promises := [], ran := s.ran + s.promises), Spawns(s.promises));
  }

  /** A round in which a future is ready, or promise jobs are queued, does some of the work. */
  lemma RoundLoad(s: State, group: seq<Future>, order: seq<nat>)
    requires Fifo(s) && (s.promises != [] || group != [])
    ensures var polled := Poll(group, order);
            Load(Drained(Stepped(s, polled.steps))) + GroupWeight(polled.group) + (if order == [] then 0 else 1)
            <= Load(s) + GroupWeight(group)
  {
    var polled := Poll(group, order);
    PollWeight(group, order);
    EnqueuedLoad(s.(polled := s.polled + polled.steps), StepSpawns(polled.steps));
    FifoRound(s, polled.steps);
    RanLoad(Stepped(s, polled.steps));
  }

  /** The loop is done after as many busy rounds as there is work. */
  lemma {:induction false} RoundsProgress(s: State, group: seq<Future>, schedule: seq<seq<nat>>)
    requires Fifo(s)
    ensures !Rounds(s, group, schedule).done ==> Busy(schedule) <= Load(s) + GroupWeight(group)
    decreases schedule
  {
    if schedule != [] {
      CallLoad(s, group);
      FifoAllCalled(s);
      var t, more := AllCalled(s), group + Futures(s.asyncs);
      if more != [] || t.promises != [] {
        var polled := Poll(more, schedule[0]);
        RoundLoad(t, more, schedule[0]);
        FifoRound(t, polled.steps);
        RoundsProgress(Drained(Stepped(t, polled.steps)), polled.group, schedule[1..]);
      }
    }
  }

  // ---------------------------------------------------------------------------
  // Drains by batches are first in, first out
  // ---------------------------------------------------------------------------

  /** The simple executor: one promise job at a time, from one queue. */
  function OneByOne(queue: seq<Job>): seq<Job>
    requires forall j :: j in queue ==> j.Promise?
    decreases WeightAll(queue)
  {
    if queue == [] then []
    else
      assert queue[0] in queue && Weight(queue[0]) == 1 + WeightAll(queue[0].spawns);
      OnlyKind(queue[0].spawns);
      WeightConcat(queue[1..], Promises(queue[0].spawns));
      SplitWeight(queue[0].spawns);
      [queue[0]] + OneByOne(queue[1..] + Promises(queue[0].spawns))
  }

  lemma {:induction false} BatchOneByOne(queue: seq<Job>, later: seq<Job>)
    requires (forall j :: j in queue ==> j.Promise?) && (forall j :: j in later ==> j.Promise?)
    ensures forall j :: j in later + Promises(Spawns(queue)) ==> j.Promise?
    ensures OneByOne(queue + later) == queue + OneByOne(later + Promises(Spawns(queue)))
    decreases queue
  {
    OnlyKind(Spawns(queue));
    if queue == [] {
      assert queue + later == later && later + Promises(Spawns(queue)) == later;
    } else {
      var first, rest := queue[0], queue[1..];
      var more := later + Promises(first.spawns);
      FirstOfQueue(queue, later);
      OnlyKind(first.spawns);
      assert forall j :: j in rest ==> j in queue;
      BatchOneByOne(rest, more);
      FlatConcat(PromiseOf, first.spawns, Spawns(rest));
      Associative(later, Promises(first.spawns), Promises(Spawns(rest)));
    }
  }

  /** The simple executor runs the first job of a queue, and what that enqueues goes behind the rest. */
  lemma FirstOfQueue(queue: seq<Job>, later: seq<Job>)
    requires queue != [] && (forall j :: j in queue ==> j.Promise?) && (forall j :: j in later ==> j.Promise?)
    ensures queue[0].Promise? && forall j :: j in queue[1..] + (later + Promises(queue[0].spawns)) ==> j.Promise?
    ensures OneByOne(queue + later) == [queue[0]] + OneByOne(queue[1..] + (later + Promises(queue[0].spawns)))
  {
    assert queue[0] in queue;
    OnlyKind(queue[0].spawns);
    assert (queue + later)[1..] == queue[1..] + later;
    Associative(queue[1..], later, Promises(queue[0].spawns));
  }

  /** Promise jobs all the way down. */
  predicate OnlyPromises(jobs: seq<Job>) {
    jobs == [] || (jobs[0].Promise? && OnlyPromises(jobs[0].spawns) && OnlyPromises(jobs[1..]))
  }

  lemma {:induction false} OnlyPromisesSplit(jobs: seq<Job>)
    requires OnlyPromises(jobs)
    ensures Promises(jobs) == jobs && Asyncs(jobs) == [] && OnlyPromises(Spawns(jobs))
    ensures forall j :: j in jobs ==> j.Promise?
  {
    if jobs != [] {
      OnlyPromisesSplit(jobs[1..]);
      OnlyPromisesConcat(jobs[0].spawns, Spawns(jobs[1..]));
      assert jobs == [jobs[0]] + jobs[1..];
    }
  }

  lemma {:induction false} OnlyPromisesConcat(a: seq<Job>, b: seq<Job>)
    requires OnlyPromises(a) && OnlyPromises(b)
    ensures OnlyPromises(a + b)
  {
    if a == [] {
      assert a + b == b;
    } else {
      assert (a + b)[1..] == a[1..] + b;
      OnlyPromisesConcat(a[1..], b);
    }
  }

  /** The simple executor, going on from either state, ends up having run the same jobs in the same order. */
  ghost predicate SameOrder(s: State, t: State) {
    && (forall j :: j in s.promises || j in t.promises ==> j.Promise?)
    && t.ran + OneByOne(t.promises) == s.ran + OneByOne(s.promises)
  }

  /** A round of promise jobs alone runs a batch, which the simple executor runs next too. */
  lemma RoundOneByOne(s: State, order: seq<nat>)
    requires s.asyncs == [] && OnlyPromises(s.promises)
    ensures
      var t := AllCalled(s);
      var polled := Poll(Futures(s.asyncs), order);
      var u := Drained(Stepped(t, polled.steps));
      && t == s && Futures(s.asyncs) == [] && polled.group == []
      && u.asyncs == [] && OnlyPromises(u.promises)
      && SameOrder(s, u)
  {
    OnlyPromisesSplit(s.promises);
    OnlyPromisesSplit(Spawns(s.promises));
    NothingMore(s);
    BatchOneByOne(s.promises, []);
    var next := Spawns(s.promises);
    assert s.promises + [] == s.promises && [] + next == next && [] + Promises(next) == next;
    Associative(s.ran, s.promises, OneByOne(next));
  }

  /** Without asynchronous jobs the run is that of the simple executor, as far as it goes. */
  lemma {:induction false} RoundsOneByOne(s: State, schedule: seq<seq<nat>>)
    requires s.asyncs == [] && OnlyPromises(s.promises)
    ensures SameOrder(s, Rounds(s, [], schedule).state)
    decreases schedule
  {
    OnlyPromisesSplit(s.promises);
    if schedule != [] {
      RoundOneByOne(s, schedule[0]);
      if s.promises != [] {
        RoundsOneByOne(Drained(Stepped(AllCalled(s), Poll([], schedule[0]).steps)), schedule[1..]);
      }
    }
  }

  // ---------------------------------------------------------------------------
  // Whole runs
  // ---------------------------------------------------------------------------

  /**
   What a run appends to the logs is in order and accounted for; a run that is done has left
   nothing, and is done after as many busy rounds as there is work.
   */
  lemma RunsInOrder(s: State, schedule: seq<seq<nat>>)
    requires Fifo(s)
    ensures var r := RunJobs(s, schedule);
            && Fifo(r.state) && Extends(s, r.state) && Accounted(s, r.state)
            && (r.done ==> r.state.promises == [] && r.state.asyncs == [] && r.group == []
                           && r.state.ran == r.state.enqueued && r.state.called == r.state.submitted
                           && multiset(r.state.polled[|s.polled|..]) == multiset(Polls(r.state.called[|s.called|..])))
            && (!r.done ==> Busy(schedule) <= Load(s))
            && (s.asyncs == [] && OnlyPromises(s.promises) ==> SameOrder(s, r.state))
  {
    var r := RunJobs(s, schedule);
    RoundsInOrder(s, [], schedule);
    RoundsBalanced(s, [], schedule);
    RoundsProgress(s, [], schedule);
    BalancedAccounts(s, [], r.state, r.group);
    if r.done {
      AllStepsTaken(s, r.state);
    }
    if s.asyncs == [] && OnlyPromises(s.promises) {
      RoundsOneByOne(s, schedule);
    }
  }
}
