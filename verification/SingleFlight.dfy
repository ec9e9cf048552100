/**
 Concurrent network-permission checks that share one user prompt per host.

 Each call of `ensure_network_permission` is a task with a program counter; a step of the
 system is one step of one task, so every interleaving at the await points is a run. The
 store may change at any time, in any way, by the hand of others.
 */
module SingleFlight {
  import opened Permissions

  type Host = string

  /** One `Notify` object; identities are handed out in order. */
  type NotifyId = nat

  datatype Outcome = Yes | No | Error

  datatype Pc =
    | Start
    | Entering                              // waits for the cache mutex
    | Deciding                              // holds it
    | Waiting(id: NotifyId, woken: bool)    // on another task's prompt
    | Prompting(id: NotifyId)               // the user is being asked
    | Recording(id: NotifyId)               // the user agreed, the store is not written yet
    | Settling(id: NotifyId, granted: bool) // answered, waits for the mutex
    | Clearing(id: NotifyId, granted: bool) // holds it
    | Notifying(id: NotifyId, granted: bool)
    | Failing(id: NotifyId)                 // the prompt failed, waits for the mutex
    | Dropping(id: NotifyId)                // holds it
    | Releasing(id: NotifyId)
    | Finished(outcome: Outcome)

  datatype Task = Task(host: Host, pc: Pc)

  /** The contents of the mutex. */
  datatype Cache = Cache(inflight: map<Host, NotifyId>, denied: set<Host>)

  datatype System = System(
    store: seq<Permission>,
    holder: set<nat>,         // the task that holds the cache mutex, if any
    cache: Cache,
    nextId: NotifyId,
    tasks: seq<Task>,
    refusals: multiset<Host>  // hosts whose prompt the user refused, one for each refusal
  )

  function Access(host: Host): Permission {
    Network([host])
  }

  predicate Covered(store: seq<Permission>, host: Host) {
    Covers(store, Access(host))
  }

  // ---------------------------------------------------------------------------
  // The critical sections
  // ---------------------------------------------------------------------------

  datatype Entry = Allowed | Refused | Join(id: NotifyId) | Lead(id: NotifyId)

  function Decide(cache: Cache, host: Host, covered: bool, newId: NotifyId): (Entry, Cache) {
    if covered then (Allowed, cache)
    else if host in cache.denied then (Refused, cache)
    else if host in cache.inflight then (Join(cache.inflight[host]), cache)
    else (Lead(newId), cache.(inflight := cache.inflight[host := newId]))
  }

  function Settle(cache: Cache, host: Host, granted: bool): Cache {
    Cache(cache.inflight - {host}, if granted then cache.denied - {host} else cache.denied + {host})
  }

  function Abandon(cache: Cache, host: Host): Cache {
    cache.(inflight := cache.inflight - {host})
  }

  class NetworkPermissionCache {
    var inflight: map<Host, NotifyId>
    var denied: set<Host>

    constructor ()
      ensures Contents() == Cache(map[], {})
    {
      inflight, denied := map[], {};
    }

    function Contents(): Cache
      reads this
    {
      Cache(inflight, denied)
    }

    /** From the mutex being taken to its release on entry. */
    method Enter(store: PermissionStore, host: Host, newId: NotifyId) returns (entry: Entry)
      modifies this
      ensures (entry, Contents()) == Decide(old(Contents()), host, Covered(store.permissions, host), newId)
    {
      if store.HasPermission(Access(host)) {
        return Allowed;
      }
      if host in denied {
        return Refused;
      }
      if host in inflight {
        return Join(inflight[host]);
      }
      inflight := inflight[host := newId];
      entry := Lead(newId);
    }

    method Finish(host: Host, granted: bool)
      modifies this
      ensures Contents() == Settle(old(Contents()), host, granted)
    {
      inflight := inflight - {host};
      if granted {
        denied := denied - {host};
      } else {
        denied := denied + {host};
      }
    }

    method CleanUp(host: Host)
      modifies this
      ensures Contents() == Abandon(old(Contents()), host)
    {
      inflight := inflight - {host};
    }
  }

  // ---------------------------------------------------------------------------
  // The step system
  // ---------------------------------------------------------------------------

  function At(s: System, t: nat, pc: Pc): System
    requires t < |s.tasks|
  {
    s.(tasks := s.tasks[t := s.tasks[t].(pc := pc)])
  }

  /** `notify_waiters`: wakes every task that waits on `id` at this moment. */
  function Wake(tasks: seq<Task>, id: NotifyId): (woken: seq<Task>)
    ensures |woken| == |tasks|
    ensures forall i :: 0 <= i < |tasks| ==>
              woken[i] == if tasks[i].pc == Waiting(id, false) then tasks[i].(pc := Waiting(id, true)) else tasks[i]
  {
    seq(|tasks|, i requires 0 <= i < |tasks| =>
      if tasks[i].pc == Waiting(id, false) then tasks[i].(pc := Waiting(id, true)) else tasks[i])
  }

  function NotifyAll(s: System, id: NotifyId): System {
    s.(tasks := Wake(s.tasks, id))
  }

  function Answer(yes: bool): Outcome {
    if yes then Yes else No
  }

  function AfterEntry(entry: Entry): Pc {
    match entry
    case Allowed => Finished(Yes)
    case Refused => Finished(No)
    case Join(id) => Waiting(id, false)
    case Lead(id) => Prompting(id)
  }

  /** A step of task `t`; `reply` is what the user does if the step is a prompt. */
  ghost predicate TaskStep(s: System, t: nat, reply: Reply, s': System)
    requires t < |s.tasks|
  {
    var host := s.tasks[t].host;
    match s.tasks[t].pc
    case Start =>
      s' == At(s, t, if Covered(s.store, host) then Finished(Yes) else Entering)
    case Entering =>
      s.holder == {} && s' == At(s, t, Deciding).(holder := {t})
    case Deciding =>
      var (entry, cache) := Decide(s.cache, host, Covered(s.store, host), s.nextId);
      s' == At(s, t, AfterEntry(entry)).(holder := {}, cache := cache, nextId := s.nextId + 1)
    case Waiting(id, woken) =>
      woken && s' == At(s, t, Finished(Answer(Covered(s.store, host))))
    case Prompting(id) =>
      (match reply
       case Failed => s' == At(s, t, Failing(id))
       case Answered(true) => s' == At(s, t, Recording(id))
       case Answered(false) => s' == At(s, t, Settling(id, false)).(refusals := s.refusals + multiset{host}))
    case Recording(id) =>
      s' == At(s, t, Settling(id, true)).(store := Granting(s.store, Access(host)))
    case Settling(id, granted) =>
      s.holder == {} && s' == At(s, t, Clearing(id, granted)).(holder := {t})
    case Clearing(id, granted) =>
      s' == At(s, t, Notifying(id, granted)).(holder := {}, cache := Settle(s.cache, host, granted))
    case Notifying(id, granted) =>
      s' == NotifyAll(At(s, t, Finished(Answer(granted))), id)
    case Failing(id) =>
      s.holder == {} && s' == At(s, t, Dropping(id)).(holder := {t})
    case Dropping(id) =>
      s' == At(s, t, Releasing(id)).(holder := {}, cache := Abandon(s.cache, host))
    case Releasing(id) =>
      s' == NotifyAll(At(s, t, Finished(Error)), id)
    case Finished(_) => false
  }

  datatype Event = Move(task: nat, reply: Reply) | StoreChange(store: seq<Permission>)

  ghost predicate Next(s: System, e: Event, s': System) {
    match e
    case Move(t, reply) => t < |s.tasks| && TaskStep(s, t, reply, s')
    case StoreChange(store) => s' == s.(store := store)
  }

  /** Any number of calls, for any hosts, none of them started. */
  predicate Initial(s: System) {
    && s == System(s.store, {}, Cache(map[], {}), s.nextId, s.tasks, multiset{})
    && forall t :: 0 <= t < |s.tasks| ==> s.tasks[t].pc == Start
  }

  ghost predicate IsRun(states: seq<System>, events: seq<Event>) {
    && |states| == |events| + 1
    && Initial(states[0])
    && forall i :: 0 <= i < |events| ==> Next(states[i], events[i], states[i + 1])
  }

  // ---------------------------------------------------------------------------
  // What every reachable state satisfies
  // ---------------------------------------------------------------------------

  predicate Holds(pc: Pc) {
    pc.Deciding? || pc.Clearing? || pc.Dropping?
  }

  /** Between inserting a host into `inflight` and removing it. */
  predicate Leads(pc: Pc) {
    pc.Prompting? || pc.Recording? || pc.Settling? || pc.Clearing? || pc.Failing? || pc.Dropping?
  }

  /** Still owes its waiters a `notify_waiters`. */
  predicate Owes(pc: Pc) {
    Leads(pc) || pc.Notifying? || pc.Releasing?
  }

  predicate WasRefused(pc: Pc) {
    (pc.Settling? || pc.Clearing?) && !pc.granted
  }

  /** The mutex is held exactly by the task that is in a critical section. */
  ghost predicate MutexOk(s: System) {
    && (forall t :: 0 <= t < |s.tasks| ==> (Holds(s.tasks[t].pc) <==> t in s.holder))
    && (forall t :: t in s.holder ==> t < |s.tasks| && s.holder == {t})
  }

  /** `inflight` has a host exactly when one task leads for it, under that task's `Notify`. */
  ghost predicate InflightOk(s: System) {
    && (forall t :: 0 <= t < |s.tasks| && Leads(s.tasks[t].pc) ==>
          s.tasks[t].host in s.cache.inflight && s.cache.inflight[s.tasks[t].host] == s.tasks[t].pc.id)
    && (forall h :: h in s.cache.inflight ==> HasLeader(s, h))
  }

  ghost predicate HasLeader(s: System, h: Host) {
    exists t :: 0 <= t < |s.tasks| && s.tasks[t].host == h && Leads(s.tasks[t].pc)
  }

  /** A `Notify` is owed by at most one task. */
  ghost predicate IdsOk(s: System) {
    && (forall t :: 0 <= t < |s.tasks| && (Owes(s.tasks[t].pc) || s.tasks[t].pc.Waiting?) ==> s.tasks[t].pc.id < s.nextId)
    && (forall t, u :: 0 <= t < u < |s.tasks| && Owes(s.tasks[t].pc) && Owes(s.tasks[u].pc) ==>
          s.tasks[t].pc.id != s.tasks[u].pc.id)
  }

  /** Someone owes `id` for `h`. */
  ghost predicate IsOwed(s: System, h: Host, id: NotifyId) {
    exists t :: 0 <= t < |s.tasks| && s.tasks[t].host == h && Owes(s.tasks[t].pc) && s.tasks[t].pc.id == id
  }

  /** No lost wakeup: whoever sleeps will be woken by a task that is still to notify. */
  ghost predicate WaitersOk(s: System) {
    forall t :: 0 <= t < |s.tasks| && s.tasks[t].pc.Waiting? && !s.tasks[t].pc.woken ==>
      IsOwed(s, s.tasks[t].host, s.tasks[t].pc.id)
  }

  ghost predicate DenialsOk(s: System) {
    && (forall h :: h in s.cache.denied ==> h !in s.cache.inflight && s.refusals[h] == 1)
    && (forall t :: 0 <= t < |s.tasks| && WasRefused(s.tasks[t].pc) ==> s.refusals[s.tasks[t].host] == 1)
    && (forall h :: h in s.refusals ==> s.refusals[h] == 1 && (h in s.cache.denied || HasRefused(s, h)))
  }

  ghost predicate HasRefused(s: System, h: Host) {
    exists t :: 0 <= t < |s.tasks| && s.tasks[t].host == h && WasRefused(s.tasks[t].pc)
  }

  ghost predicate Inv(s: System) {
    MutexOk(s) && InflightOk(s) && IdsOk(s) && WaitersOk(s) && DenialsOk(s)
  }

  lemma InitialInv(s: System)
    requires Initial(s)
    ensures Inv(s)
  {
  }

  lemma StepKeepsMutex(s: System, t: nat, reply: Reply, s': System)
    requires MutexOk(s) && t < |s.tasks| && TaskStep(s, t, reply, s')
    ensures MutexOk(s')
  {
  }

  /** Tasks other than the one that moves at most wake up. */
  ghost predicate OthersKeep(s: System, t: nat, s': System) {
    && |s'.tasks| == |s.tasks|
    && (forall u :: 0 <= u < |s.tasks| ==> s'.tasks[u].host == s.tasks[u].host)
    && (forall u :: 0 <= u < |s.tasks| && u != t ==>
          s'.tasks[u].pc == s.tasks[u].pc || (s.tasks[u].pc.Waiting? && s'.tasks[u].pc == Waiting(s.tasks[u].pc.id, true)))
  }

  lemma StepShape(s: System, t: nat, reply: Reply, s': System)
    requires t < |s.tasks| && TaskStep(s, t, reply, s')
    ensures OthersKeep(s, t, s')
    ensures s.nextId <= s'.nextId
    ensures Owes(s'.tasks[t].pc) ==>
              (Owes(s.tasks[t].pc) && s'.tasks[t].pc.id == s.tasks[t].pc.id)
              || (s.tasks[t].pc == Deciding && s'.tasks[t].pc.id == s.nextId < s'.nextId)
    ensures s'.tasks[t].pc.Waiting? ==>
              s.tasks[t].pc == Deciding && s.tasks[t].host in s.cache.inflight
              && s'.tasks[t].pc == Waiting(s.cache.inflight[s.tasks[t].host], false)
  {
  }

  lemma LeaderId(s: System, h: Host) returns (t: nat)
    requires InflightOk(s) && h in s.cache.inflight
    ensures t < |s.tasks| && s.tasks[t].host == h && Leads(s.tasks[t].pc) && s.tasks[t].pc.id == s.cache.inflight[h]
  {
    assert HasLeader(s, h);
    t :| 0 <= t < |s.tasks| && s.tasks[t].host == h && Leads(s.tasks[t].pc);
  }

  lemma StepKeepsIds(s: System, t: nat, reply: Reply, s': System)
    requires InflightOk(s) && IdsOk(s) && t < |s.tasks| && TaskStep(s, t, reply, s')
    ensures IdsOk(s')
  {
    StepShape(s, t, reply, s');
    if s'.tasks[t].pc.Waiting? {
      var leader := LeaderId(s, s.tasks[t].host);
    }
    KeepsIds(s, t, s');
  }

  lemma KeepsIds(s: System, t: nat, s': System)
    requires IdsOk(s) && t < |s.tasks| && OthersKeep(s, t, s') && s.nextId <= s'.nextId
    requires Owes(s'.tasks[t].pc) ==>
               (Owes(s.tasks[t].pc) && s'.tasks[t].pc.id == s.tasks[t].pc.id) || s'.tasks[t].pc.id == s.nextId < s'.nextId
    requires s'.tasks[t].pc.Waiting? ==> s'.tasks[t].pc.id < s.nextId
    ensures IdsOk(s')
  {
  }

  lemma OneLeaderPerHost(s: System, t: nat, u: nat)
    requires InflightOk(s) && IdsOk(s)
    requires t < |s.tasks| && Leads(s.tasks[t].pc) && u < |s.tasks| && Leads(s.tasks[u].pc)
    requires s.tasks[t].host == s.tasks[u].host
    ensures t == u
  {
  }

  lemma StepKeepsInflight(s: System, t: nat, reply: Reply, s': System)
    requires InflightOk(s) && IdsOk(s) && t < |s.tasks| && TaskStep(s, t, reply, s')
    ensures InflightOk(s')
  {
    StepShape(s, t, reply, s');
    forall u | 0 <= u < |s'.tasks| && Leads(s'.tasks[u].pc)
      ensures s'.tasks[u].host in s'.cache.inflight && s'.cache.inflight[s'.tasks[u].host] == s'.tasks[u].pc.id
    {
      LeaderListed(s, t, reply, s', u);
    }
    forall h | h in s'.cache.inflight
      ensures HasLeader(s', h)
    {
      ListedIsLed(s, t, reply, s', h);
    }
  }

  lemma LeaderListed(s: System, t: nat, reply: Reply, s': System, u: nat)
    requires InflightOk(s) && IdsOk(s) && t < |s.tasks| && TaskStep(s, t, reply, s') && OthersKeep(s, t, s')
    requires u < |s'.tasks| && Leads(s'.tasks[u].pc)
    ensures s'.tasks[u].host in s'.cache.inflight && s'.cache.inflight[s'.tasks[u].host] == s'.tasks[u].pc.id
  {
    if u == t {
      MoverListed(s, t, reply, s');
    } else {
      assert s'.tasks[u].pc == s.tasks[u].pc;
      var host := s.tasks[t].host;
      if s.tasks[u].host == host && Leads(s.tasks[t].pc) {
        OneLeaderPerHost(s, t, u);
      }
      InflightElsewhere(s, t, reply, s', s.tasks[u].host);
    }
  }

  lemma MoverListed(s: System, t: nat, reply: Reply, s': System)
    requires InflightOk(s) && t < |s.tasks| && TaskStep(s, t, reply, s')
    requires t < |s'.tasks| && Leads(s'.tasks[t].pc)
    ensures s'.tasks[t].host in s'.cache.inflight && s'.cache.inflight[s'.tasks[t].host] == s'.tasks[t].pc.id
  {
  }

  /** A step leaves `inflight` alone but for a host it starts or stops leading for. */
  lemma InflightElsewhere(s: System, t: nat, reply: Reply, s': System, h: Host)
    requires t < |s.tasks| && TaskStep(s, t, reply, s')
    requires h in s.cache.inflight && (h == s.tasks[t].host ==> !Leads(s.tasks[t].pc))
    ensures h in s'.cache.inflight && s'.cache.inflight[h] == s.cache.inflight[h]
  {
  }

  lemma ListedIsLed(s: System, t: nat, reply: Reply, s': System, h: Host)
    requires InflightOk(s) && t < |s.tasks| && TaskStep(s, t, reply, s') && OthersKeep(s, t, s')
    requires h in s'.cache.inflight
    ensures HasLeader(s', h)
  {
    if h in s.cache.inflight {
      var u := LeaderId(s, h);
      if u != t {
        assert s'.tasks[u].pc == s.tasks[u].pc;
      }
    }
  }

  lemma StepKeepsWaiters(s: System, t: nat, reply: Reply, s': System)
    requires InflightOk(s) && WaitersOk(s) && t < |s.tasks| && TaskStep(s, t, reply, s')
    ensures WaitersOk(s')
  {
    StepShape(s, t, reply, s');
    forall u | 0 <= u < |s'.tasks| && s'.tasks[u].pc.Waiting? && !s'.tasks[u].pc.woken
      ensures IsOwed(s', s'.tasks[u].host, s'.tasks[u].pc.id)
    {
      if u == t {
        var v := LeaderId(s, s.tasks[t].host);
        assert s'.tasks[v].pc == s.tasks[v].pc;
      } else {
        assert s'.tasks[u].pc == s.tasks[u].pc;
        var id := s.tasks[u].pc.id;
        assert IsOwed(s, s.tasks[u].host, id);
        var v :| 0 <= v < |s.tasks| && s.tasks[v].host == s.tasks[u].host && Owes(s.tasks[v].pc) && s.tasks[v].pc.id == id;
        if v == t {
          StillOwes(s, t, reply, s', u);
        } else {
          assert s'.tasks[v].pc == s.tasks[v].pc;
        }
      }
    }
  }

  /** A task that stops owing has just woken everyone who waited on it. */
  lemma StillOwes(s: System, t: nat, reply: Reply, s': System, u: nat)
    requires t < |s.tasks| && TaskStep(s, t, reply, s') && Owes(s.tasks[t].pc)
    requires u < |s.tasks| && u != t && s.tasks[u].pc == Waiting(s.tasks[t].pc.id, false)
    requires u < |s'.tasks| && s'.tasks[u].pc == s.tasks[u].pc
    ensures Owes(s'.tasks[t].pc) && s'.tasks[t].pc.id == s.tasks[t].pc.id
  {
  }

  lemma StepKeepsDenials(s: System, t: nat, reply: Reply, s': System)
    requires InflightOk(s) && IdsOk(s) && DenialsOk(s) && t < |s.tasks| && TaskStep(s, t, reply, s')
    ensures DenialsOk(s')
  {
    StepShape(s, t, reply, s');
    forall u | 0 <= u < |s'.tasks| && WasRefused(s'.tasks[u].pc)
      ensures s'.refusals[s'.tasks[u].host] == 1
    {
      RefusedOnce(s, t, reply, s', u);
    }
    forall h | h in s'.refusals
      ensures s'.refusals[h] == 1 && (h in s'.cache.denied || HasRefused(s', h))
    {
      RefusalRemembered(s, t, reply, s', h);
    }
    forall h | h in s'.cache.denied
      ensures h !in s'.cache.inflight && s'.refusals[h] == 1
    {
    }
  }

  /** A refusal is counted as its prompt is answered, and nowhere else. */
  lemma RefusalShape(s: System, t: nat, reply: Reply, s': System)
    requires t < |s.tasks| && TaskStep(s, t, reply, s')
    ensures |s'.tasks| == |s.tasks|
    ensures s'.refusals == s.refusals
            || (s.tasks[t].pc.Prompting? && s'.refusals == s.refusals + multiset{s.tasks[t].host})
    ensures WasRefused(s'.tasks[t].pc) ==> WasRefused(s.tasks[t].pc) || s'.refusals != s.refusals
  {
  }

  lemma RefusedOnce(s: System, t: nat, reply: Reply, s': System, u: nat)
    requires InflightOk(s) && IdsOk(s) && DenialsOk(s) && t < |s.tasks| && TaskStep(s, t, reply, s') && OthersKeep(s, t, s')
    requires u < |s'.tasks| && WasRefused(s'.tasks[u].pc)
    ensures s'.refusals[s'.tasks[u].host] == 1
  {
    RefusalShape(s, t, reply, s');
    RefusedOnceGiven(s, t, s', u);
  }

  lemma RefusedOnceGiven(s: System, t: nat, s': System, u: nat)
    requires InflightOk(s) && IdsOk(s) && DenialsOk(s) && t < |s.tasks| && OthersKeep(s, t, s')
    requires s'.refusals == s.refusals
             || (s.tasks[t].pc.Prompting? && s'.refusals == s.refusals + multiset{s.tasks[t].host})
    requires u < |s'.tasks| && WasRefused(s'.tasks[u].pc)
    requires u == t ==> WasRefused(s.tasks[t].pc) || s'.refusals != s.refusals
    ensures s'.refusals[s'.tasks[u].host] == 1
  {
    if u != t {
      assert s'.tasks[u].pc == s.tasks[u].pc;
      if s.tasks[u].host == s.tasks[t].host && Leads(s.tasks[t].pc) {
        OneLeaderPerHost(s, t, u);
      }
    }
  }

  lemma RefusalRemembered(s: System, t: nat, reply: Reply, s': System, h: Host)
    requires InflightOk(s) && IdsOk(s) && DenialsOk(s) && t < |s.tasks| && TaskStep(s, t, reply, s') && h in s'.refusals
    requires OthersKeep(s, t, s')
    ensures s'.refusals[h] == 1 && (h in s'.cache.denied || HasRefused(s', h))
  {
    if WasRefused(s'.tasks[t].pc) && s.tasks[t].host == h {
      RefusedOnce(s, t, reply, s', t);
    } else {
      RefusalStays(s, t, s', h);
    }
  }

  lemma RefusalStays(s: System, t: nat, s': System, h: Host)
    requires DenialsOk(s) && t < |s.tasks| && OthersKeep(s, t, s') && h in s.refusals && s'.refusals[h] == s.refusals[h]
    requires h in s.cache.denied ==> h in s'.cache.denied
    requires WasRefused(s.tasks[t].pc) ==> WasRefused(s'.tasks[t].pc) || s.tasks[t].host in s'.cache.denied
    ensures s'.refusals[h] == 1 && (h in s'.cache.denied || HasRefused(s', h))
  {
    assert h in s.refusals;
    if h !in s.cache.denied {
      assert HasRefused(s, h);
      var u :| 0 <= u < |s.tasks| && s.tasks[u].host == h && WasRefused(s.tasks[u].pc);
      if u != t {
        assert s'.tasks[u].pc == s.tasks[u].pc;
      }
    }
  }

  lemma {:induction false} InvHolds(states: seq<System>, events: seq<Event>, n: nat)
    requires IsRun(states, events) && n <= |events|
    ensures Inv(states[n])
  {
    if n == 0 {
      InitialInv(states[0]);
    } else {
      InvHolds(states, events, n - 1);
      var s, s' := states[n - 1], states[n];
      assert Next(s, events[n - 1], s');
      match events[n - 1]
      case Move(t, reply) =>
        StepKeepsMutex(s, t, reply, s');
        StepKeepsIds(s, t, reply, s');
        StepKeepsInflight(s, t, reply, s');
        StepKeepsWaiters(s, t, reply, s');
        StepKeepsDenials(s, t, reply, s');
      case StoreChange(store) =>
        StoreIsNotLooked(s, store);
    }
  }

  lemma StoreIsNotLooked(s: System, store: seq<Permission>)
    requires Inv(s)
    ensures Inv(s.(store := store))
  {
    var s' := s.(store := store);
    assert InflightOk(s') by {
      assert forall h :: HasLeader(s, h) ==> HasLeader(s', h);
    }
    assert WaitersOk(s') by {
      assert forall h, id :: IsOwed(s, h, id) ==> IsOwed(s', h, id);
    }
    assert DenialsOk(s') by {
      assert forall h :: HasRefused(s, h) ==> HasRefused(s', h);
    }
  }

  // ---------------------------------------------------------------------------
  // Single flight
  // ---------------------------------------------------------------------------

  predicate LeadsFor(s: System, t: nat, h: Host) {
    t < |s.tasks| && s.tasks[t].host == h && Leads(s.tasks[t].pc)
  }

  /**
   In every reachable state: a host is in `inflight` exactly when one task, and only one,
   leads for it; so no host is being asked about twice; and no task that is asking or
   waiting holds the mutex.
   */
  lemma SingleFlightPerHost(states: seq<System>, events: seq<Event>, n: nat, h: Host)
    requires IsRun(states, events) && n <= |events|
    ensures h in states[n].cache.inflight <==> HasLeader(states[n], h)
    ensures forall t, u :: LeadsFor(states[n], t, h) && LeadsFor(states[n], u, h) ==> t == u
    ensures forall t :: t in states[n].holder ==> t < |states[n].tasks| && Holds(states[n].tasks[t].pc)
    ensures |states[n].holder| <= 1
  {
    InvHolds(states, events, n);
    var s := states[n];
    if s.holder != {} {
      var t :| t in s.holder;
      assert s.holder == {t};
    }
  }

  /**
   No lost wakeup: in every reachable state, a task that sleeps does so on a `Notify` that
   some task for the same host has yet to fire.
   */
  lemma NoLostWakeup(states: seq<System>, events: seq<Event>, n: nat, t: nat)
    requires IsRun(states, events) && n <= |events|
    requires t < |states[n].tasks| && states[n].tasks[t].pc.Waiting? && !states[n].tasks[t].pc.woken
    ensures IsOwed(states[n], states[n].tasks[t].host, states[n].tasks[t].pc.id)
  {
    InvHolds(states, events, n);
  }

  /**
   Each host is refused at most once in a session, and while a host is denied no prompt for
   it is open; so the removal from `denied` when a prompt is granted never removes anything.
   */
  lemma DeniedOnce(states: seq<System>, events: seq<Event>, n: nat, h: Host)
    requires IsRun(states, events) && n <= |events|
    ensures states[n].refusals[h] <= 1
    ensures !(h in states[n].cache.denied && h in states[n].cache.inflight)
    ensures forall t, id :: 0 <= t < |states[n].tasks| && states[n].tasks[t] == Task(h, Clearing(id, true)) ==>
              Settle(states[n].cache, h, true).denied == states[n].cache.denied
  {
    InvHolds(states, events, n);
  }

  /** A denial, once settled, stays for the session. */
  lemma {:induction false} DenialIsPermanent(states: seq<System>, events: seq<Event>, m: nat, n: nat, h: Host)
    requires IsRun(states, events) && m <= n <= |events|
    requires h in states[m].cache.denied
    ensures h in states[n].cache.denied
  {
    if m < n {
      DenialIsPermanent(states, events, m, n - 1, h);
      DeniedOnce(states, events, n - 1, h);
      if LeaderMoves(states[n - 1], events[n - 1], h) {
        LeaderIsListed(states, events, n - 1, events[n - 1], h);
      }
    }
  }

  predicate LeaderMoves(s: System, e: Event, h: Host) {
    e.Move? && LeadsFor(s, e.task, h)
  }

  lemma LeaderIsListed(states: seq<System>, events: seq<Event>, n: nat, e: Event, h: Host)
    requires IsRun(states, events) && n <= |events| && LeaderMoves(states[n], e, h)
    ensures h in states[n].cache.inflight
  {
    SingleFlightPerHost(states, events, n, h);
    assert HasLeader(states[n], h);
  }

  /** A stored grant wins over a denial memo: a covered host is allowed by any decision. */
  lemma GrantWinsOverDenial(s: System, t: nat, reply: Reply, s': System)
    requires t < |s.tasks| && TaskStep(s, t, reply, s')
    requires s.tasks[t].pc == Start || s.tasks[t].pc == Deciding
    ensures Covered(s.store, s.tasks[t].host) <==> s'.tasks[t].pc == Finished(Yes)
  {
  }

  predicate Decides(s: System, e: Event, h: Host) {
    e.Move? && e.task < |s.tasks| && s.tasks[e.task] == Task(h, Deciding)
  }

  predicate Askable(s: System, h: Host) {
    h !in s.cache.inflight && h !in s.cache.denied
  }

  /** A host stays askable until someone decides about it. */
  lemma {:induction false} StaysAskable(states: seq<System>, events: seq<Event>, k: nat, m: nat, h: Host)
    requires IsRun(states, events) && k <= m <= |events|
    requires Askable(states[k], h)
    requires forall i :: k <= i < m ==> !Decides(states[i], events[i], h)
    ensures Askable(states[m], h)
  {
    if k < m {
      StaysAskable(states, events, k, m - 1, h);
      AskableAfter(states, events, m - 1, h);
    }
  }

  lemma AskableAfter(states: seq<System>, events: seq<Event>, n: nat, h: Host)
    requires IsRun(states, events) && n < |events|
    requires Askable(states[n], h) && !Decides(states[n], events[n], h)
    ensures Askable(states[n + 1], h)
  {
    if LeaderMoves(states[n], events[n], h) {
      LeaderIsListed(states, events, n, events[n], h);
    }
  }

  /** A failed prompt leaves the host promptable: the next decision about it, if it is not covered, asks. */
  lemma FailureLeavesHostAskable(states: seq<System>, events: seq<Event>, n: nat, t: nat, m: nat)
    requires IsRun(states, events) && n < m < |events|
    requires events[n].Move? && events[n].task == t && t < |states[n].tasks| && states[n].tasks[t].pc.Dropping?
    requires forall i :: n < i < m ==> !Decides(states[i], events[i], states[n].tasks[t].host)
    requires Decides(states[m], events[m], states[n].tasks[t].host)
    requires !Covered(states[m].store, states[n].tasks[t].host)
    ensures states[m + 1].tasks[events[m].task].pc.Prompting?
  {
    var h := states[n].tasks[t].host;
    InvHolds(states, events, n);
    StaysAskable(states, events, n + 1, m, h);
  }

  // ---------------------------------------------------------------------------
  // Answers
  // ---------------------------------------------------------------------------

  predicate Positive(pc: Pc) {
    ((pc.Settling? || pc.Clearing? || pc.Notifying?) && pc.granted) || pc == Finished(Yes)
  }

  lemma GrantCovers(store: seq<Permission>, host: Host)
    ensures Covered(Granting(store, Access(host)), host)
  {
    AllowsReflexively(Access(host));
    GrantingSpec(store, Access(host), Access(host));
  }

  /** `Ok(true)` is only ever returned after the store covered the host at some moment. */
  lemma {:induction false} YesOnlyIfCovered(states: seq<System>, events: seq<Event>, n: nat, t: nat)
    requires IsRun(states, events) && n <= |events|
    requires t < |states[n].tasks| && Positive(states[n].tasks[t].pc)
    ensures exists i :: 0 <= i <= n && Covered(states[i].store, states[n].tasks[t].host)
  {
    if n > 0 {
      assert Next(states[n - 1], events[n - 1], states[n]);
      var s, s' := states[n - 1], states[n];
      if events[n - 1].Move? {
        StepShape(s, events[n - 1].task, events[n - 1].reply, s');
      }
      if Positive(s.tasks[t].pc) {
        YesOnlyIfCovered(states, events, n - 1, t);
      } else if s.tasks[t].pc.Recording? {
        GrantCovers(s.store, s.tasks[t].host);
        assert Covered(states[n].store, states[n].tasks[t].host);
      } else {
        assert Covered(states[n - 1].store, states[n].tasks[t].host);
      }
    }
  }

  /** Past its decision, and not allowed by it. */
  predicate NotAllowed(pc: Pc) {
    Owes(pc) || pc.Waiting? || pc == Finished(No) || pc == Finished(Error)
  }

  /** In step `n` of the run task `t` decides, or looks at the store again after waiting. */
  ghost predicate LooksAtStore(states: seq<System>, events: seq<Event>, n: nat, t: nat) {
    && n < |events| && n < |states| && events[n].Move? && events[n].task == t && t < |states[n].tasks|
    && (states[n].tasks[t].pc.Deciding? || states[n].tasks[t].pc.Waiting?)
  }

  /** Before state `n`, task `t` looked at the store when it did not cover its host. */
  ghost predicate SawUncovered(states: seq<System>, events: seq<Event>, n: nat, t: nat, h: Host) {
    exists i :: 0 <= i < n && LooksAtStore(states, events, i, t) && !Covered(states[i].store, h)
  }

  /**
   A stored grant wins over everything: a call that returns no, or fails, looked at the store
   at a moment during the call when it did not cover the host, whatever was denied.
   */
  lemma {:induction false} NoOnlyIfUncovered(states: seq<System>, events: seq<Event>, n: nat, t: nat)
    requires IsRun(states, events) && n <= |events|
    requires t < |states[n].tasks| && NotAllowed(states[n].tasks[t].pc)
    ensures SawUncovered(states, events, n, t, states[n].tasks[t].host)
  {
    if n > 0 {
      NotAllowedBefore(states, events, n, t);
      if NotAllowed(states[n - 1].tasks[t].pc) {
        NoOnlyIfUncovered(states, events, n - 1, t);
      }
    }
  }

  lemma NotAllowedBefore(states: seq<System>, events: seq<Event>, n: nat, t: nat)
    requires IsRun(states, events) && 0 < n <= |events|
    requires t < |states[n].tasks| && NotAllowed(states[n].tasks[t].pc)
    ensures t < |states[n - 1].tasks| && states[n].tasks[t].host == states[n - 1].tasks[t].host
    ensures NotAllowed(states[n - 1].tasks[t].pc) || SawUncovered(states, events, n, t, states[n].tasks[t].host)
  {
    var s, s' := states[n - 1], states[n];
    if events[n - 1].Move? {
      StepShape(s, events[n - 1].task, events[n - 1].reply, s');
    }
    if !NotAllowed(s.tasks[t].pc) {
      assert LooksAtStore(states, events, n - 1, t);
    }
  }

  /** On the way from an answered prompt to the end of the call that asked. */
  predicate Committed(pc: Pc, reply: Reply) {
    match reply
    case Answered(granted) =>
      || (granted && (pc.Recording? || pc == Finished(Yes)))
      || (!granted && pc == Finished(No))
      || ((pc.Settling? || pc.Clearing? || pc.Notifying?) && pc.granted == granted)
    case Failed => pc.Failing? || pc.Dropping? || pc.Releasing? || pc == Finished(Error)
  }

  lemma CommittedMove(s: System, t: nat, said: Reply, s': System, reply: Reply)
    requires t < |s.tasks| && TaskStep(s, t, said, s')
    requires Committed(s.tasks[t].pc, reply) || (s.tasks[t].pc.Prompting? && said == reply)
    ensures t < |s'.tasks| && Committed(s'.tasks[t].pc, reply)
  {
  }

  lemma CommittedStep(s: System, t: nat, e: Event, s': System, reply: Reply)
    requires t < |s.tasks| && Next(s, e, s')
    requires Committed(s.tasks[t].pc, reply) || (s.tasks[t].pc.Prompting? && e == Move(t, reply))
    ensures t < |s'.tasks| && Committed(s'.tasks[t].pc, reply)
  {
    if e.Move? && e.task == t {
      CommittedMove(s, t, e.reply, s', reply);
    } else if e.Move? {
      StepShape(s, e.task, e.reply, s');
    }
  }

  lemma {:induction false} StaysCommitted(states: seq<System>, events: seq<Event>, m: nat, n: nat, t: nat, reply: Reply)
    requires IsRun(states, events) && m < n <= |events|
    requires t < |states[m].tasks| && states[m].tasks[t].pc.Prompting? && events[m] == Move(t, reply)
    ensures t < |states[n].tasks| && Committed(states[n].tasks[t].pc, reply)
  {
    assert Next(states[n - 1], events[n - 1], states[n]);
    if n > m + 1 {
      StaysCommitted(states, events, m, n - 1, t, reply);
    }
    CommittedStep(states[n - 1], t, events[n - 1], states[n], reply);
  }

  /** The call that asked answers what the user did: yes if granted, no if refused, an error if nothing came back. */
  lemma PromptDecidesAnswer(states: seq<System>, events: seq<Event>, m: nat, n: nat, t: nat, reply: Reply)
    requires IsRun(states, events) && m < n <= |events|
    requires t < |states[m].tasks| && states[m].tasks[t].pc.Prompting? && events[m] == Move(t, reply)
    requires t < |states[n].tasks| && states[n].tasks[t].pc.Finished?
    ensures states[n].tasks[t].pc.outcome ==
            match reply
            case Failed => Error
            case Answered(granted) => if granted then Yes else No
  {
    StaysCommitted(states, events, m, n, t, reply);
  }

  /** Under the mutex: a covered host is allowed, a denied one refused, an open prompt joined, and else the user asked. */
  lemma DecisionExactly(states: seq<System>, events: seq<Event>, n: nat, t: nat, reply: Reply)
    requires IsRun(states, events) && n < |events| && events[n] == Move(t, reply)
    requires t < |states[n].tasks| && states[n].tasks[t].pc == Deciding
    ensures t < |states[n + 1].tasks|
    ensures
      var s, host, pc := states[n], states[n].tasks[t].host, states[n + 1].tasks[t].pc;
      && (Covered(s.store, host) ==> pc == Finished(Yes))
      && (!Covered(s.store, host) && host in s.cache.denied ==> pc == Finished(No))
      && (!Covered(s.store, host) && host !in s.cache.denied && host in s.cache.inflight ==>
            pc == Waiting(s.cache.inflight[host], false))
      && (!Covered(s.store, host) && host !in s.cache.denied && host !in s.cache.inflight ==> pc.Prompting?)
  {
    assert Next(states[n], events[n], states[n + 1]);
  }

  /** A call first looks at the store, and a waiter looks again when it is woken: what is there is its answer. */
  lemma LooksExactly(states: seq<System>, events: seq<Event>, n: nat, t: nat, reply: Reply)
    requires IsRun(states, events) && n < |events| && events[n] == Move(t, reply)
    requires t < |states[n].tasks| && (states[n].tasks[t].pc == Start || states[n].tasks[t].pc.Waiting?)
    ensures t < |states[n + 1].tasks|
    ensures
      var s, pc := states[n], states[n].tasks[t].pc;
      states[n + 1].tasks[t].pc ==
        if Covered(s.store, s.tasks[t].host) then Finished(Yes) else if pc == Start then Entering else Finished(No)
    ensures states[n].tasks[t].pc.Waiting? ==> states[n].tasks[t].pc.woken
  {
    assert Next(states[n], events[n], states[n + 1]);
  }

  lemma CoveredExactly(store: seq<Permission>, h: Host)
    ensures Covered(store, h) <==> ArbitraryNetwork in store || exists domains :: Network(domains) in store && h in domains
  {
    if exists domains :: Network(domains) in store && h in domains {
      var domains :| Network(domains) in store && h in domains;
      assert Network(domains).Allows(Access(h));
    }
    if ArbitraryNetwork in store {
      assert ArbitraryNetwork.Allows(Access(h));
    }
    if Covered(store, h) {
      var p :| p in store && p.Allows(Access(h));
      assert p == ArbitraryNetwork || (p.Network? && h in p.domains) by {
        assert h in [h];
      }
    }
  }

  /** A grant for one host is for that host and no other. */
  lemma GrantIsForHost(store: seq<Permission>, h: Host, other: Host)
    ensures Covered(Granting(store, Access(h)), other) <==> Covered(store, other) || other == h
  {
    GrantingSpec(store, Access(h), Access(other));
    assert other in [other] && h in [h];
  }

  /** Nobody takes away the coverage of `h` during the run. */
  ghost predicate NeverRevoked(states: seq<System>, events: seq<Event>, h: Host)
    requires |states| == |events| + 1
  {
    forall i :: 0 <= i < |events| && events[i].StoreChange? && Covered(states[i].store, h) ==> Covered(states[i + 1].store, h)
  }

  lemma {:induction false} CoverageStays(states: seq<System>, events: seq<Event>, m: nat, n: nat, h: Host)
    requires IsRun(states, events) && m <= n <= |events| && NeverRevoked(states, events, h)
    requires Covered(states[m].store, h)
    ensures Covered(states[n].store, h)
  {
    if m < n {
      CoverageStays(states, events, m, n - 1, h);
      assert Next(states[n - 1], events[n - 1], states[n]);
      if events[n - 1].Move? {
        GrantingSpec(states[n - 1].store, Access(states[n - 1].tasks[events[n - 1].task].host), Access(h));
      }
    }
  }

  /** Everyone who waited on a prompt that was granted is told yes, unless the grant is revoked. */
  lemma WaitersShareTheGrant(states: seq<System>, events: seq<Event>, m: nat, t: nat, n: nat, u: nat)
    requires IsRun(states, events) && m <= n < |events|
    requires t < |states[m].tasks| && Positive(states[m].tasks[t].pc)
    requires NeverRevoked(states, events, states[m].tasks[t].host)
    requires events[n].Move? && events[n].task == u && u < |states[n].tasks|
    requires states[n].tasks[u].host == states[m].tasks[t].host && states[n].tasks[u].pc.Waiting?
    ensures states[n + 1].tasks[u].pc == Finished(Yes)
  {
    var h := states[m].tasks[t].host;
    YesOnlyIfCovered(states, events, m, t);
    var i :| 0 <= i <= m && Covered(states[i].store, h);
    CoverageStays(states, events, i, n, h);
    assert Next(states[n], events[n], states[n + 1]);
  }

  // ---------------------------------------------------------------------------
  // Progress
  // ---------------------------------------------------------------------------

  function Rank(pc: Pc): nat {
    match pc
    case Start => 9
    case Entering => 8
    case Deciding => 7
    case Prompting(_) => 6
    case Recording(_) => 5
    case Settling(_, _) => 4
    case Clearing(_, _) => 3
    case Failing(_) => 4
    case Dropping(_) => 3
    case Waiting(_, woken) => if woken then 1 else 2
    case Notifying(_, _) => 1
    case Releasing(_) => 1
    case Finished(_) => 0
  }

  function Work(tasks: seq<Task>): nat {
    if tasks == [] then 0 else Rank(tasks[0].pc) + Work(tasks[1..])
  }

  lemma {:induction false} LessWork(a: seq<Task>, b: seq<Task>, t: nat)
    requires |a| == |b| && t < |a|
    requires Rank(b[t].pc) < Rank(a[t].pc)
    requires forall u :: 0 <= u < |a| ==> Rank(b[u].pc) <= Rank(a[u].pc)
    ensures Work(b) < Work(a)
  {
    if t == 0 {
      NoMoreWork(a[1..], b[1..]);
    } else {
      LessWork(a[1..], b[1..], t - 1);
    }
  }

  lemma {:induction false} NoMoreWork(a: seq<Task>, b: seq<Task>)
    requires |a| == |b|
    requires forall u :: 0 <= u < |a| ==> Rank(b[u].pc) <= Rank(a[u].pc)
    ensures Work(b) <= Work(a)
  {
    if a != [] {
      NoMoreWork(a[1..], b[1..]);
    }
  }

  lemma StepDoesWork(s: System, t: nat, reply: Reply, s': System)
    requires t < |s.tasks| && TaskStep(s, t, reply, s')
    ensures Work(s'.tasks) < Work(s.tasks)
  {
    StepShape(s, t, reply, s');
    LessWork(s.tasks, s'.tasks, t);
  }

  function Moves(events: seq<Event>): nat {
    if events == [] then 0
    else Moves(events[..|events| - 1]) + (if events[|events| - 1].Move? then 1 else 0)
  }

  lemma {:induction false} WorkOf(tasks: seq<Task>)
    requires forall t :: 0 <= t < |tasks| ==> tasks[t].pc == Start
    ensures Work(tasks) == 9 * |tasks|
  {
    if tasks != [] {
      WorkOf(tasks[1..]);
    }
  }

  /** However the calls interleave, they take at most nine steps each altogether. */
  lemma {:induction false} RunsAreBounded(states: seq<System>, events: seq<Event>, n: nat)
    requires IsRun(states, events) && n <= |events|
    ensures Moves(events[..n]) + Work(states[n].tasks) <= 9 * |states[0].tasks|
  {
    if n == 0 {
      WorkOf(states[0].tasks);
    } else {
      RunsAreBounded(states, events, n - 1);
      assert Next(states[n - 1], events[n - 1], states[n]);
      assert events[..n][..n - 1] == events[..n - 1];
      if events[n - 1].Move? {
        StepDoesWork(states[n - 1], events[n - 1].task, events[n - 1].reply, states[n]);
      }
    }
  }

  ghost predicate CanStep(s: System, t: nat, reply: Reply) {
    t < |s.tasks| && exists s' :: TaskStep(s, t, reply, s')
  }

  /** What has to be the case for a task to move; a prompt is left to the user. */
  predicate Enabled(s: System, t: nat)
    requires t < |s.tasks|
  {
    match s.tasks[t].pc
    case Entering => s.holder == {}
    case Settling(_, _) => s.holder == {}
    case Failing(_) => s.holder == {}
    case Waiting(_, woken) => woken
    case Finished(_) => false
    case _ => true
  }

  lemma EnabledSteps(s: System, t: nat, reply: Reply)
    requires t < |s.tasks|
    ensures Enabled(s, t) <==> CanStep(s, t, reply)
  {
    var host := s.tasks[t].host;
    if Enabled(s, t) {
      var s' := match s.tasks[t].pc
        case Start => At(s, t, if Covered(s.store, host) then Finished(Yes) else Entering)
        case Entering => At(s, t, Deciding).(holder := {t})
        case Deciding =>
          var (entry, cache) := Decide(s.cache, host, Covered(s.store, host), s.nextId);
          At(s, t, AfterEntry(entry)).(holder := {}, cache := cache, nextId := s.nextId + 1)
        case Waiting(id, woken) => At(s, t, Finished(Answer(Covered(s.store, host))))
        case Prompting(id) =>
          (match reply
           case Failed => At(s, t, Failing(id))
           case Answered(true) => At(s, t, Recording(id))
           case Answered(false) => At(s, t, Settling(id, false)).(refusals := s.refusals + multiset{host}))
        case Recording(id) => At(s, t, Settling(id, true)).(store := Granting(s.store, Access(host)))
        case Settling(id, granted) => At(s, t, Clearing(id, granted)).(holder := {t})
        case Clearing(id, granted) => At(s, t, Notifying(id, granted)).(holder := {}, cache := Settle(s.cache, host, granted))
        case Notifying(id, granted) => NotifyAll(At(s, t, Finished(Answer(granted))), id)
        case Failing(id) => At(s, t, Dropping(id)).(holder := {t})
        case Dropping(id) => At(s, t, Releasing(id)).(holder := {}, cache := Abandon(s.cache, host))
        case Releasing(id) => NotifyAll(At(s, t, Finished(Error)), id)
        case Finished(_) => s;
      assert TaskStep(s, t, reply, s');
    }
  }

  /** No deadlock: unless every call has returned, some task can move. */
  lemma SomeoneCanMove(states: seq<System>, events: seq<Event>, n: nat, t: nat)
    requires IsRun(states, events) && n <= |events|
    requires t < |states[n].tasks| && !states[n].tasks[t].pc.Finished?
    ensures exists u :: 0 <= u < |states[n].tasks| && Enabled(states[n], u)
  {
    InvHolds(states, events, n);
    var s := states[n];
    if s.holder != {} {
      var u :| u in s.holder;
      assert Holds(s.tasks[u].pc) && Enabled(s, u);
    } else if s.tasks[t].pc.Waiting? && !s.tasks[t].pc.woken {
      assert IsOwed(s, s.tasks[t].host, s.tasks[t].pc.id);
      var u :| 0 <= u < |s.tasks| && s.tasks[u].host == s.tasks[t].host && Owes(s.tasks[u].pc) && s.tasks[u].pc.id == s.tasks[t].pc.id;
      assert Enabled(s, u);
    } else {
      assert Enabled(s, t);
    }
  }
}
