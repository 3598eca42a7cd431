/** A run of the allocator protocol in which ReleaseSemaphore fails and a thread is left asleep
    beside a free sample: one sample, three threads, and as many AM_GBF_NOWAIT calls as the
    semaphore has units. The waiter count never passes the semaphore's maximum in it. */
module StrandedSleeper {
  import opened Allocator
  import opened AllocatorProtocol

  const ONE_SAMPLE := Properties(1, 1, 1, 0)

  function Threads(pc0: PC<int>, pc1: PC<int>, pc2: PC<int>): map<nat, PC<int>> {
    map[0 := pc0, 1 := pc1, 2 := pc2]
  }

  /** Committed, with its one sample on the list (count 0), or held by a client (count 1). */
  function Committed(free: seq<int>, count: nat, waiting: int, semaphore: int, timeouts: nat, pcs: map<nat, PC<int>>)
    : System<int>
  {
    System(State(Memory, true, false, false, ONE_SAMPLE, ONE_SAMPLE, 1, waiting, semaphore, free),
           pcs, map[0 := count], 1, timeouts)
  }

  const ALL_IDLE := Threads(Idle, Idle, Idle)

  function Held(waiting: int, semaphore: int, timeouts: nat): System<int> {
    Committed([], 1, waiting, semaphore, timeouts, ALL_IDLE)
  }

  function Untouched(): System<int> { System(Initial(Memory), ALL_IDLE, map[], 0, 0) }

  /** SetProperties for one sample, then Commit. */
  lemma CommittedReachable()
    ensures Reachable(Committed([0], 0, 0, 0, 0, ALL_IDLE))
  {
    hide Reachable;
    var s0 := Untouched();
    StartReachable(s0);
    ReachableStep(s0, 0, SetPropertiesSection(ONE_SAMPLE, true));
    var s1 := Next(s0, 0, SetPropertiesSection(ONE_SAMPLE, true));
    assert s1.a == Initial<int>(Memory).(agreed := ONE_SAMPLE, changed := true);
    var env := Environment(true, [0], true, true);
    ReachableStep(s1, 0, CommitSection(env));
    assert Next(s1, 0, CommitSection(env)) == Committed([0], 0, 0, 0, 0, ALL_IDLE);
  }

  /** Thread t, when it may ask for a sample, gets the one there is and hands it to its client. */
  lemma Taken(t: nat, semaphore: int, timeouts: nat, pcs: map<nat, PC<int>>)
    requires t in pcs && pcs[t] == Entering(false)
    requires Reachable(Committed([0], 0, 0, semaphore, timeouts, pcs))
    ensures Reachable(Committed([], 1, 0, semaphore, timeouts, pcs[t := Idle]))
  {
    hide Reachable;
    var s := Committed([0], 0, 0, semaphore, timeouts, pcs);
    ReachableStep(s, t, GetSection);
    var s1 := Next(s, t, GetSection);
    assert s1 == Committed([], 0, 0, semaphore, timeouts, pcs[t := Popped(0)]);
    ReachableStep(s1, t, Deliver);
    assert Next(s1, t, Deliver) == Committed([], 1, 0, semaphore, timeouts, pcs[t := Idle]);
  }

  /** The held sample comes back; the waiters' units are added if they fit. */
  lemma GivenBack(t: nat, waiting: int, semaphore: int, timeouts: nat, pcs: map<nat, PC<int>>)
    requires t in pcs && pcs[t].Idle?
    requires Reachable(Committed([], 1, waiting, semaphore, timeouts, pcs))
    ensures var n := if waiting + semaphore <= SEMAPHORE_MAX then waiting + semaphore else semaphore;
            Reachable(Committed([0], 0, 0, n, timeouts, pcs))
  {
    hide Reachable;
    var s := Committed([], 1, waiting, semaphore, timeouts, pcs);
    ReachableStep(s, t, DropRef(0));
    var s1 := Next(s, t, DropRef(0));
    assert s1 == Committed([], 0, waiting, semaphore, timeouts, pcs[t := Returning(0)]);
    ReachableStep(s1, t, ReturnSection);
    var n := if waiting + semaphore <= SEMAPHORE_MAX then waiting + semaphore else semaphore;
    assert Next(s1, t, ReturnSection).pcs == pcs;
    assert Next(s1, t, ReturnSection) == Committed([0], 0, 0, n, timeouts, pcs);
  }

  /** n calls with AM_GBF_NOWAIT on the empty list. */
  lemma {:induction false} TimedOut(n: nat, waiting: int, semaphore: int, timeouts: nat)
    requires Reachable(Held(waiting, semaphore, timeouts))
    ensures Reachable(Held(waiting + n, semaphore, timeouts + n))
    decreases n
  {
    hide Reachable;
    if n > 0 {
      var s := Held(waiting, semaphore, timeouts);
      ReachableStep(s, 0, BeginGet(true));
      var s1 := Next(s, 0, BeginGet(true));
      ReachableStep(s1, 0, GetSection);
      assert Next(s1, 0, GetSection).pcs == ALL_IDLE;
      TimedOut(n - 1, waiting + 1, semaphore, timeouts + 1);
    }
  }

  /** Thread t finds the list empty and goes to sleep. */
  lemma FallenAsleep(t: nat, waiting: int, semaphore: int, timeouts: nat, pcs: map<nat, PC<int>>)
    requires t in pcs && pcs[t].Idle?
    requires Reachable(Committed([], 1, waiting, semaphore, timeouts, pcs))
    ensures Reachable(Committed([], 1, waiting + 1, semaphore, timeouts, pcs[t := Sleeping]))
  {
    hide Reachable;
    var s := Committed([], 1, waiting, semaphore, timeouts, pcs);
    ReachableStep(s, t, BeginGet(false));
    var s1 := Next(s, t, BeginGet(false));
    ReachableStep(s1, t, GetSection);
    assert Next(s1, t, GetSection).pcs == pcs[t := Sleeping];
  }

  /** A spare unit, and the sample held again. */
  lemma SpareUnit()
    ensures Reachable(Held(0, 1, 1))
  {
    hide Reachable;
    CommittedReachable();
    var s := Committed([0], 0, 0, 0, 0, ALL_IDLE);
    ReachableStep(s, 0, BeginGet(false));
    Taken(0, 0, 0, ALL_IDLE[0 := Entering(false)]);
    assert ALL_IDLE[0 := Entering(false)][0 := Idle] == ALL_IDLE;
    TimedOut(1, 0, 0, 0);
    GivenBack(0, 1, 0, 1, ALL_IDLE);
    ReachableStep(Committed([0], 0, 0, 1, 1, ALL_IDLE), 0, BeginGet(false));
    Taken(0, 1, 1, ALL_IDLE[0 := Entering(false)]);
  }

  function Stranded(): System<int> {
    Committed([0], 0, 0, 0, SEMAPHORE_MAX - 1, Threads(Idle, Idle, Sleeping))
  }

  /** Thread 2 sleeps with no unit to take, beside a free sample of a committed allocator. */
  lemma SleeperStranded()
    ensures Reachable(Stranded())
    ensures Stranded().a.committed && Stranded().a.free != []
    ensures Stranded().pcs[2].Sleeping? && !Enabled(Stranded(), 2, Wake)
  {
    hide Reachable;
    SpareUnit();
    TimedOut(SEMAPHORE_MAX - 2, 0, 1, 1);
    FallenAsleep(1, SEMAPHORE_MAX - 2, 1, SEMAPHORE_MAX - 1, ALL_IDLE);
    var one := ALL_IDLE[1 := Sleeping];
    FallenAsleep(2, SEMAPHORE_MAX - 1, 1, SEMAPHORE_MAX - 1, one);
    var two := one[2 := Sleeping];
    GivenBack(0, SEMAPHORE_MAX, 1, SEMAPHORE_MAX - 1, two);
    var s := Committed([0], 0, 0, 1, SEMAPHORE_MAX - 1, two);
    ReachableStep(s, 1, Wake);
    assert Next(s, 1, Wake) == Committed([0], 0, 0, 0, SEMAPHORE_MAX - 1, two[1 := Entering(false)]);
    Taken(1, 0, SEMAPHORE_MAX - 1, two[1 := Entering(false)]);
    var woken := two[1 := Entering(false)][1 := Idle];
    GivenBack(1, 0, 0, SEMAPHORE_MAX - 1, woken);
    assert woken == Threads(Idle, Idle, Sleeping);
  }
}
