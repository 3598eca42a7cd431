/** Every interleaving of GetBuffer, ReleaseBuffer, Commit, Decommit and SetProperties on
    one allocator: one step per critical section, per wait and per access outside the lock. */
module AllocatorProtocol {
  import opened Counting
  import opened Allocator

  /** Where a thread stands. Entering: about to lock in GetBuffer. Sleeping: has left the
      lock after SetWaiting. Popped: took a sample off the list, has not set its reference
      count. Returning: dropped the last reference, about to lock in ReleaseBuffer.
      Unpinning: left the lock with bRelease set, about to call Release. */
  datatype PC<S> = Idle | Entering(nowait: bool) | Sleeping | Popped(s: S) | Returning(s: S) | Unpinning
  {
    predicate Carries() { Popped? || Returning? }
  }

  /** refs: the reference count of every live sample. selfRefs: the references the
      allocator holds on itself. timeouts: how often AM_GBF_NOWAIT found the list empty. */
  datatype System<S(==)> = System(
    a: State<S>, pcs: map<nat, PC<S>>, refs: map<S, nat>, selfRefs: int, timeouts: nat)

  datatype Action<S> =
    | BeginGet(nowait: bool) | GetSection | Wake | Deliver
    | AddRef(s: S) | DropRef(s: S) | ReturnSection | Unpin
    | CommitSection(env: Environment<S>) | DecommitSection
    | SetPropertiesSection(request: Properties, alignmentOk: bool)

  predicate PossibleEnvironment<S(==)>(a: State<S>, env: Environment<S>) {
    && NoDuplicates(env.made)
    && (a.kind.Hardware? && env.created ==> |env.made| == a.agreed.count)
  }

  predicate Enabled<S>(s: System<S>, t: nat, act: Action<S>) {
    && t in s.pcs
    && match act
       case BeginGet(_) => s.pcs[t].Idle?
       case GetSection => s.pcs[t].Entering?
       case Wake => s.pcs[t].Sleeping? && s.a.semaphore > 0
       case Deliver => s.pcs[t].Popped? && s.pcs[t].s in s.refs
       case AddRef(x) => s.pcs[t].Idle? && x in s.refs && s.refs[x] > 0
       case DropRef(x) => s.pcs[t].Idle? && x in s.refs && s.refs[x] > 0
       case ReturnSection => s.pcs[t].Returning?
       case Unpin => s.pcs[t].Unpinning?
       case CommitSection(env) => s.pcs[t].Idle? && PossibleEnvironment(s.a, env)
       case DecommitSection => s.pcs[t].Idle?
       case SetPropertiesSection(_, _) => s.pcs[t].Idle?
  }

  function AfterFree<S>(s: System<S>, freed: bool): map<S, nat> {
    if freed && s.a.kind.Hardware? then map[] else s.refs
  }

  function AfterAlloc<S>(s: System<S>, live: Live<S>): map<S, nat> {
    match live
    case Kept => s.refs
    case Replaced(samples) => map x | x in samples :: 0
  }

  function Next<S>(s: System<S>, t: nat, act: Action<S>): System<S>
    requires Enabled(s, t, act)
  {
    match act
    case BeginGet(nowait) => s.(pcs := s.pcs[t := Entering(nowait)])
    case GetSection =>
      var (a, result) := Get(s.a);
      (match result
       case NotCommitted => s.(a := a, pcs := s.pcs[t := Idle])
       case Sample(x) => s.(a := a, pcs := s.pcs[t := Popped(x)])
       case MustWait =>
         if s.pcs[t].nowait then s.(a := a, pcs := s.pcs[t := Idle], timeouts := s.timeouts + 1)
         else s.(a := a, pcs := s.pcs[t := Sleeping]))
    case Wake => s.(a := s.a.(semaphore := s.a.semaphore - 1), pcs := s.pcs[t := Entering(false)])
    case Deliver => s.(refs := s.refs[s.pcs[t].s := 1], pcs := s.pcs[t := Idle])
    case AddRef(x) => s.(refs := s.refs[x := s.refs[x] + 1])
    case DropRef(x) =>
      s.(refs := s.refs[x := s.refs[x] - 1], pcs := if s.refs[x] == 1 then s.pcs[t := Returning(x)] else s.pcs)
    case ReturnSection =>
      var (a, freed) := Release(s.a, s.pcs[t].s);
      s.(a := a, refs := AfterFree(s, freed), pcs := s.pcs[t := if freed then Unpinning else Idle])
    case Unpin => s.(selfRefs := s.selfRefs - 1, pcs := s.pcs[t := Idle])
    case CommitSection(env) =>
      var (a, ok, live) := Commit(s.a, env);
      var pinned := ok && !s.a.committed && !s.a.decommitting;
      s.(a := a, refs := AfterAlloc(s, live), selfRefs := if pinned then s.selfRefs + 1 else s.selfRefs)
    case DecommitSection =>
      var (a, freed) := Decommit(s.a);
      s.(a := a, refs := AfterFree(s, freed), pcs := s.pcs[t := if freed then Unpinning else Idle])
    case SetPropertiesSection(request, alignmentOk) =>
      s.(a := SetProperties(s.a, request, alignmentOk).0)
  }

  // ----- runs

  predicate Start<S>(s: System<S>) {
    && s.a == Initial(s.a.kind)
    && (forall t :: t in s.pcs ==> s.pcs[t].Idle?)
    && s.refs == map[] && s.selfRefs == 0 && s.timeouts == 0
  }

  datatype Event<S> = Event(thread: nat, action: Action<S>)

  /** The events can all happen in this order. */
  predicate Possible<S>(s: System<S>, run: seq<Event<S>>)
    decreases |run|
  {
    run == [] || (Enabled(s, run[0].thread, run[0].action)
                  && Possible(Next(s, run[0].thread, run[0].action), run[1..]))
  }

  function After<S>(s: System<S>, run: seq<Event<S>>): System<S>
    requires Possible(s, run)
    decreases |run|
  {
    if run == [] then s else After(Next(s, run[0].thread, run[0].action), run[1..])
  }

  // ----- the invariant

  function Sleepers<S>(pcs: map<nat, PC<S>>): set<nat> {
    set t | t in pcs && pcs[t].Sleeping?
  }

  function Unpinners<S>(pcs: map<nat, PC<S>>): set<nat> {
    set t | t in pcs && pcs[t].Unpinning?
  }

  ghost predicate OnListOnce<S>(s: System<S>) {
    && NoDuplicates(s.a.free)
    && (forall x :: x in s.a.free ==> x in s.refs && s.refs[x] == 0)
    && s.a.nAllocated == |s.refs|
  }

  ghost predicate CarriedOnce<S>(s: System<S>) {
    && (forall t :: t in s.pcs && s.pcs[t].Carries() ==>
          s.pcs[t].s in s.refs && s.refs[s.pcs[t].s] == 0 && s.pcs[t].s !in s.a.free)
    && (forall t, u :: t in s.pcs && u in s.pcs && t != u && s.pcs[t].Carries() && s.pcs[u].Carries() ==>
          s.pcs[t].s != s.pcs[u].s)
  }

  /** Each live sample is in exactly one place: on the free list with count 0, carried by
      one thread with count 0, or held by clients with a positive count. */
  ghost predicate Conserved<S>(s: System<S>) {
    && OnListOnce(s)
    && CarriedOnce(s)
    && forall x :: x in s.refs && s.refs[x] == 0 ==> x in s.a.free || CarriedBySome(s, x)
  }

  ghost predicate CarriedBySome<S>(s: System<S>, x: S) {
    exists t :: t in s.pcs && s.pcs[t].Carries() && s.pcs[t].s == x
  }

  predicate FlagsAgree<S>(a: State<S>) {
    && !(a.committed && a.decommitting)
    && (a.decommitting ==> |a.free| < a.nAllocated)
    && (!a.committed && !a.decommitting ==> |a.free| == a.nAllocated)
    && (a.committed || a.decommitting ==> !a.changed && a.built == a.agreed && a.nAllocated == a.agreed.count)
    && (a.kind.Memory? && !a.changed && SizeSet(a.agreed) ==> a.built == a.agreed && a.nAllocated == a.agreed.count)
  }

  /** The first invariant of the header comment: nobody is counted as waiting beside a free sample. */
  predicate Signalled<S>(s: System<S>) {
    && 0 <= s.a.waiting && 0 <= s.a.semaphore
    && (s.a.free != [] || !s.a.committed ==> s.a.waiting == 0)
  }

  predicate Pinned<S>(s: System<S>) {
    s.selfRefs == (if s.a.committed || s.a.decommitting then 1 else 0) + |Unpinners(s.pcs)|
  }

  ghost predicate Invariant<S>(s: System<S>) {
    Conserved(s) && FlagsAgree(s.a) && Signalled(s) && Pinned(s)
  }

  // ----- counting

  /** The free list is as long as the count of live samples exactly when all are on it. */
  lemma AllBack<S>(s: System<S>)
    requires Conserved(s)
    ensures |s.a.free| <= s.a.nAllocated
    ensures |s.a.free| == s.a.nAllocated <==> forall x :: x in s.refs ==> x in s.a.free
    ensures |s.a.free| == s.a.nAllocated ==> forall t :: t in s.pcs ==> !s.pcs[t].Carries()
  {
    var onList := set x | x in s.a.free;
    SetOfSequence(s.a.free);
    SubsetSize(onList, s.refs.Keys);
    assert |s.refs| == |s.refs.Keys|;
    if forall x :: x in s.refs ==> x in s.a.free {
      assert onList == s.refs.Keys;
    }
  }

  lemma PCChange<S>(pcs: map<nat, PC<S>>, t: nat, p: PC<S>)
    requires t in pcs
    ensures |pcs[t := p]| == |pcs|
    ensures |Sleepers(pcs[t := p])| ==
            |Sleepers(pcs)| - (if pcs[t].Sleeping? then 1 else 0) + (if p.Sleeping? then 1 else 0)
    ensures |Unpinners(pcs[t := p])| ==
            |Unpinners(pcs)| - (if pcs[t].Unpinning? then 1 else 0) + (if p.Unpinning? then 1 else 0)
  {
    assert pcs[t := p].Keys == pcs.Keys;
    assert Sleepers(pcs) - {t} == Sleepers(pcs[t := p]) - {t};
    assert Unpinners(pcs) - {t} == Unpinners(pcs[t := p]) - {t};
    MemberChange(Sleepers(pcs), Sleepers(pcs[t := p]), t);
    MemberChange(Unpinners(pcs), Unpinners(pcs[t := p]), t);
  }

  lemma NoneAtStart<S>(s: System<S>)
    requires Start(s)
    ensures Invariant(s)
  {
    assert Sleepers(s.pcs) == {};
    assert Unpinners(s.pcs) == {};
  }

  // ----- the steps keep the invariant

  /** A step moves no other thread. */
  lemma OnlyOwnPC<S>(s: System<S>, t: nat, act: Action<S>)
    requires Enabled(s, t, act)
    ensures t in Next(s, t, act).pcs && Next(s, t, act).pcs == s.pcs[t := Next(s, t, act).pcs[t]]
  {
    hide Get, Release, Commit, Decommit, SetProperties, AfterFree, AfterAlloc;
  }

  lemma StepPinned<S>(s: System<S>, t: nat, act: Action<S>)
    requires Invariant(s) && Enabled(s, t, act)
    ensures Pinned(Next(s, t, act))
  {
    hide Conserved, Signalled;
    var n := Next(s, t, act);
    PCChange(s.pcs, t, n.pcs[t]);
    OnlyOwnPC(s, t, act);
  }

  lemma StepSignalled<S>(s: System<S>, t: nat, act: Action<S>)
    requires Invariant(s) && Enabled(s, t, act)
    ensures Signalled(Next(s, t, act))
  {
    hide Conserved, Pinned, FlagsAgree;
  }

  /** With a thread still carrying a sample the free list is short; one short means that
      every other sample is back. */
  lemma AllBackButOne<S>(s: System<S>, t: nat)
    requires Conserved(s) && t in s.pcs && s.pcs[t].Carries()
    ensures |s.a.free| + 1 <= s.a.nAllocated
    ensures |s.a.free| + 1 == s.a.nAllocated <==>
              forall x :: x in s.refs ==> x in s.a.free || x == s.pcs[t].s
    ensures |s.a.free| + 1 == s.a.nAllocated ==>
              forall u :: u in s.pcs && u != t ==> !s.pcs[u].Carries()
  {
    var y := s.pcs[t].s;
    var onList := [y] + s.a.free;
    var back := set x | x in onList;
    SetOfSequence(onList);
    SubsetSize(back, s.refs.Keys);
    assert |s.refs| == |s.refs.Keys|;
    if forall x :: x in s.refs ==> x in s.a.free || x == y {
      assert back == s.refs.Keys;
    }
  }

  lemma StepFlags<S>(s: System<S>, t: nat, act: Action<S>)
    requires Invariant(s) && Enabled(s, t, act)
    ensures FlagsAgree(Next(s, t, act).a)
  {
    AllBack(s);
    if act.ReturnSection? {
      AllBackButOne(s, t);
    }
    hide Conserved, Signalled, Pinned;
  }

  lemma MadeOnce<S>(made: seq<S>)
    requires NoDuplicates(made)
    ensures |map x | x in made :: 0| == |made|
  {
    SetOfSequence(made);
    assert (map x | x in made :: 0).Keys == set x | x in made;
  }

  /** Commit leaves the live samples alone, or the new ones are all on the free list. */
  lemma CommitLive<S>(a: State<S>, env: Environment<S>)
    requires PossibleEnvironment(a, env)
    ensures var (b, ok, live) := Commit(a, env);
            match live
            case Kept => b.free == a.free && b.nAllocated == a.nAllocated
            case Replaced(m) =>
              && !a.committed && !a.decommitting
              && b.free == m && b.nAllocated == |m| && NoDuplicates(m)
  {
  }

  lemma CommitOnList<S>(s: System<S>, t: nat, env: Environment<S>)
    requires Invariant(s) && Enabled(s, t, CommitSection(env))
    ensures OnListOnce(Next(s, t, CommitSection(env)))
  {
    CommitLive(s.a, env);
    MadeOnce(Commit(s.a, env).0.free);
    hide Signalled, Pinned, CarriedOnce, CarriedBySome, FlagsAgree, Commit;
  }

  lemma CommitCarried<S>(s: System<S>, t: nat, env: Environment<S>)
    requires Invariant(s) && Enabled(s, t, CommitSection(env))
    ensures CarriedOnce(Next(s, t, CommitSection(env)))
  {
    AllBack(s);
    hide Signalled, Pinned, OnListOnce, CarriedBySome;
  }

  lemma ReturnConserved<S>(s: System<S>, t: nat)
    requires Invariant(s) && Enabled(s, t, ReturnSection)
    ensures OnListOnce(Next(s, t, ReturnSection)) && CarriedOnce(Next(s, t, ReturnSection))
  {
    AllBackButOne(s, t);
    hide Signalled, Pinned, CarriedBySome, Conserved;
  }

  lemma DecommitConserved<S>(s: System<S>, t: nat)
    requires Invariant(s) && Enabled(s, t, DecommitSection)
    ensures OnListOnce(Next(s, t, DecommitSection)) && CarriedOnce(Next(s, t, DecommitSection))
  {
    AllBack(s);
    hide Signalled, Pinned, CarriedBySome;
  }

  predicate Locked<S>(act: Action<S>) {
    act.CommitSection? || act.ReturnSection? || act.DecommitSection?
  }

  lemma SameKeys<S>(m: map<S, nat>, n: map<S, nat>)
    ensures m.Keys == n.Keys ==> |m| == |n|
  {
    assert |m| == |m.Keys| && |n| == |n.Keys|;
  }

  lemma GetOnList<S>(s: System<S>, t: nat)
    requires Invariant(s) && Enabled(s, t, GetSection)
    ensures OnListOnce(Next(s, t, GetSection))
  {
    hide Signalled, Pinned, CarriedBySome, FlagsAgree, CarriedOnce, Decommit, Commit, Release, SetProperties;
  }

  lemma PropertiesList<S>(a: State<S>, request: Properties, alignmentOk: bool)
    ensures var b := SetProperties(a, request, alignmentOk).0; b.free == a.free && b.nAllocated == a.nAllocated
  {
  }

  lemma OtherOnList<S>(s: System<S>, t: nat, act: Action<S>)
    requires Invariant(s) && Enabled(s, t, act) && !Locked(act)
    ensures OnListOnce(Next(s, t, act))
  {
    hide Signalled, Pinned, CarriedBySome, FlagsAgree, Decommit, Commit, Release, SetProperties, Get;
    if act.GetSection? {
      GetOnList(s, t);
    } else if act.SetPropertiesSection? {
      PropertiesList(s.a, act.request, act.alignmentOk);
    } else {
      SameKeys(s.refs, Next(s, t, act).refs);
    }
  }

  lemma GetCarried<S>(s: System<S>, t: nat)
    requires Invariant(s) && Enabled(s, t, GetSection)
    ensures CarriedOnce(Next(s, t, GetSection))
  {
    hide Signalled, Pinned, CarriedBySome, FlagsAgree;
  }

  lemma OtherCarried<S>(s: System<S>, t: nat, act: Action<S>)
    requires Invariant(s) && Enabled(s, t, act) && !Locked(act)
    ensures CarriedOnce(Next(s, t, act))
  {
    hide Signalled, Pinned, CarriedBySome, FlagsAgree, Decommit, Commit, Release, Get;
    if act.GetSection? {
      GetCarried(s, t);
    }
  }

  lemma CarriedByThread<S>(s: System<S>, t: nat, x: S)
    ensures t in s.pcs && s.pcs[t].Carries() && s.pcs[t].s == x ==> CarriedBySome(s, x)
  {
  }

  /** A carried sample stays carried, or its carrier puts it on the list or delivers it. */
  lemma StaysCarried<S>(s: System<S>, t: nat, act: Action<S>, x: S)
    requires Invariant(s) && Enabled(s, t, act) && CarriedBySome(s, x)
    requires var n := Next(s, t, act); x in n.refs && n.refs[x] == 0 && x !in n.a.free
    ensures CarriedBySome(Next(s, t, act), x)
  {
    hide Signalled, Pinned, OnListOnce, CarriedOnce, FlagsAgree, Commit, Decommit, SetProperties;
    var u :| u in s.pcs && s.pcs[u].Carries() && s.pcs[u].s == x;
    OnlyOwnPC(s, t, act);
    CarriedByThread(Next(s, t, act), u, x);
  }

  /** A sample that was on the list, or held, is carried by the thread that took it. */
  lemma BecomesCarried<S>(s: System<S>, t: nat, act: Action<S>, x: S)
    requires Invariant(s) && Enabled(s, t, act) && !CarriedBySome(s, x)
    requires var n := Next(s, t, act); x in n.refs && n.refs[x] == 0 && x !in n.a.free
    ensures CarriedBySome(Next(s, t, act), x)
  {
    if act.CommitSection? {
      CommitLive(s.a, act.env);
    }
    hide Signalled, Pinned, FlagsAgree, Commit, OnListOnce, CarriedOnce, CarriedBySome;
    CarriedByThread(Next(s, t, act), t, x);
  }

  /** A sample whose count is 0 after the step is on the free list or carried. */
  lemma NothingLost<S>(s: System<S>, t: nat, act: Action<S>, x: S)
    requires Invariant(s) && Enabled(s, t, act)
    requires var n := Next(s, t, act); x in n.refs && n.refs[x] == 0 && x !in n.a.free
    ensures CarriedBySome(Next(s, t, act), x)
  {
    hide *;
    if CarriedBySome(s, x) {
      StaysCarried(s, t, act, x);
    } else {
      BecomesCarried(s, t, act, x);
    }
  }

  lemma StepKeepsInvariant<S>(s: System<S>, t: nat, act: Action<S>)
    requires Invariant(s) && Enabled(s, t, act)
    ensures Invariant(Next(s, t, act))
  {
    StepPinned(s, t, act);
    StepSignalled(s, t, act);
    StepFlags(s, t, act);
    forall x | x in Next(s, t, act).refs && Next(s, t, act).refs[x] == 0 && x !in Next(s, t, act).a.free
      ensures CarriedBySome(Next(s, t, act), x)
    {
      NothingLost(s, t, act, x);
    }
    hide Next, Enabled;
    match act
    case CommitSection(env) => CommitOnList(s, t, env); CommitCarried(s, t, env);
    case ReturnSection => ReturnConserved(s, t);
    case DecommitSection => DecommitConserved(s, t);
    case _ => OtherOnList(s, t, act); OtherCarried(s, t, act);
  }

  lemma {:induction false} RunKeepsInvariant<S>(s: System<S>, run: seq<Event<S>>)
    requires Invariant(s) && Possible(s, run)
    ensures Invariant(After(s, run))
    decreases |run|
  {
    if run != [] {
      StepKeepsInvariant(s, run[0].thread, run[0].action);
      RunKeepsInvariant(Next(s, run[0].thread, run[0].action), run[1..]);
    }
  }

  ghost predicate Reachable<S(!new)>(s: System<S>) {
    exists s0: System<S>, run :: Start(s0) && Possible(s0, run) && After(s0, run) == s
  }

  lemma ReachableInvariant<S(!new)>(s: System<S>)
    requires Reachable(s)
    ensures Invariant(s)
  {
    var s0: System<S>, run :| Start(s0) && Possible(s0, run) && After(s0, run) == s;
    NoneAtStart(s0);
    RunKeepsInvariant(s0, run);
  }

  lemma StartReachable<S(!new)>(s: System<S>)
    requires Start(s)
    ensures Reachable(s)
  {
    hide Start, Next, Enabled;
    assert Possible(s, []) && After(s, []) == s;
  }

  lemma {:induction false} Extended<S>(s: System<S>, run: seq<Event<S>>, e: Event<S>)
    requires Possible(s, run) && Enabled(After(s, run), e.thread, e.action)
    ensures Possible(s, run + [e]) && After(s, run + [e]) == Next(After(s, run), e.thread, e.action)
    decreases |run|
  {
    if run != [] {
      Extended(Next(s, run[0].thread, run[0].action), run[1..], e);
      assert (run + [e])[1..] == run[1..] + [e];
    }
  }

  lemma ReachableStep<S(!new)>(s: System<S>, t: nat, act: Action<S>)
    requires Reachable(s) && Enabled(s, t, act)
    ensures Reachable(Next(s, t, act))
  {
    var s0: System<S>, run :| Start(s0) && Possible(s0, run) && After(s0, run) == s;
    Extended(s0, run, Event(t, act));
  }

  lemma {:induction false} ReachableRun<S(!new)>(s: System<S>, run: seq<Event<S>>)
    requires Reachable(s) && Possible(s, run)
    ensures Reachable(After(s, run))
    decreases |run|
  {
    if run != [] {
      hide Reachable;
      ReachableStep(s, run[0].thread, run[0].action);
      ReachableRun(Next(s, run[0].thread, run[0].action), run[1..]);
    }
  }

  // ----- what the protocol promises

  // The second invariant of the header comment, waiting + semaphore == sleepers, with the units
  // that AM_GBF_NOWAIT callers leave behind, and what becomes of it when ReleaseSemaphore fails.

  /** The semaphore's units and those still owed cover every sleeper and every timed-out caller. */
  predicate Balanced<S>(s: System<S>) {
    s.a.waiting + s.a.semaphore == |Sleepers(s.pcs)| + s.timeouts
  }

  /** The steps that call NotifySample. */
  predicate Notifies<S>(a: State<S>, act: Action<S>) {
    act.ReturnSection? || (act.DecommitSection? && (a.committed || a.decommitting))
  }

  /** The step asks ReleaseSemaphore for more units than the semaphore has room for. */
  predicate LosesUnits<S>(a: State<S>, act: Action<S>) {
    Notifies(a, act) && a.waiting > 0 && a.waiting + a.semaphore > SEMAPHORE_MAX
  }

  function UnitsLostIn<S>(a: State<S>, act: Action<S>): nat {
    if LosesUnits(a, act) then a.waiting else 0
  }

  /** All the units lost in a run. */
  function UnitsLost<S>(s: System<S>, run: seq<Event<S>>): nat
    requires Possible(s, run)
    decreases |run|
  {
    if run == [] then 0
    else UnitsLostIn(s.a, run[0].action) + UnitsLost(Next(s, run[0].thread, run[0].action), run[1..])
  }

  lemma CommitUnits<S>(a: State<S>, env: Environment<S>)
    ensures Commit(a, env).0.waiting == a.waiting && Commit(a, env).0.semaphore == a.semaphore
  {
  }

  lemma NotifyUnits<S>(a: State<S>)
    requires a.waiting >= 0
    ensures var lost := if a.waiting > 0 && a.waiting + a.semaphore > SEMAPHORE_MAX then a.waiting else 0;
            Notify(a).waiting + Notify(a).semaphore + lost == a.waiting + a.semaphore
  {
  }

  lemma PropertiesUnits<S>(a: State<S>, request: Properties, alignmentOk: bool)
    ensures var b := SetProperties(a, request, alignmentOk).0; b.waiting == a.waiting && b.semaphore == a.semaphore
  {
  }

  /** The stepping thread's own share. */
  lemma StepUnits<S>(s: System<S>, t: nat, act: Action<S>)
    requires Enabled(s, t, act) && s.a.waiting >= 0
    ensures var n := Next(s, t, act);
            && t in n.pcs
            && n.a.waiting + n.a.semaphore + UnitsLostIn(s.a, act)
               == s.a.waiting + s.a.semaphore + n.timeouts - s.timeouts
                  + (if n.pcs[t].Sleeping? then 1 else 0) - (if s.pcs[t].Sleeping? then 1 else 0)
  {
    hide Commit, Notify, SetProperties, AfterAlloc, AfterFree;
    match act
    case CommitSection(env) => CommitUnits(s.a, env);
    case ReturnSection => NotifyUnits(s.a.(free := [s.pcs[t].s] + s.a.free));
    case DecommitSection =>
      NotifyUnits(s.a.(committed := false, decommitting := true));
      NotifyUnits(FreeSamples(s.a.(committed := false, decommitting := false)));
    case SetPropertiesSection(request, ok) => PropertiesUnits(s.a, request, ok);
    case _ =>
  }

  /** One step: exactly the units that do not fit are missing afterwards. */
  lemma StepBalance<S>(s: System<S>, t: nat, act: Action<S>)
    requires Enabled(s, t, act) && s.a.waiting >= 0
    ensures var n := Next(s, t, act);
            n.a.waiting + n.a.semaphore + UnitsLostIn(s.a, act) - |Sleepers(n.pcs)| - n.timeouts
            == s.a.waiting + s.a.semaphore - |Sleepers(s.pcs)| - s.timeouts
  {
    StepUnits(s, t, act);
    OnlyOwnPC(s, t, act);
    hide Next, Sleepers, UnitsLostIn;
    PCChange(s.pcs, t, Next(s, t, act).pcs[t]);
  }

  lemma {:induction false} RunBalance<S>(s: System<S>, run: seq<Event<S>>)
    requires Invariant(s) && Possible(s, run)
    ensures var n := After(s, run);
            n.a.waiting + n.a.semaphore + UnitsLost(s, run) - |Sleepers(n.pcs)| - n.timeouts
            == s.a.waiting + s.a.semaphore - |Sleepers(s.pcs)| - s.timeouts
    decreases |run|
  {
    if run != [] {
      hide Sleepers, UnitsLostIn, Conserved, FlagsAgree, Pinned, Next, Enabled;
      StepKeepsInvariant(s, run[0].thread, run[0].action);
      StepBalance(s, run[0].thread, run[0].action);
      RunBalance(Next(s, run[0].thread, run[0].action), run[1..]);
    }
  }

  /** Some step of the run loses units. */
  predicate SomeStepLoses<S>(s: System<S>, run: seq<Event<S>>)
    requires Possible(s, run)
    decreases |run|
  {
    run != [] && (LosesUnits(s.a, run[0].action) || SomeStepLoses(Next(s, run[0].thread, run[0].action), run[1..]))
  }

  lemma {:induction false} LostWhenSomeStepLoses<S>(s: System<S>, run: seq<Event<S>>)
    requires Possible(s, run)
    ensures UnitsLost(s, run) > 0 <==> SomeStepLoses(s, run)
    decreases |run|
  {
    if run != [] {
      hide Next, Enabled;
      LostWhenSomeStepLoses(Next(s, run[0].thread, run[0].action), run[1..]);
    }
  }

  /** Over every run from the start: the equation of the header comment, with the timed-out
      callers, holds at the end if and only if no step of the run lost units, and the units
      missing are exactly those lost. What is lost stays lost. */
  lemma BalancedIffNothingLost<S>(s0: System<S>, run: seq<Event<S>>)
    requires Start(s0) && Possible(s0, run)
    ensures var s := After(s0, run);
            && s.a.waiting + s.a.semaphore + UnitsLost(s0, run) == |Sleepers(s.pcs)| + s.timeouts
            && (Balanced(s) <==> !SomeStepLoses(s0, run))
            && (BalancedThroughout(s0, run) <==> !SomeStepLoses(s0, run))
  {
    NoneAtStart(s0);
    assert Sleepers(s0.pcs) == {};
    RunBalance(s0, run);
    LostWhenSomeStepLoses(s0, run);
    ThroughoutIffNothingLost(s0, run);
  }

  /** The equation holds in every state of the run. */
  predicate BalancedThroughout<S>(s: System<S>, run: seq<Event<S>>)
    requires Possible(s, run)
    decreases |run|
  {
    Balanced(s) && (run == [] || BalancedThroughout(Next(s, run[0].thread, run[0].action), run[1..]))
  }

  lemma {:induction false} ThroughoutIffNothingLost<S>(s: System<S>, run: seq<Event<S>>)
    requires Invariant(s) && Balanced(s) && Possible(s, run)
    ensures BalancedThroughout(s, run) <==> !SomeStepLoses(s, run)
    decreases |run|
  {
    if run != [] {
      hide Sleepers, Conserved, FlagsAgree, Pinned, Next, Enabled;
      var n := Next(s, run[0].thread, run[0].action);
      StepKeepsInvariant(s, run[0].thread, run[0].action);
      StepBalance(s, run[0].thread, run[0].action);
      if Balanced(n) {
        ThroughoutIffNothingLost(n, run[1..]);
      }
    }
  }

  lemma {:induction false} TimeoutsGrow<S>(s: System<S>, run: seq<Event<S>>)
    requires Possible(s, run)
    ensures After(s, run).timeouts >= s.timeouts
    decreases |run|
  {
    if run != [] {
      TimeoutsGrow(Next(s, run[0].thread, run[0].action), run[1..]);
    }
  }

  /** So nothing is ever lost while timed-out calls and threads together stay within the
      semaphore's maximum. */
  lemma {:induction false} NothingLostWithinMaximum<S>(s: System<S>, run: seq<Event<S>>)
    requires Invariant(s) && Balanced(s) && Possible(s, run)
    requires After(s, run).timeouts + |s.pcs| <= SEMAPHORE_MAX
    ensures !SomeStepLoses(s, run)
    decreases |run|
  {
    hide Sleepers, Conserved, FlagsAgree, Pinned, Next, Enabled;
    if run != [] {
      var e := run[0];
      var n := Next(s, e.thread, e.action);
      TimeoutsGrow(s, run);
      SleepersAreThreads(s);
      LossNeedsManyWaiters(s, e.action);
      StepKeepsInvariant(s, e.thread, e.action);
      StepBalance(s, e.thread, e.action);
      SameThreads(s, e.thread, e.action);
      NothingLostWithinMaximum(n, run[1..]);
    }
  }

  lemma SleepersAreThreads<S>(s: System<S>)
    ensures |Sleepers(s.pcs)| <= |s.pcs|
  {
    SubsetSize(Sleepers(s.pcs), s.pcs.Keys);
    assert |s.pcs.Keys| == |s.pcs|;
  }

  lemma SameThreads<S>(s: System<S>, t: nat, act: Action<S>)
    requires Enabled(s, t, act)
    ensures |Next(s, t, act).pcs| == |s.pcs|
  {
    OnlyOwnPC(s, t, act);
    PCChange(s.pcs, t, Next(s, t, act).pcs[t]);
  }

  /** While nothing has been lost yet, a notification loses units exactly when more than
      the semaphore's maximum of sleepers and timed-out callers have to be covered. */
  lemma LossNeedsManyWaiters<S>(s: System<S>, act: Action<S>)
    requires Balanced(s)
    ensures LosesUnits(s.a, act) <==>
              Notifies(s.a, act) && s.a.waiting > 0 && |Sleepers(s.pcs)| + s.timeouts > 0x7FFF_FFFF
  {
  }

  /** Beside a free sample and after a decommit there are units enough for every sleeper to wake
      at once if and only if no more units were lost than timed-out callers left behind; and
      then a sleeper with no unit to take is on a committed allocator all of whose samples
      are away. */
  lemma NoLostWakeup<S>(s0: System<S>, run: seq<Event<S>>)
    requires Start(s0) && Possible(s0, run)
    ensures var s, lost := After(s0, run), UnitsLost(s0, run);
            && (s.a.free != [] ==> s.a.waiting == 0)
            && (s.a.free != [] || !s.a.committed ==> (s.a.semaphore >= |Sleepers(s.pcs)| <==> lost <= s.timeouts))
            && (lost <= s.timeouts ==>
                 forall t :: t in s.pcs && s.pcs[t].Sleeping? && !Enabled(s, t, Wake) ==>
                   s.a.committed && s.a.free == [])
  {
    NoneAtStart(s0);
    RunKeepsInvariant(s0, run);
    BalancedIffNothingLost(s0, run);
    hide Conserved, FlagsAgree, Pinned, After, UnitsLost, Possible, SomeStepLoses;
    var s := After(s0, run);
    forall t | t in s.pcs && s.pcs[t].Sleeping? && !Enabled(s, t, Wake) && UnitsLost(s0, run) <= s.timeouts
      ensures s.a.committed && s.a.free == []
    {
      SubsetSize({t}, Sleepers(s.pcs));
    }
  }

  /** Every live sample is on the free list with count 0, or outstanding: carried by
      exactly one thread with count 0, or held with a positive count. */
  lemma SamplesConserved<S(!new)>(s: System<S>, x: S)
    requires Reachable(s) && x in s.refs
    ensures s.a.nAllocated == |s.refs| && NoDuplicates(s.a.free)
    ensures (x in s.a.free) != (s.refs[x] > 0 || CarriedBySome(s, x))
    ensures x in s.a.free || CarriedBySome(s, x) ==> s.refs[x] == 0
    ensures forall t, u :: t in s.pcs && u in s.pcs && t != u && s.pcs[t].Carries() && s.pcs[u].Carries() ==>
              s.pcs[t].s != s.pcs[u].s
  {
    ReachableInvariant(s);
  }

  /** The step runs Free, or an Alloc that replaces the samples. */
  predicate Frees<S>(s: System<S>, t: nat, act: Action<S>)
    requires Enabled(s, t, act)
  {
    match act
    case ReturnSection => Release(s.a, s.pcs[t].s).1
    case DecommitSection => Decommit(s.a).1
    case CommitSection(env) => Commit(s.a, env).2.Replaced?
    case _ => false
  }

  /** Samples are freed or replaced only when every live one is back: on the free list, or the
      one this very step puts there. No other step takes a sample away or brings a new one. */
  lemma FreedOnlyWhenAllBack<S(!new)>(s: System<S>, t: nat, act: Action<S>)
    requires Reachable(s) && Enabled(s, t, act)
    ensures Frees(s, t, act) ==>
              forall x :: x in s.refs ==> s.refs[x] == 0 && (x in s.a.free || s.pcs[t] == Returning(x))
    ensures !Frees(s, t, act) ==> Next(s, t, act).refs.Keys == s.refs.Keys
  {
    hide Reachable, Signalled, Pinned;
    ReachableInvariant(s);
    AllBack(s);
    if act.ReturnSection? {
      AllBackButOne(s, t);
    }
  }

  /** A deferred decommit completes in the very step that brings the last sample back. */
  lemma DecommitCompletesOnLastReturn<S(!new)>(s: System<S>, t: nat)
    requires Reachable(s) && Enabled(s, t, ReturnSection) && s.a.decommitting
    ensures Next(s, t, ReturnSection).a.decommitting <==>
              exists x :: x in s.refs && x !in s.a.free && x != s.pcs[t].s
    ensures !Next(s, t, ReturnSection).a.decommitting ==> Next(s, t, ReturnSection).pcs[t] == Unpinning
  {
    ReachableInvariant(s);
    AllBackButOne(s, t);
    hide Pinned, CarriedOnce;
  }

  /** The self-reference is held exactly while a flag is set, up to the releases that
      threads have still to make outside the lock. */
  lemma SelfReference<S(!new)>(s: System<S>)
    requires Reachable(s)
    ensures !(s.a.committed && s.a.decommitting)
    ensures s.selfRefs == (if s.a.committed || s.a.decommitting then 1 else 0) + |Unpinners(s.pcs)|
  {
    ReachableInvariant(s);
  }

  /** Cancelling a pending decommit without calling Alloc is sound: the live samples are
      those agreed, in number and size, and Commit leaves every one where it is. */
  lemma CommitCancelsDecommit<S(!new)>(s: System<S>, t: nat, env: Environment<S>)
    requires Reachable(s) && Enabled(s, t, CommitSection(env)) && s.a.decommitting
    ensures var n := Next(s, t, CommitSection(env));
            && n.a == s.a.(committed := true, decommitting := false)
            && n.refs == s.refs && n.pcs == s.pcs && n.selfRefs == s.selfRefs
            && !n.a.changed && n.a.built == n.a.agreed && |n.refs| == n.a.agreed.count
  {
    ReachableInvariant(s);
  }

  /** And so is committing at all: whatever way Commit succeeds, the live samples are those
      agreed. */
  lemma CommittedAsAgreed<S(!new)>(s: System<S>)
    requires Reachable(s) && (s.a.committed || s.a.decommitting)
    ensures !s.a.changed && s.a.built == s.a.agreed && |s.refs| == s.a.agreed.count
  {
    ReachableInvariant(s);
  }

  /** Apart from a bad alignment, SetProperties is refused exactly while committed or
      while some sample is outstanding. */
  lemma SetPropertiesRefused<S(!new)>(s: System<S>, request: Properties, alignmentOk: bool)
    requires Reachable(s)
    ensures var result := SetProperties(s.a, request, alignmentOk).1;
            !result.BadAlignment? ==>
              (result.Accepted? <==> !s.a.committed && forall x :: x in s.refs ==> x in s.a.free)
    ensures s.a.decommitting ==> !SetProperties(s.a, request, alignmentOk).1.Accepted?
  {
    ReachableInvariant(s);
    AllBack(s);
  }

  /** GetBuffer hands out a sample exactly while committed and beside a free one, and waits exactly while
      committed beside none. */
  lemma ServedIffFree<S>(s: System<S>, t: nat)
    requires Enabled(s, t, GetSection)
    ensures var n := Next(s, t, GetSection);
            && (n.pcs[t].Popped? <==> s.a.committed && s.a.free != [])
            && (n.pcs[t].Sleeping? <==> s.a.committed && s.a.free == [] && !s.pcs[t].nowait)
            && (!s.a.committed ==> n == s.(pcs := s.pcs[t := Idle]))
  {
  }

  /** The sample returned last is the one handed out next, and the list is then as it was. */
  lemma LastReturnedFirstServed<S>(s: System<S>, t: nat, u: nat)
    requires Enabled(s, t, ReturnSection) && s.a.committed && !s.a.decommitting
    requires u in s.pcs && u != t && s.pcs[u].Entering?
    ensures var n := Next(s, t, ReturnSection);
            && Enabled(n, u, GetSection)
            && Next(n, u, GetSection).pcs[u] == Popped(s.pcs[t].s)
            && Next(n, u, GetSection).a.free == s.a.free
  {
    hide FreeSamples;
    assert ([s.pcs[t].s] + s.a.free)[1..] == s.a.free;
  }

  /** What a completed decommit leaves: a memory allocator all its samples, a hardware one none. */
  lemma LeftAfterDecommit<S(!new)>(s: System<S>, t: nat, act: Action<S>)
    requires Reachable(s) && Enabled(s, t, act) && (act.ReturnSection? || act.DecommitSection?)
    requires Next(s, t, act).pcs[t].Unpinning?
    ensures var n := Next(s, t, act);
            && !n.a.committed && !n.a.decommitting && |n.a.free| == |n.refs|
            && n.refs == if s.a.kind.Memory? then s.refs else map[]
  {
    hide Reachable, Signalled, Pinned, CarriedOnce, CarriedBySome;
    ReachableInvariant(s);
    StepKeepsInvariant(s, t, act);
  }
}
