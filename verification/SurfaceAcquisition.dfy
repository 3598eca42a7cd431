/** How the hardware decoders pick the surface for the next picture
    (src/Mpeg2DecoderD3D11.cpp:449-508, 575-580, 857-908 and
    src/Mpeg2DecoderDXVA2.cpp:474-503, 568-573): take samples from the allocator until one
    is neither of the two remembered reference surfaces. */
module SurfaceAcquisition {
  import opened Counting
  import opened Allocator
  import opened AllocatorProtocol
  import opened Options

  /** SampleInfo: a sample pointer and the surface number remembered with it; -1 for none. */
  datatype Slot = Slot(sample: Option<int>, id: int)

  datatype Refs = Refs(ref0: Slot, ref1: Slot)

  datatype Acquisition = Acquisition(refs: Refs, got: Option<int>)

  // ----- the loop as a function of the surfaces offered to it

  /** One turn: a remembered reference surface is kept aside, any other one is taken. */
  function Offer(r: Refs, x: int): Acquisition {
    if x == r.ref0.id then Acquisition(r.(ref0 := r.ref0.(sample := Some(x))), None)
    else if x == r.ref1.id then Acquisition(r.(ref1 := r.ref1.(sample := Some(x))), None)
    else Acquisition(r, Some(x))
  }

  function Acquire(r: Refs, offers: seq<int>): Acquisition {
    if offers == [] then Acquisition(r, None)
    else
      var before := Acquire(r, offers[..|offers| - 1]);
      if before.got.Some? then before else Offer(before.refs, offers[|offers| - 1])
  }

  predicate Holds(slot: Slot, x: int) { slot.sample == Some(x) }

  predicate HoldsOwn(slot: Slot) { slot.sample.None? || slot.sample == Some(slot.id) }

  /** The allocator never offers a surface that the decoder still holds. */
  predicate NeverHeld(r: Refs, offers: seq<int>) {
    forall k :: 0 <= k < |offers| ==>
      var before := Acquire(r, offers[..k]);
      before.got.None? ==> !Holds(before.refs.ref0, offers[k]) && !Holds(before.refs.ref1, offers[k])
  }

  /** The surface taken differs from both references, and two extra requests are enough,
      whatever the order in which the surfaces come. */
  lemma TwoExtraRequestsSuffice(r: Refs, offers: seq<int>)
    requires HoldsOwn(r.ref0) && HoldsOwn(r.ref1) && NeverHeld(r, offers)
    ensures var a := Acquire(r, offers);
            && (a.got.Some? ==> a.got.value != r.ref0.id && a.got.value != r.ref1.id)
            && (|offers| >= 3 ==> a.got.Some?)
            && a.refs.ref0.id == r.ref0.id && a.refs.ref1.id == r.ref1.id
            && HoldsOwn(a.refs.ref0) && HoldsOwn(a.refs.ref1)
  {
    KeepsReferences(r, offers);
    if |offers| >= 3 {
      ThirdIsTaken(r, offers);
      hide Acquire, NeverHeld;
      GotStays(r, offers, 3);
    }
  }

  lemma ThirdIsTaken(r: Refs, offers: seq<int>)
    requires HoldsOwn(r.ref0) && HoldsOwn(r.ref1) && NeverHeld(r, offers) && |offers| >= 3
    ensures Acquire(r, offers[..3]).got.Some?
  {
    assert offers[..3][..2] == offers[..2] && offers[..2][..1] == offers[..1] && offers[..1][..0] == [];
  }

  lemma {:induction false} KeepsReferences(r: Refs, offers: seq<int>)
    requires HoldsOwn(r.ref0) && HoldsOwn(r.ref1)
    ensures var a := Acquire(r, offers);
            && (a.got.Some? ==> a.got.value != r.ref0.id && a.got.value != r.ref1.id)
            && a.refs.ref0.id == r.ref0.id && a.refs.ref1.id == r.ref1.id
            && HoldsOwn(a.refs.ref0) && HoldsOwn(a.refs.ref1)
  {
    if offers != [] {
      KeepsReferences(r, offers[..|offers| - 1]);
    }
  }

  lemma {:induction false} GotStays(r: Refs, offers: seq<int>, k: nat)
    requires k <= |offers| && Acquire(r, offers[..k]).got.Some?
    ensures Acquire(r, offers).got.Some?
  {
    if k == |offers| {
      assert offers[..k] == offers;
    } else {
      assert offers[..|offers| - 1][..k] == offers[..k];
      GotStays(r, offers[..|offers| - 1], k);
    }
  }

  /** One more offer. */
  lemma AcquireOneMore(r: Refs, offers: seq<int>, x: int)
    requires Acquire(r, offers).got.None? && NeverHeld(r, offers)
    requires var now := Acquire(r, offers).refs; !Holds(now.ref0, x) && !Holds(now.ref1, x)
    ensures Acquire(r, offers + [x]) == Offer(Acquire(r, offers).refs, x)
    ensures NeverHeld(r, offers + [x])
  {
    var more := offers + [x];
    assert more[..|offers|] == offers;
    assert forall k :: 0 <= k <= |offers| ==> more[..k] == offers[..k];
  }

  // ----- the allocator's operations as runs of its protocol, on one thread

  predicate Quiet(s: System<int>) {
    s.pcs == map[0 := Idle] && s.a.committed && s.a.kind.Hardware? && s.a.waiting == 0
  }

  function Buffered(s: System<int>): System<int>
    requires s.a.free != []
  {
    s.(a := s.a.(free := s.a.free[1..]), refs := s.refs[s.a.free[0] := 1])
  }

  function Referenced(s: System<int>, x: int): System<int>
    requires x in s.refs
  {
    s.(refs := s.refs[x := s.refs[x] + 1])
  }

  function Released(s: System<int>, x: int): System<int>
    requires x in s.refs && s.refs[x] > 0
  {
    var refs := s.refs[x := s.refs[x] - 1];
    if s.refs[x] == 1 then s.(a := s.a.(free := [x] + s.a.free), refs := refs) else s.(refs := refs)
  }

  const GET_RUN: seq<Event<int>> := [Event(0, BeginGet(false)), Event(0, GetSection), Event(0, Deliver)]

  function ReleaseRun(s: System<int>, x: int): seq<Event<int>>
    requires x in s.refs
  {
    if s.refs[x] == 1 then [Event(0, DropRef(x)), Event(0, ReturnSection)] else [Event(0, DropRef(x))]
  }

  lemma QuietFacts(s: System<int>)
    requires Quiet(s) && Reachable(s)
    ensures !s.a.decommitting && (s.a.free != [] ==> s.a.free[0] in s.refs && s.refs[s.a.free[0]] == 0)
  {
    ReachableInvariant(s);
  }

  /** GetBuffer beside a free sample is a run of the protocol without a wait, and takes the
      head of the free list. */
  lemma BufferedByProtocol(s: System<int>)
    requires Quiet(s) && Reachable(s) && s.a.free != []
    ensures Possible(s, GET_RUN) && After(s, GET_RUN) == Buffered(s)
    ensures Quiet(Buffered(s)) && Reachable(Buffered(s))
  {
    hide Reachable;
    QuietFacts(s);
    var x := s.a.free[0];
    var s1 := Next(s, 0, BeginGet(false));
    var s2 := Next(s1, 0, GetSection);
    assert s2 == s.(a := s.a.(free := s.a.free[1..]), pcs := map[0 := Popped(x)]);
    var s3 := Next(s2, 0, Deliver);
    assert s3.pcs == s.pcs && s3 == Buffered(s);
    RunOfThree(s, GET_RUN[0], GET_RUN[1], GET_RUN[2]);
    ReachableRun(s, GET_RUN);
  }

  lemma ReferencedByProtocol(s: System<int>, x: int)
    requires Quiet(s) && Reachable(s) && x in s.refs && s.refs[x] > 0
    ensures Possible(s, [Event(0, AddRef(x))]) && After(s, [Event(0, AddRef(x))]) == Referenced(s, x)
    ensures Quiet(Referenced(s, x)) && Reachable(Referenced(s, x))
  {
    hide Reachable;
    RunOfOne(s, Event(0, AddRef(x)));
    ReachableRun(s, [Event(0, AddRef(x))]);
  }

  lemma ReleasedByProtocol(s: System<int>, x: int)
    requires Quiet(s) && Reachable(s) && x in s.refs && s.refs[x] > 0
    ensures Possible(s, ReleaseRun(s, x)) && After(s, ReleaseRun(s, x)) == Released(s, x)
    ensures Quiet(Released(s, x)) && Reachable(Released(s, x))
  {
    hide Reachable;
    QuietFacts(s);
    var s1 := Next(s, 0, DropRef(x));
    if s.refs[x] == 1 {
      var s2 := Next(s1, 0, ReturnSection);
      assert s2.pcs == s.pcs && s2 == Released(s, x);
      RunOfTwo(s, Event(0, DropRef(x)), Event(0, ReturnSection));
    } else {
      RunOfOne(s, Event(0, DropRef(x)));
    }
    ReachableRun(s, ReleaseRun(s, x));
  }

  lemma RunOfOne(s: System<int>, e: Event<int>)
    requires Enabled(s, e.thread, e.action)
    ensures Possible(s, [e]) && After(s, [e]) == Next(s, e.thread, e.action)
  {
    hide Next, Enabled;
    assert [e][1..] == [];
  }

  lemma RunOfTwo(s: System<int>, e: Event<int>, f: Event<int>)
    requires Enabled(s, e.thread, e.action) && Enabled(Next(s, e.thread, e.action), f.thread, f.action)
    ensures Possible(s, [e, f]) && After(s, [e, f]) == Next(Next(s, e.thread, e.action), f.thread, f.action)
  {
    hide Next, Enabled;
    RunOfOne(Next(s, e.thread, e.action), f);
    assert [e, f][1..] == [f];
  }

  lemma RunOfThree(s: System<int>, e: Event<int>, f: Event<int>, g: Event<int>)
    requires Enabled(s, e.thread, e.action) && Enabled(Next(s, e.thread, e.action), f.thread, f.action)
    requires Enabled(Next(Next(s, e.thread, e.action), f.thread, f.action), g.thread, g.action)
    ensures Possible(s, [e, f, g])
    ensures After(s, [e, f, g])
            == Next(Next(Next(s, e.thread, e.action), f.thread, f.action), g.thread, g.action)
  {
    hide Next, Enabled;
    RunOfTwo(Next(s, e.thread, e.action), f, g);
    assert [e, f, g][1..] == [f, g];
  }

  // ----- any decoder on an allocator that other threads use as well

  /** What the decoder still holds has a reference count, because its own reference counts. */
  predicate HeldAreCounted(refs: Refs, s: System<int>) {
    && (refs.ref0.sample.Some? ==> refs.ref0.sample.value in s.refs && s.refs[refs.ref0.sample.value] > 0)
    && (refs.ref1.sample.Some? ==> refs.ref1.sample.value in s.refs && s.refs[refs.ref1.sample.value] > 0)
  }

  /** Whatever the other threads do, GetBuffer hands out only samples with count 0. */
  lemma OfferedUncounted(s: System<int>, t: nat)
    requires Reachable(s) && Enabled(s, t, GetSection) && Next(s, t, GetSection).pcs[t].Popped?
    ensures var x := Next(s, t, GetSection).pcs[t].s; x in s.refs && s.refs[x] == 0
  {
    hide Reachable;
    ReachableInvariant(s);
  }

  /** So for every way in which the requests of one acquisition fall between the steps of the
      other threads, no surface offered is one the decoder holds. */
  lemma NeverHeldByProtocol(r: Refs, offers: seq<int>, states: seq<System<int>>, t: nat)
    requires |states| == |offers|
    requires forall k :: 0 <= k < |offers| ==>
               && Reachable(states[k]) && Enabled(states[k], t, GetSection)
               && Next(states[k], t, GetSection).pcs[t] == Popped(offers[k])
               && HeldAreCounted(Acquire(r, offers[..k]).refs, states[k])
    ensures NeverHeld(r, offers)
  {
    hide Reachable, Next, Enabled, Acquire;
    forall k | 0 <= k < |offers|
      ensures var now := Acquire(r, offers[..k]).refs; !Holds(now.ref0, offers[k]) && !Holds(now.ref1, offers[k])
    {
      OfferedUncounted(states[k], t);
    }
  }

  /** The two together: three requests always suffice, and the surface is no reference. */
  lemma AcquisitionByProtocol(r: Refs, offers: seq<int>, states: seq<System<int>>, t: nat)
    requires HoldsOwn(r.ref0) && HoldsOwn(r.ref1) && |states| == |offers|
    requires forall k :: 0 <= k < |offers| ==>
               && Reachable(states[k]) && Enabled(states[k], t, GetSection)
               && Next(states[k], t, GetSection).pcs[t] == Popped(offers[k])
               && HeldAreCounted(Acquire(r, offers[..k]).refs, states[k])
    ensures var a := Acquire(r, offers);
            && (a.got.Some? ==> a.got.value != r.ref0.id && a.got.value != r.ref1.id)
            && (|offers| >= 3 ==> a.got.Some?)
  {
    hide Reachable, Next, Enabled, Acquire, NeverHeld;
    NeverHeldByProtocol(r, offers, states, t);
    TwoExtraRequestsSuffice(r, offers);
  }

  // ----- the D3D11 decoder's pointers on its own allocator

  const NUM_BUFFERS := 8

  /** Every count is the number of pointers to that sample (at most one of the five), plus
      the reference in hand, if any. */
  ghost predicate Owned(s: System<int>, slots: seq<Slot>, inHand: Option<int>) {
    && |slots| == 5
    && Quiet(s) && Reachable(s) && s.a.nAllocated == NUM_BUFFERS
    && (forall i :: 0 <= i < 5 ==> HoldsOwn(slots[i]))
    && (forall i :: 0 <= i < 5 && slots[i].sample.Some? ==>
          slots[i].id in s.refs && s.refs[slots[i].id] == 1 && inHand != slots[i].sample)
    && (forall i, j :: 0 <= i < j < 5 && slots[i].sample.Some? && slots[j].sample.Some? ==>
          slots[i].id != slots[j].id)
    && (inHand.Some? ==> inHand.value in s.refs && s.refs[inHand.value] == 1)
    && (forall x :: x in s.refs && s.refs[x] > 0 ==> inHand == Some(x) || HeldBySome(slots, x))
  }

  ghost predicate HeldBySome(slots: seq<Slot>, x: int) {
    exists i :: 0 <= i < |slots| && slots[i].sample == Some(x)
  }

  /** How many samples are away from the free list. */
  function Outstanding(s: System<int>): int { s.a.nAllocated - |s.a.free| }

  lemma {:induction false} SequenceBound(xs: seq<int>)
    ensures |set x | x in xs| <= |xs|
  {
    if xs != [] {
      SequenceBound(xs[1..]);
      assert (set x | x in xs) == {xs[0]} + set x | x in xs[1..];
    }
  }

  /** The numbers of all pointers but one. */
  function OtherIds(slots: seq<Slot>, empty: nat): (ids: seq<int>)
    requires |slots| == 5 && empty < 5
    ensures |ids| == 4 && forall i :: 0 <= i < 5 && i != empty ==> slots[i].id in ids
  {
    var others := slots[..empty] + slots[empty + 1..];
    var ids := seq(4, i requires 0 <= i < 4 => others[i].id);
    assert forall i :: 0 <= i < 5 && i != empty ==> ids[if i < empty then i else i - 1] == slots[i].id;
    ids
  }

  /** A sample away from the list is held by one of the other pointers. */
  lemma AwayIsHeld(s: System<int>, slots: seq<Slot>, empty: nat, x: int)
    requires Owned(s, slots, None) && empty < 5 && slots[empty].sample.None?
    requires x in s.refs && x !in s.a.free
    ensures x in OtherIds(slots, empty)
  {
    hide Reachable, Signalled, Pinned, FlagsAgree;
    ReachableInvariant(s);
    assert s.pcs[0] == Idle;
    var i :| 0 <= i < 5 && slots[i].sample == Some(x);
  }

  /** With one of the five pointers empty at most four samples are outstanding. */
  lemma OutstandingBound(s: System<int>, slots: seq<Slot>, empty: nat)
    requires Owned(s, slots, None) && empty < 5 && slots[empty].sample.None?
    ensures Outstanding(s) <= 4 && s.a.free != []
  {
    OwnedCounts(s, slots);
    hide Owned, OtherIds;
    var ids, onList := OtherIds(slots, empty), set x | x in s.a.free;
    forall x | x in s.refs.Keys - onList
      ensures x in ids
    {
      AwayIsHeld(s, slots, empty, x);
    }
    SubsetSize(s.refs.Keys - onList, set x | x in ids);
    SequenceBound(ids);
    assert s.refs.Keys == onList + (s.refs.Keys - onList);
  }

  lemma OwnedCounts(s: System<int>, slots: seq<Slot>)
    requires Owned(s, slots, None)
    ensures |slots| == 5 && s.a.nAllocated == |s.refs.Keys| == NUM_BUFFERS
    ensures (set x | x in s.a.free) <= s.refs.Keys && |set x | x in s.a.free| == |s.a.free|
  {
    hide Reachable, Signalled, Pinned, FlagsAgree;
    ReachableInvariant(s);
    SetOfSequence(s.a.free);
    assert |s.refs| == |s.refs.Keys|;
  }

  lemma TakenIsOwned(s: System<int>, slots: seq<Slot>)
    requires Owned(s, slots, None) && s.a.free != []
    ensures Owned(Buffered(s), slots, Some(s.a.free[0]))
    ensures !HeldBySome(slots, s.a.free[0])
  {
    hide Reachable, Quiet;
    BufferedByProtocol(s);
    QuietFacts(s);
  }

  /** Attaching the sample in hand to an empty pointer that carries its number. */
  lemma AttachedIsOwned(s: System<int>, slots: seq<Slot>, k: nat, x: int)
    requires Owned(s, slots, Some(x)) && k < 5 && slots[k].sample.None?
    ensures Owned(s, slots[k := Slot(Some(x), x)], None)
  {
    hide Reachable, Quiet;
    var t := slots[k := Slot(Some(x), x)];
    forall y | y in s.refs && s.refs[y] > 0
      ensures HeldBySome(t, y)
    {
      if y == x {
        assert t[k].sample == Some(y);
      } else {
        var i :| 0 <= i < 5 && slots[i].sample == Some(y);
        assert t[i].sample == Some(y);
      }
    }
  }

  /** Releasing one pointer. */
  lemma ReleasedIsOwned(s: System<int>, slots: seq<Slot>, k: nat)
    requires Owned(s, slots, None) && k < 5 && slots[k].sample.Some?
    ensures Owned(Released(s, slots[k].id), slots[k := slots[k].(sample := None)], None)
  {
    hide Reachable, Quiet;
    ReleasedByProtocol(s, slots[k].id);
    var t := slots[k := slots[k].(sample := None)];
    var n := Released(s, slots[k].id);
    forall y | y in n.refs && n.refs[y] > 0
      ensures HeldBySome(t, y)
    {
      var i :| 0 <= i < 5 && slots[i].sample == Some(y);
      assert t[i].sample == Some(y);
    }
  }

  /** The second reference pointer takes over the first, which is left with a new number. */
  lemma RotatedIsOwned(s: System<int>, slots: seq<Slot>, cur: int)
    requires Owned(s, slots, None) && slots[4].sample.None?
    ensures Owned(s, slots[4 := slots[3]][3 := Slot(None, cur)], None)
  {
    hide Reachable, Quiet;
    var t := slots[4 := slots[3]][3 := Slot(None, cur)];
    forall y | y in s.refs && s.refs[y] > 0
      ensures HeldBySome(t, y)
    {
      var i :| 0 <= i < 5 && slots[i].sample == Some(y);
      assert t[if i == 3 then 4 else i].sample == Some(y);
    }
  }

  /** The reference taken and given back for the first pointer leaves no trace. */
  lemma RotationIsOwned(s: System<int>, slots: seq<Slot>, cur: int)
    requires Owned(s, slots, None)
    ensures |slots| == 5
    ensures slots[3].sample.Some? ==> slots[3].id in s.refs && s.refs[slots[3].id] == 1
    ensures slots[4].sample.Some? ==> slots[4].id in s.refs && s.refs[slots[4].id] == 1
    ensures slots[3].sample.Some? && slots[4].sample.Some? ==> slots[3].id != slots[4].id
    ensures Owned(if slots[4].sample.Some? then Released(s, slots[4].id) else s,
                  slots[4 := slots[3]][3 := Slot(None, cur)], None)
  {
    hide Reachable, Quiet, HeldBySome;
    var emptied := slots[4 := slots[4].(sample := None)];
    if slots[4].sample.Some? {
      ReleasedIsOwned(s, slots, 4);
      RotatedIsOwned(Released(s, slots[4].id), emptied, cur);
    } else {
      assert emptied == slots;
      RotatedIsOwned(s, slots, cur);
    }
    assert emptied[4 := emptied[3]][3 := Slot(None, cur)] == slots[4 := slots[3]][3 := Slot(None, cur)];
  }

  /** The decoder's allocator with eight samples agreed and committed. */
  function Committed(made: seq<int>): System<int> {
    var agreed := Allocator.SetProperties(Initial<int>(Hardware), Properties(NUM_BUFFERS, 1, 1, 0), true).0;
    var committed := Allocator.Commit(agreed, Environment(true, made, true, true)).0;
    System(committed, map[0 := Idle], map x | x in made :: 0, 1, 0)
  }

  lemma StartIsOwned(made: seq<int>)
    requires NoDuplicates(made) && |made| == NUM_BUFFERS
    ensures Owned(Committed(made), seq(5, i => Slot(None, -1)), None)
  {
    hide Reachable;
    CommittedReachable(made);
    MadeOnce(made);
  }

  lemma CommittedReachable(made: seq<int>)
    requires NoDuplicates(made) && |made| == NUM_BUFFERS
    ensures Reachable(Committed(made))
  {
    hide Reachable;
    var s0 := System(Initial<int>(Hardware), map[0 := Idle], map[], 0, 0);
    StartReachable(s0);
    var agree: Action<int> := SetPropertiesSection(Properties(NUM_BUFFERS, 1, 1, 0), true);
    ReachableStep(s0, 0, agree);
    var s1 := Next(s0, 0, agree);
    var commit := CommitSection(Environment(true, made, true, true));
    ReachableStep(s1, 0, commit);
    assert Next(s1, 0, commit) == Committed(made);
  }

  // ----- runs of pictures

  /** A picture for buffer idx, what the calls around it answer, and the buffer to be shown after it. */
  datatype Coded = Coded(idx: nat, bPicture: bool, hasOutput: bool, viewReady: bool, decoded: bool,
                         display: Option<nat>)

  /** The buffer shown after the picture, if any. */
  function ShownBuffer(c: Coded): Option<nat> {
    if c.viewReady && c.decoded && c.hasOutput then c.display else None
  }

  /** Before picture i buffer b has been decoded into and not been shown since. */
  predicate Holding(run: seq<Coded>, i: nat, b: nat)
    requires i <= |run|
  {
    i > 0 && ShownBuffer(run[i - 1]) != Some(b) && (run[i - 1].idx == b || Holding(run, i - 1, b))
  }

  /** The surface of the latest picture before the i-th that was decoded into buffer b. */
  function SurfaceOf(run: seq<Coded>, surfaces: seq<int>, i: nat, b: nat): int
    requires i <= |run| && i <= |surfaces|
  {
    if i == 0 then -1 else if run[i - 1].idx == b then surfaces[i - 1] else SurfaceOf(run, surfaces, i - 1, b)
  }

  /** The surfaces of the latest two I or P pictures with output before the i-th. */
  function References(run: seq<Coded>, surfaces: seq<int>, i: nat): (int, int)
    requires i <= |run| && i <= |surfaces|
  {
    if i == 0 then (-1, -1)
    else
      var c, (ref0, ref1) := run[i - 1], References(run, surfaces, i - 1);
      if c.viewReady && !c.bPicture && c.hasOutput then (surfaces[i - 1], ref0) else (ref0, ref1)
  }

  /** Picture i's surface is neither reference and none that another buffer holds. */
  predicate IsFresh(run: seq<Coded>, surfaces: seq<int>, i: nat)
    requires i < |run| && i < |surfaces|
  {
    && surfaces[i] != References(run, surfaces, i).0 && surfaces[i] != References(run, surfaces, i).1
    && forall b :: 0 <= b < 3 && b != run[i].idx && Holding(run, i, b) ==>
         surfaces[i] != SurfaceOf(run, surfaces, i, b)
  }

  /** The pointers agree with the run so far. */
  predicate Tracks(run: seq<Coded>, surfaces: seq<int>, i: nat, samples: seq<Slot>, refs: Refs)
    requires i <= |run| && i <= |surfaces|
  {
    && |samples| == 3
    && (forall b :: 0 <= b < 3 ==> (samples[b].sample.Some? <==> Holding(run, i, b)))
    && (forall b :: 0 <= b < 3 && Holding(run, i, b) ==> samples[b].id == SurfaceOf(run, surfaces, i, b))
    && (refs.ref0.id, refs.ref1.id) == References(run, surfaces, i)
  }

  lemma {:induction false} SameSurfaces(run: seq<Coded>, surfaces: seq<int>, x: int, i: nat, b: nat)
    requires i <= |run| && i <= |surfaces|
    ensures SurfaceOf(run, surfaces + [x], i, b) == SurfaceOf(run, surfaces, i, b)
    ensures References(run, surfaces + [x], i) == References(run, surfaces, i)
  {
    if i > 0 {
      SameSurfaces(run, surfaces, x, i - 1, b);
    }
  }

  /** What a decoder may promise of the pictures of a run: one gets a new surface exactly when its buffer
      holds none, a new surface is fresh, and otherwise the buffer's surface is decoded into again. */
  ghost predicate WellDecoded(run: seq<Coded>, acquired: seq<bool>, surfaces: seq<int>) {
    && |acquired| == |surfaces| <= |run|
    && (forall i :: 0 <= i < |surfaces| ==> (acquired[i] <==> !Holding(run, i, run[i].idx)))
    && (forall i :: 0 <= i < |surfaces| && acquired[i] ==> IsFresh(run, surfaces, i))
    && (forall i :: 0 <= i < |surfaces| && !acquired[i] ==> surfaces[i] == SurfaceOf(run, surfaces, i, run[i].idx))
  }

  /** The picture after one that shows its buffer is decoded into a new surface, which is no reference. */
  lemma ShownBufferRefilled(run: seq<Coded>, acquired: seq<bool>, surfaces: seq<int>, i: nat)
    requires WellDecoded(run, acquired, surfaces) && i + 1 < |surfaces|
    requires var c := run[i];
             c.viewReady && c.decoded && c.hasOutput && c.display == Some(run[i + 1].idx)
    ensures acquired[i + 1]
    ensures surfaces[i + 1] != References(run, surfaces, i + 1).0
    ensures surfaces[i + 1] != References(run, surfaces, i + 1).1
  {
    assert IsFresh(run, surfaces, i + 1);
  }

  /** One more surface changes nothing said of the pictures before. */
  lemma EarlierAlike(run: seq<Coded>, surfaces: seq<int>, x: int, j: nat)
    requires j < |surfaces| < |run|
    ensures SurfaceOf(run, surfaces + [x], j, run[j].idx) == SurfaceOf(run, surfaces, j, run[j].idx)
    ensures IsFresh(run, surfaces + [x], j) <==> IsFresh(run, surfaces, j)
  {
    hide SurfaceOf, References, Holding;
    SameSurfaces(run, surfaces, x, j, run[j].idx);
    SameSurfaces(run, surfaces, x, j, 0);
    SameSurfaces(run, surfaces, x, j, 1);
    SameSurfaces(run, surfaces, x, j, 2);
  }

  lemma OneMoreDecoded(run: seq<Coded>, acquired: seq<bool>, surfaces: seq<int>, taken: bool, x: int)
    requires WellDecoded(run, acquired, surfaces) && |surfaces| < |run|
    requires var i := |surfaces|;
             && (taken <==> !Holding(run, i, run[i].idx))
             && (taken ==> IsFresh(run, surfaces + [x], i))
             && (!taken ==> x == SurfaceOf(run, surfaces + [x], i, run[i].idx))
    ensures WellDecoded(run, acquired + [taken], surfaces + [x])
  {
    hide SurfaceOf, References, Holding, IsFresh;
    forall j | 0 <= j < |surfaces|
      ensures SurfaceOf(run, surfaces + [x], j, run[j].idx) == SurfaceOf(run, surfaces, j, run[j].idx)
      ensures IsFresh(run, surfaces + [x], j) <==> IsFresh(run, surfaces, j)
    {
      EarlierAlike(run, surfaces, x, j);
    }
  }

  lemma NothingTracked(run: seq<Coded>, samples: seq<Slot>, refs: Refs)
    requires |samples| == 3 && (forall k :: 0 <= k < 3 ==> samples[k].sample.None?)
    requires refs.ref0.id == -1 == refs.ref1.id
    ensures Tracks(run, [], 0, samples, refs) && WellDecoded(run, [], [])
  {
  }

  /** What one picture does to the pointers, and what it means for the run. */
  lemma {:induction false} StepTracks(run: seq<Coded>, surfaces: seq<int>, i: nat, was: seq<Slot>, refs: Refs,
                                      now: seq<Slot>, newRefs: Refs, taken: bool, x: int)
    requires i == |surfaces| < |run| && run[i].idx < 3 && Tracks(run, surfaces, i, was, refs) && |now| == 3
    requires taken <==> was[run[i].idx].sample.None?
    requires taken ==> x != refs.ref0.id && x != refs.ref1.id
    requires taken ==> forall k :: 0 <= k < 3 && k != run[i].idx && was[k].sample.Some? ==> x != was[k].id
    requires !taken ==> x == was[run[i].idx].id
    requires now[run[i].idx].id == x
    requires forall k :: 0 <= k < 3 ==> (now[k].sample.Some? <==>
               Some(k) != ShownBuffer(run[i]) && (k == run[i].idx || was[k].sample.Some?))
    requires forall k :: 0 <= k < 3 && k != run[i].idx ==> now[k].id == was[k].id
    requires var rotated := run[i].viewReady && !run[i].bPicture && run[i].hasOutput;
             && newRefs.ref0.id == (if rotated then x else refs.ref0.id)
             && newRefs.ref1.id == (if rotated then refs.ref0.id else refs.ref1.id)
    ensures taken <==> !Holding(run, i, run[i].idx)
    ensures taken ==> IsFresh(run, surfaces + [x], i)
    ensures !taken ==> x == SurfaceOf(run, surfaces + [x], i, run[i].idx)
    ensures Tracks(run, surfaces + [x], i + 1, now, newRefs)
  {
    SameSurfaces(run, surfaces, x, i, 0);
    SameSurfaces(run, surfaces, x, i, 1);
    SameSurfaces(run, surfaces, x, i, 2);
  }

  /** The sample in hand is none that a pointer holds. */
  lemma NotInHand(s: System<int>, slots: seq<Slot>, x: int)
    requires Owned(s, slots, Some(x))
    ensures |slots| == 5 && forall k :: 0 <= k < 5 && slots[k].sample.Some? ==> x != slots[k].id
  {
    hide Reachable, Quiet;
  }

  class D3D11Surfaces {
    var allocator: System<int>
    var samples: seq<Slot>
    var refSamples: Refs
    var curSurfaceIndex: int

    function Slots(): seq<Slot>
      reads this
    {
      samples + [refSamples.ref0, refSamples.ref1]
    }

    ghost predicate Valid()
      reads this
    {
      |samples| == 3 && Owned(allocator, Slots(), None)
    }

    /** As DecodeFrame creates it on first use. */
    constructor (made: seq<int>)
      requires NoDuplicates(made) && |made| == 8
      ensures Valid() && allocator.a.nAllocated == 8 && Slots() == seq(5, _ => Slot(None, -1))
    {
      allocator := Committed(made);
      samples := [Slot(None, -1), Slot(None, -1), Slot(None, -1)];
      refSamples := Refs(Slot(None, -1), Slot(None, -1));
      curSurfaceIndex := -1;
      new;
      StartIsOwned(made);
      assert Slots() == seq(5, i => Slot(None, -1));
    }

    /** GetBuffer, QueryInterface for the surface interface, Release of the sample. */
    method TakeSample() returns (x: int)
      requires Valid() && allocator.a.free != []
      modifies this`allocator
      ensures x == old(allocator.a.free[0]) && allocator == Buffered(old(allocator))
    {
      hide Owned;
      x := allocator.a.free[0];
      allocator := Buffered(allocator);
      allocator := Referenced(allocator, x);
      allocator := Released(allocator, x);
      assert allocator.refs == Buffered(old(allocator)).refs;
    }

    method ConsiderSample(x: int) returns (done: bool)
      requires |samples| == 3 && Owned(allocator, Slots(), Some(x))
      modifies this`refSamples
      ensures Owned(allocator, Slots(), if done then Some(x) else None)
      ensures Acquisition(refSamples, if done then Some(x) else None) == Offer(old(refSamples), x)
    {
      done := false;
      if x == refSamples.ref0.id {
        AttachedIsOwned(allocator, Slots(), 3, x);
        refSamples := refSamples.(ref0 := Slot(Some(x), x));
        assert Slots() == old(Slots())[3 := Slot(Some(x), x)];
      } else if x == refSamples.ref1.id {
        AttachedIsOwned(allocator, Slots(), 4, x);
        refSamples := refSamples.(ref1 := Slot(Some(x), x));
        assert Slots() == old(Slots())[4 := Slot(Some(x), x)];
      } else {
        done := true;
      }
    }

    /** The acquisition loop. outstanding: for each request, the samples then away. */
    method AcquireSample(ghost idx: nat) returns (x: int, ghost offers: seq<int>, ghost outstanding: seq<int>)
      requires Valid() && idx < 3 && samples[idx].sample.None?
      modifies this`allocator, this`refSamples
      ensures samples == old(samples) && Owned(allocator, Slots(), Some(x))
      ensures Acquire(old(refSamples), offers) == Acquisition(refSamples, Some(x))
      ensures x != old(refSamples).ref0.id && x != old(refSamples).ref1.id
      ensures |outstanding| == |offers| <= 3
      ensures forall n :: n in outstanding ==> n <= 4
    {
      ghost var r := refSamples;
      assert HoldsOwn(Slots()[3]) && HoldsOwn(Slots()[4]);
      offers, outstanding := [], [];
      x := -1;
      var done := false;
      while !done
        invariant |samples| == 3 && samples == old(samples)
        invariant Owned(allocator, Slots(), if done then Some(x) else None)
        invariant Acquire(r, offers) == Acquisition(refSamples, if done then Some(x) else None)
        invariant NeverHeld(r, offers)
        invariant |outstanding| == |offers| && forall n :: n in outstanding ==> n <= 4
        invariant |offers| <= 3
        decreases 3 - |offers|, !done
      {
        TwoExtraRequestsSuffice(r, offers);
        OutstandingBound(allocator, Slots(), idx);
        TakenIsOwned(allocator, Slots());
        hide Owned, NeverHeld, Acquire;
        outstanding := outstanding + [Outstanding(allocator)];
        x := TakeSample();
        NotHeldByRefs(Slots(), x);
        AcquireOneMore(r, offers, x);
        offers := offers + [x];
        done := ConsiderSample(x);
      }
      KeepsReferences(r, offers);
    }

    /** Releasing m_Samples[k], as GetDisplayFrame does with the sample it has shown. */
    method ReleaseSample(k: nat)
      requires Valid() && k < 3
      modifies this`allocator, this`samples
      ensures Valid() && samples == old(samples)[k := old(samples)[k].(sample := None)]
    {
      var slot := samples[k];
      if slot.sample.Some? {
        assert slot == Slots()[k];
        ReleasedIsOwned(allocator, Slots(), k);
        allocator := Released(allocator, slot.id);
      }
      samples := samples[k := slot.(sample := None)];
      assert Slots() == old(Slots())[k := slot.(sample := None)];
      assert slot.sample.None? ==> Slots() == old(Slots());
    }

    /** m_RefSamples[1] = m_RefSamples[0]; then the first keeps only the new number. */
    method RotateReferences()
      requires Valid()
      modifies this`allocator, this`refSamples
      ensures Valid() && refSamples == Refs(Slot(None, curSurfaceIndex), old(refSamples).ref0)
    {
      hide Owned;
      var ref0, ref1 := refSamples.ref0, refSamples.ref1;
      assert ref0 == Slots()[3] && ref1 == Slots()[4];
      RotationIsOwned(allocator, Slots(), curSurfaceIndex);
      assert Slots()[4 := ref0][3 := Slot(None, curSurfaceIndex)] == samples + [Slot(None, curSurfaceIndex), ref0];
      if ref0.sample.Some? {
        allocator := Referenced(allocator, ref0.id);
      }
      if ref1.sample.Some? {
        allocator := Released(allocator, ref1.id);
      }
      if ref0.sample.Some? {
        allocator := Released(allocator, ref0.id);
      }
      refSamples := Refs(Slot(None, curSurfaceIndex), ref0);
      assert allocator.refs == (if ref1.sample.Some? then Released(old(allocator), ref1.id) else old(allocator)).refs;
    }

    /** DecodeFrame from the choice of the surface on. viewReady: the output view could be
        had; decoded: the decoder took the picture; display: the slot that GetDisplayFrame
        shows, if it shows one. */
    method DecodeFrame(idx: nat, bPicture: bool, hasOutput: bool, viewReady: bool, decoded: bool, display: Option<nat>)
      returns (ghost acquired: bool, ghost outstanding: seq<int>)
      requires Valid() && idx < 3 && (display.Some? ==> display.value < 3)
      modifies this
      ensures Valid()
      ensures acquired <==> old(samples)[idx].sample.None?
      ensures acquired ==> curSurfaceIndex != old(refSamples).ref0.id && curSurfaceIndex != old(refSamples).ref1.id
      ensures acquired ==>
                forall k :: 0 <= k < |old(samples)| && k != idx && old(samples)[k].sample.Some? ==>
                  curSurfaceIndex != old(samples)[k].id
      ensures !acquired ==> curSurfaceIndex == old(samples)[idx].id
      ensures |outstanding| <= 3 && forall n :: n in outstanding ==> n <= 4
      ensures samples[idx].id == curSurfaceIndex
      ensures var shown := if viewReady && decoded && hasOutput then display else None;
              && |samples| == 3 == |old(samples)|
              && (forall k :: 0 <= k < 3 ==> (samples[k].sample.Some? <==>
                    Some(k) != shown && (k == idx || old(samples)[k].sample.Some?)))
              && (forall k :: 0 <= k < 3 && k != idx ==>
                    samples[k].id == old(samples)[k].id && (Some(k) != shown ==> samples[k] == old(samples)[k]))
      ensures var rotated := viewReady && !bPicture && hasOutput;
              && refSamples.ref0.id == (if rotated then curSurfaceIndex else old(refSamples).ref0.id)
              && refSamples.ref1.id == (if rotated then old(refSamples).ref0.id else old(refSamples).ref1.id)
    {
      hide Owned, Acquire;
      acquired, outstanding := samples[idx].sample.None?, [];
      if samples[idx].sample.None? {
        var x;
        ghost var offers;
        x, offers, outstanding := AcquireSample(idx);
        KeepsReferenceNumbers(old(refSamples), offers);
        NotInHand(allocator, Slots(), x);
        assert forall k :: 0 <= k < 3 ==> Slots()[k] == samples[k];
        AttachedIsOwned(allocator, Slots(), idx, x);
        ghost var slots := Slots();
        samples := samples[idx := Slot(Some(x), x)];
        assert Slots() == slots[idx := Slot(Some(x), x)];
      }
      curSurfaceIndex := samples[idx].id;
      if !viewReady {
        return;
      }
      if decoded && hasOutput && display.Some? {
        ReleaseSample(display.value);
      }
      if !bPicture && hasOutput {
        RotateReferences();
      }
    }

    /** A run of pictures on a decoder that holds nothing yet. */
    method DecodeRun(run: seq<Coded>) returns (ghost acquired: seq<bool>, ghost surfaces: seq<int>)
      requires Valid() && (forall k :: 0 <= k < 3 ==> samples[k].sample.None?)
      requires refSamples.ref0.id == -1 == refSamples.ref1.id
      requires forall i :: 0 <= i < |run| ==> run[i].idx < 3 && (run[i].display.Some? ==> run[i].display.value < 3)
      modifies this
      ensures Valid() && |surfaces| == |run| && WellDecoded(run, acquired, surfaces)
    {
      hide Owned, Holding, SurfaceOf, References, IsFresh;
      acquired, surfaces := [], [];
      NothingTracked(run, samples, refSamples);
      hide Tracks, WellDecoded;
      for i := 0 to |run|
        invariant Valid() && |surfaces| == i
        invariant Tracks(run, surfaces, i, samples, refSamples) && WellDecoded(run, acquired, surfaces)
      {
        ghost var was, refs := samples, refSamples;
        var c := run[i];
        ghost var taken, outstanding;
        taken, outstanding := DecodeFrame(c.idx, c.bPicture, c.hasOutput, c.viewReady, c.decoded, c.display);
        StepTracks(run, surfaces, i, was, refs, samples, refSamples, taken, curSurfaceIndex);
        OneMoreDecoded(run, acquired, surfaces, taken, curSurfaceIndex);
        acquired, surfaces := acquired + [taken], surfaces + [curSurfaceIndex];
      }
    }
  }

  lemma {:induction false} KeepsReferenceNumbers(r: Refs, offers: seq<int>)
    ensures Acquire(r, offers).refs.ref0.id == r.ref0.id && Acquire(r, offers).refs.ref1.id == r.ref1.id
  {
    if offers != [] {
      KeepsReferenceNumbers(r, offers[..|offers| - 1]);
    }
  }

  lemma NotHeldByRefs(slots: seq<Slot>, x: int)
    requires |slots| == 5 && !HeldBySome(slots, x)
    ensures !Holds(slots[3], x) && !Holds(slots[4], x)
  {
  }
}
