/** The critical sections of CBaseAllocator and of the Alloc and Free overrides of
    CMemAllocator, CD3D11Allocator and CDXVA2Allocator, first as functions on the
    allocator's state and then as a class whose methods are proved against them. */
module Allocator {
  import opened Counting
  import opened SampleList

  const SEMAPHORE_MAX: int := 0x7FFF_FFFF

  /** Memory keeps its samples across Decommit; Hardware (D3D11, DXVA2) deletes them. */
  datatype Kind = Memory | Hardware

  datatype Properties = Properties(count: int, size: int, alignment: int, prefix: int)

  /** built: the properties the live samples were created with. */
  datatype State<S> = State(
    kind: Kind, committed: bool, decommitting: bool, changed: bool,
    agreed: Properties, built: Properties, nAllocated: int,
    waiting: int, semaphore: int, free: seq<S>)

  datatype GetResult<S> = NotCommitted | Sample(s: S) | MustWait

  datatype SetResult = Accepted | BadAlignment | AlreadyCommitted | BuffersOutstanding

  /** What the environment decides during Alloc: whether the device is there, the samples
      that could be made (in the order they end up on the free list), whether making them
      went through, and whether the filter accepts the surfaces. */
  datatype Environment<S> = Environment(device: bool, made: seq<S>, created: bool, accepted: bool)

  /** Whether an Alloc kept the live samples or replaced all of them. */
  datatype Live<S> = Kept | Replaced(samples: seq<S>)

  function Initial<S>(kind: Kind): State<S> {
    var none := Properties(0, 0, 0, 0);
    State(kind, false, false, false, none, none, 0, 0, 0, [])
  }

  // ----- the sections as functions

  /** NotifySample: all the waiters' units at once. ReleaseSemaphore leaves the count
      alone when it would pass the maximum; the waiters are forgotten either way. */
  function Notify<S>(a: State<S>): State<S> {
    if a.waiting == 0 then a
    else a.(semaphore := if a.semaphore + a.waiting <= SEMAPHORE_MAX then a.semaphore + a.waiting else a.semaphore,
            waiting := 0)
  }

  function FreeSamples<S>(a: State<S>): State<S> {
    if a.kind.Memory? then a else a.(free := [], nAllocated := 0)
  }

  function Get<S>(a: State<S>): (State<S>, GetResult<S>) {
    if !a.committed then (a, NotCommitted)
    else if a.free != [] then (a.(free := a.free[1..]), Sample(a.free[0]))
    else (a.(waiting := a.waiting + 1), MustWait)
  }

  /** The boolean is bRelease: the allocator lets go of its own reference afterwards. */
  function Release<S>(a: State<S>, s: S): (State<S>, bool) {
    var b := Notify(a.(free := [s] + a.free));
    if b.decommitting && |b.free| == b.nAllocated then
      (FreeSamples(b).(decommitting := false), true)
    else
      (b, false)
  }

  function Decommit<S>(a: State<S>): (State<S>, bool) {
    if !a.committed && !a.decommitting then (a, false)
    else if |a.free| < a.nAllocated then
      (Notify(a.(committed := false, decommitting := true)), false)
    else
      (Notify(FreeSamples(a.(committed := false, decommitting := false))), true)
  }

  predicate SizeSet(p: Properties) { p.count > 0 && p.size > 0 && p.alignment > 0 }

  function Alloc<S>(a: State<S>, env: Environment<S>): (State<S>, bool, Live<S>) {
    if a.kind.Hardware? && !env.device then (a, false, Kept)
    else if !SizeSet(a.agreed) then (a, false, Kept)
    else if a.kind.Memory? then
      if !a.changed then (a, true, Kept)
      else
        var b := a.(free := env.made, nAllocated := |env.made|, built := a.agreed);
        if |env.made| == a.agreed.count then (b.(changed := false), true, Replaced(env.made))
        else (b, false, Replaced(env.made))
    else if !env.created then (a.(free := [], nAllocated := 0), false, Replaced([]))
    else
      var b := a.(free := env.made, nAllocated := a.agreed.count, built := a.agreed);
      (b.(changed := if env.accepted then false else b.changed), env.accepted, Replaced(env.made))
  }

  /** A successful fresh commit is the one case that takes the self-reference. */
  function Commit<S>(a: State<S>, env: Environment<S>): (State<S>, bool, Live<S>) {
    if a.committed then (a, true, Kept)
    else if a.decommitting then (a.(committed := true, decommitting := false), true, Kept)
    else
      var (b, ok, live) := Alloc(a, env);
      (b.(committed := ok), ok, live)
  }

  function RemainderTowardZero(n: int, m: int): int
    requires m != 0
  {
    if n < 0 then -((-n) % m) else n % m
  }

  /** The memory allocator rounds the size up to the alignment, prefix included. */
  function AgreedProperties(kind: Kind, request: Properties): Properties
    requires request.alignment != 0
  {
    if kind.Hardware? then request
    else
      var size := request.size + request.prefix;
      var r := RemainderTowardZero(size, request.alignment);
      request.(size := (if r != 0 then size - r + request.alignment else size) - request.prefix)
  }

  /** alignmentOk: the platform's allocation granularity is a multiple of the alignment. */
  function SetProperties<S>(a: State<S>, request: Properties, alignmentOk: bool): (State<S>, SetResult) {
    var badAlignment := if a.kind.Hardware? then request.alignment != 1 else request.alignment == 0 || !alignmentOk;
    var outstanding := if a.kind.Hardware? then a.nAllocated != |a.free| else |a.free| < a.nAllocated;
    if badAlignment then (a, BadAlignment)
    else if a.committed then (a, AlreadyCommitted)
    else if outstanding then (a, BuffersOutstanding)
    else (a.(agreed := AgreedProperties(a.kind, request), changed := true), Accepted)
  }

  // ----- what the sections come to

  lemma RoundedUp(n: int, m: int)
    requires m > 0
    ensures var r := RemainderTowardZero(n, m);
            var size := if r != 0 then n - r + m else n;
            size % m == 0 && n <= size && (n >= 0 ==> size < n + m)
  {
    var q, e := n / m, n % m;
    assert n == q * m + e;
    if n >= 0 {
      MultipleOf(q, m);
      MultipleOf(q + 1, m);
      assert (q + 1) * m == q * m + m;
    } else {
      var q', e' := (-n) / m, (-n) % m;
      assert -n == q' * m + e';
      assert (-q') * m == -(q' * m) && (1 - q') * m == m - q' * m;
      MultipleOf(-q', m);
      MultipleOf(1 - q', m);
    }
  }

  lemma MultipleOf(q: int, m: int)
    requires m > 0
    ensures q * m % m == 0
  {
    var d := q - q * m / m;
    assert q * m == q * m / m * m + q * m % m;
    assert 0 <= d * m < m;
    assert d <= 0 by {
      assert d >= 1 ==> d * m >= m;
    }
    assert d >= 0 by {
      assert d <= -1 ==> d * m <= -m;
    }
  }

  /** Accepted properties are those requested, except that memory sizes are rounded up: to the least size
      that makes whole units together with the prefix. */
  lemma AgreedAsRequested<S>(a: State<S>, request: Properties, alignmentOk: bool)
    requires SetProperties(a, request, alignmentOk).1.Accepted?
    ensures var b := SetProperties(a, request, alignmentOk).0;
            && b.changed && b.(agreed := a.agreed, changed := a.changed) == a
            && b.agreed.count == request.count
            && b.agreed.alignment == request.alignment && b.agreed.prefix == request.prefix
            && (a.kind.Hardware? ==> b.agreed.size == request.size)
            && (a.kind.Memory? && request.alignment > 0 ==>
                  && (b.agreed.size + b.agreed.prefix) % b.agreed.alignment == 0
                  && request.size <= b.agreed.size
                  && (request.size + request.prefix >= 0 ==> b.agreed.size < request.size + request.alignment))
  {
    if a.kind.Memory? && request.alignment > 0 {
      RoundedUp(request.size + request.prefix, request.alignment);
    }
    hide RemainderTowardZero;
  }

  /** The reasons for a refusal, in their order; nothing changes then. */
  lemma RefusedProperties<S>(a: State<S>, request: Properties, alignmentOk: bool)
    ensures var (b, result) := SetProperties(a, request, alignmentOk);
            && (result.BadAlignment? <==>
                  if a.kind.Hardware? then request.alignment != 1 else request.alignment == 0 || !alignmentOk)
            && (result.AlreadyCommitted? <==> !result.BadAlignment? && a.committed)
            && (result.BuffersOutstanding? ==> !a.committed && |a.free| != a.nAllocated)
            && (!result.Accepted? ==> b == a)
  {
    hide AgreedProperties;
  }

  /** A fresh commit: when it succeeds, and with which samples. Memory is kept when the properties are those
      it was made for; surfaces are always made anew. */
  lemma FreshCommit<S>(a: State<S>, env: Environment<S>)
    requires !a.committed && !a.decommitting
    ensures var (b, ok, live) := Commit(a, env);
            && (ok <==> b.committed)
            && (ok <==>
                  && a.agreed.count > 0 && a.agreed.size > 0 && a.agreed.alignment > 0
                  && if a.kind.Memory? then !a.changed || |env.made| == a.agreed.count
                     else env.device && env.created && env.accepted)
            && (ok ==> !b.changed && b.free == if a.kind.Memory? && !a.changed then a.free else env.made)
            && (b.changed ==> a.changed)
  {
  }

  // ----- the class

  class BaseAllocator {
    const kind: Kind
    const free: SampleList
    var committed: bool
    var decommitting: bool
    var changed: bool
    var agreed: Properties
    ghost var built: Properties
    var nAllocated: int
    var waiting: int
    var semaphore: int

    ghost predicate Valid()
      reads this, free, free.Contents
    {
      free.Valid()
    }

    ghost function View(): State<MediaSample>
      reads this, free
    {
      State(kind, committed, decommitting, changed, agreed, built, nAllocated, waiting, semaphore, free.Contents)
    }

    constructor (kind: Kind)
      ensures Valid() && fresh(free) && View() == Initial(kind)
    {
      this.kind := kind;
      free := new SampleList();
      committed, decommitting, changed := false, false, false;
      agreed := Properties(0, 0, 0, 0);
      built := Properties(0, 0, 0, 0);
      nAllocated, waiting, semaphore := 0, 0, 0;
    }

    method NotifySample()
      requires Valid()
      modifies this`waiting, this`semaphore
      ensures Valid() && View() == Notify(old(View()))
    {
      if waiting != 0 {
        if semaphore + waiting <= SEMAPHORE_MAX {
          semaphore := semaphore + waiting;
        }
        waiting := 0;
      }
    }

    /** The locked part of one turn of GetBuffer's loop. */
    method GetBufferSection() returns (isCommitted: bool, sample: MediaSample?)
      requires Valid()
      modifies this, free
      ensures Valid()
      ensures var (a, result) := Get(old(View()));
              && View() == a
              && isCommitted == !result.NotCommitted?
              && sample == if result.Sample? then result.s else null
    {
      isCommitted, sample := committed, null;
      if committed {
        sample := free.RemoveHead();
        if sample == null {
          waiting := waiting + 1;
        }
      }
    }

    method DrainFreeList()
      requires Valid()
      modifies this, free
      ensures Valid() && View() == old(View()).(free := [], nAllocated := 0)
    {
      var sample := free.RemoveHead();
      while sample != null
        invariant Valid() && (sample == null ==> free.Contents == [])
        invariant View() == old(View()).(free := free.Contents)
        decreases |free.Contents|, sample != null
      {
        sample := free.RemoveHead();
      }
      nAllocated := 0;
    }

    method Free()
      requires Valid()
      modifies this, free
      ensures Valid() && View() == FreeSamples(old(View()))
    {
      if kind.Hardware? {
        DrainFreeList();
      }
    }

    method ReleaseBufferSection(sample: MediaSample) returns (release: bool)
      requires Valid() && sample !in free.Contents
      modifies this, free, sample`next
      ensures Valid() && (View(), release) == Release(old(View()), sample)
    {
      release := false;
      free.Add(sample);
      if waiting != 0 {
        NotifySample();
      }
      if decommitting && free.nOnList == nAllocated {
        Free();
        decommitting := false;
        release := true;
      }
    }

    method DecommitSection() returns (release: bool)
      requires Valid()
      modifies this, free
      ensures Valid() && (View(), release) == Decommit(old(View()))
    {
      release := false;
      if !committed && !decommitting {
        return;
      }
      committed := false;
      if free.nOnList < nAllocated {
        decommitting := true;
      } else {
        decommitting := false;
        Free();
        release := true;
      }
      NotifySample();
    }

    /** Makes samples one by one, up to the agreed count or until making one fails. */
    method MakeSamples(makeable: nat) returns (ghost made: seq<MediaSample>)
      requires Valid() && free.Contents == []
      modifies free
      ensures Valid() && View() == old(View()).(free := made)
      ensures |made| == if makeable < agreed.count then makeable else if agreed.count < 0 then 0 else agreed.count
      ensures forall s :: s in made ==> fresh(s)
    {
      var n := 0;
      while n < agreed.count && n < makeable
        invariant 0 <= n <= makeable && (n <= agreed.count || n == 0)
        invariant Valid() && |free.Contents| == n
        invariant forall s :: s in free.Contents ==> fresh(s)
      {
        var sample := new MediaSample();
        free.Add(sample);
        n := n + 1;
      }
      made := free.Contents;
    }

    method AllocMemory(makeable: nat) returns (ok: bool, ghost made: seq<MediaSample>)
      requires Valid() && kind.Memory?
      modifies this, free
      ensures Valid() && NoDuplicates(made)
      ensures forall s :: s in made ==> fresh(s)
      ensures var r := Alloc(old(View()), Environment(true, made, true, true)); View() == r.0 && ok == r.1
    {
      made := [];
      if !SizeSet(agreed) {
        return false, [];
      }
      if !changed {
        return true, [];
      }
      DrainFreeList();
      made := MakeSamples(makeable);
      nAllocated := free.nOnList;
      built := agreed;
      ok := nAllocated == agreed.count;
      if ok {
        changed := false;
      }
    }

    method AllocHardware(device: bool, makeable: nat, created: bool, accepted: bool)
      returns (ok: bool, ghost env: Environment<MediaSample>)
      requires Valid() && kind.Hardware?
      modifies this, free
      ensures Valid() && NoDuplicates(env.made) && env.device == device
      ensures env.created ==> |env.made| == old(agreed).count
      ensures forall s :: s in env.made ==> fresh(s)
      ensures var r := Alloc(old(View()), env); View() == r.0 && ok == r.1
    {
      env := Environment(device, [], false, accepted);
      if !device || !SizeSet(agreed) {
        return false, env;
      }
      DrainFreeList();
      ghost var made := MakeSamples(makeable);
      if free.nOnList == agreed.count && created {
        env := Environment(device, made, true, accepted);
        nAllocated := agreed.count;
        built := agreed;
        ok := accepted;
        if ok {
          changed := false;
        }
      } else {
        DrainFreeList();
        ok := false;
      }
    }

    method CommitSection(device: bool, makeable: nat, created: bool, accepted: bool)
      returns (ok: bool, ghost env: Environment<MediaSample>)
      requires Valid()
      modifies this, free
      ensures Valid() && NoDuplicates(env.made)
      ensures env.created && kind.Hardware? && !old(committed) && !old(decommitting) ==> |env.made| == old(agreed).count
      ensures forall s :: s in env.made ==> fresh(s)
      ensures var r := Commit(old(View()), env); View() == r.0 && ok == r.1
    {
      env := Environment(device, [], false, accepted);
      if committed {
        return true, env;
      }
      committed := true;
      if decommitting {
        decommitting := false;
        return true, env;
      }
      if kind.Memory? {
        ghost var made;
        ok, made := AllocMemory(makeable);
        env := Environment(true, made, true, true);
      } else {
        ok, env := AllocHardware(device, makeable, created, accepted);
      }
      if !ok {
        committed := false;
      }
    }

    method SetPropertiesSection(request: Properties, alignmentOk: bool) returns (result: SetResult)
      requires Valid()
      modifies this
      ensures Valid() && (View(), result) == SetProperties(old(View()), request, alignmentOk)
    {
      if kind.Hardware? {
        if request.alignment != 1 { return BadAlignment; }
        if committed { return AlreadyCommitted; }
        if nAllocated != free.nOnList { return BuffersOutstanding; }
      } else {
        if request.alignment == 0 || !alignmentOk { return BadAlignment; }
        if committed { return AlreadyCommitted; }
        if free.nOnList < nAllocated { return BuffersOutstanding; }
      }
      agreed := AgreedProperties(kind, request);
      changed := true;
      result := Accepted;
    }
  }
}
