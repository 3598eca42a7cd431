/** The DXVA deinterlacer's processor, window of reference samples and surface pool
    (src/Deinterlace_DXVA.cpp:211-214, 240-275, 386-404, 423-630). Direct3D calls are inputs: what
    opening a processor delivers, whether the surface could be locked, and whether the blit and the
    copy out of it succeeded. */
module DeinterlaceDXVA {
  import opened Counting
  import opened Options

  datatype Sample<S> = Sample(surface: S, start: int, end: int, topFieldFirst: bool)

  /** A sample as passed to the video processor, with its frame number. */
  datatype Shown<S> = Shown(sample: Sample<S>, number: int)

  datatype Result<S> = Skip | NoSurface | Frame(target: int, shown: seq<Shown<S>>, output: S, start: int, end: int)

  datatype Pool<S> = Pool(surfaces: seq<S>, backward: nat, forward: nat, refs: seq<Sample<S>>, frameNumber: int)

  /** What OpenProcessor comes back with: the driver's needs and the surfaces it created. */
  datatype Opening<S> = CouldNotOpen | Created(backward: nat, forward: nat, surfaces: seq<S>)

  datatype Processor<S> = Processor(width: int, height: int, pool: Pool<S>)

  datatype Device<S> = Device(processor: Option<Processor<S>>, failed: bool)

  /** One call: the size asked for, what opening would deliver, the picture, and what Direct3D answers. */
  datatype Call<S> = Call(width: int, height: int, opening: Opening<S>, start: int, end: int, topFieldFirst: bool,
                          locked: bool, blitted: bool)

  // ----- one call on an open processor

  /** The first surface from i on that no reference sample uses. */
  function FreeFrom<S(==)>(p: Pool<S>, i: nat): Option<S>
    requires i <= |p.surfaces|
    decreases |p.surfaces| - i
  {
    if i == |p.surfaces| then None
    else if exists j :: 0 <= j < |p.refs| && p.refs[j].surface == p.surfaces[i] then FreeFrom(p, i + 1)
    else Some(p.surfaces[i])
  }

  function FreeSurface<S(==)>(p: Pool<S>): Option<S> {
    if |p.surfaces| == 0 then None else FreeFrom(p, 1)
  }

  function Popped<S>(p: Pool<S>): Pool<S> {
    if |p.refs| == p.backward + p.forward + 1 then p.(refs := p.refs[1..]) else p
  }

  /** The samples this call adds to the window: one, or none if no surface could be filled. */
  function Pushed<S(==)>(p: Pool<S>, c: Call<S>): seq<Sample<S>> {
    var free := FreeSurface(Popped(p));
    if free.Some? && c.locked then [Sample(free.value, c.start, c.end, c.topFieldFirst)] else []
  }

  function BackwardSamples<S>(p: Pool<S>): nat {
    if |p.refs| > p.forward + 1 then |p.refs| - (p.forward + 1) else 0
  }

  function Shows<S>(p: Pool<S>): seq<Shown<S>> {
    seq(|p.refs|, i requires 0 <= i < |p.refs| => Shown(p.refs[i], p.frameNumber + i - BackwardSamples(p)))
  }

  function Produce<S>(p: Pool<S>, blitted: bool): Result<S>
    requires |p.refs| > p.forward && |p.surfaces| > 0
  {
    if !blitted then Skip
    else
      var sample := p.refs[|p.refs| - 1 - p.forward];
      Frame(p.frameNumber, Shows(p), p.surfaces[0], sample.start, sample.end)
  }

  function Serve<S(==)>(p: Pool<S>, c: Call<S>): (Pool<S>, Result<S>) {
    var q := Popped(p);
    if FreeSurface(q).None? then (q, NoSurface)
    else
      var r := q.(refs := q.refs + Pushed(p, c));
      if !c.locked || |r.refs| <= r.forward then (r, Skip)
      else
        var n := r.(frameNumber := r.frameNumber + 1);
        (n, Produce(n, c.blitted))
  }

  // ----- opening

  function Opened<S>(backward: nat, forward: nat, created: seq<S>): Pool<S> {
    Pool(created, backward, forward, [], 0)
  }

  predicate NeedsOpening<S>(d: Device<S>, c: Call<S>) {
    d.processor.None? || d.processor.value.width != c.width || d.processor.value.height != c.height
  }

  function Open<S>(width: int, height: int, opening: Opening<S>, failed: bool): Device<S> {
    match opening
    case CouldNotOpen => Device(None, true)
    case Created(backward, forward, surfaces) =>
      Device(Some(Processor(width, height, Opened(backward, forward, surfaces))), failed)
  }

  /** The device the call works on: opened anew if need be, but never again after a failure. */
  function Ready<S>(d: Device<S>, c: Call<S>): Device<S> {
    if NeedsOpening(d, c) && !d.failed then Open(c.width, c.height, c.opening, false) else d
  }

  function GetFrame<S(==)>(d: Device<S>, c: Call<S>): (Device<S>, Result<S>) {
    var e := Ready(d, c);
    if NeedsOpening(e, c) then (e, Skip)
    else
      var (pool, result) := Serve(e.processor.value.pool, c);
      (e.(processor := Some(e.processor.value.(pool := pool))), result)
  }

  // ----- the class

  class VideoDeinterlacer<S(==)> {
    var open: bool
    var surfaces: seq<S>
    var backwardRefSamples: nat
    var forwardRefSamples: nat
    var refSamples: seq<Sample<S>>
    var frameNumber: int
    var width: int
    var height: int
    var openFailed: bool

    ghost function PoolView(): Pool<S>
      reads this
    {
      Pool(surfaces, backwardRefSamples, forwardRefSamples, refSamples, frameNumber)
    }

    ghost function View(): Device<S>
      reads this
    {
      Device(if open then Some(Processor(width, height, PoolView())) else None, openFailed)
    }

    constructor ()
      ensures View() == Device(None, false)
    {
      open, openFailed, surfaces, refSamples := false, false, [], [];
      backwardRefSamples, forwardRefSamples, frameNumber, width, height := 0, 0, 0, 0, 0;
    }

    /** Initialize, where the Direct3D objects are to be had: opening is tried again. */
    method Initialize()
      modifies this`openFailed
      ensures View() == old(View()).(failed := false)
    {
      openFailed := false;
    }

    method Close()
      modifies this`open, this`surfaces, this`refSamples
      ensures !open && surfaces == [] && refSamples == []
    {
      open, surfaces, refSamples := false, [], [];
    }

    method OpenProcessor(newWidth: int, newHeight: int, opening: Opening<S>) returns (ok: bool)
      modifies this
      ensures ok <==> opening.Created?
      ensures View() == Open(newWidth, newHeight, opening, old(openFailed))
    {
      Close();
      match opening
      case CouldNotOpen =>
        openFailed := true;
        ok := false;
      case Created(backward, forward, created) =>
        open, backwardRefSamples, forwardRefSamples, surfaces := true, backward, forward, created;
        width, height, frameNumber := newWidth, newHeight, 0;
        ok := true;
    }

    method GetFreeSurface() returns (surface: Option<S>)
      ensures surface == FreeSurface(PoolView())
    {
      var i := 1;
      while i < |surfaces|
        invariant |surfaces| > 0 ==> i <= |surfaces| && FreeSurface(PoolView()) == FreeFrom(PoolView(), i)
      {
        var used := false;
        var j := 0;
        while j < |refSamples|
          invariant 0 <= j <= |refSamples|
          invariant !used && forall k :: 0 <= k < j ==> refSamples[k].surface != surfaces[i]
        {
          if refSamples[j].surface == surfaces[i] {
            used := true;
            break;
          }
          j := j + 1;
        }
        if !used {
          return Some(surfaces[i]);
        }
        i := i + 1;
      }
      surface := None;
    }

    method GetNextFrame(c: Call<S>) returns (result: Result<S>)
      requires open ==> |surfaces| > 0
      requires c.opening.Created? ==> |c.opening.surfaces| > 0
      modifies this
      ensures (View(), result) == GetFrame(old(View()), c)
    {
      hide Serve;
      if !open || width != c.width || height != c.height {
        if openFailed {
          return Skip;
        }
        var ok := OpenProcessor(c.width, c.height, c.opening);
        if !ok {
          return Skip;
        }
      }
      result := ServeFrame(c);
    }

    /** The rest of a call, on an open processor. */
    method ServeFrame(c: Call<S>) returns (result: Result<S>)
      requires |surfaces| > 0
      modifies this`refSamples, this`frameNumber
      ensures (PoolView(), result) == Serve(old(PoolView()), c)
    {
      hide FreeSurface, Shows;
      if |refSamples| == backwardRefSamples + forwardRefSamples + 1 {
        refSamples := refSamples[1..];
      }
      assert PoolView() == Popped(old(PoolView()));
      var surface := GetFreeSurface();
      if surface.None? {
        return NoSurface;
      }
      if !c.locked {
        assert refSamples + [] == refSamples;
        return Skip;
      }
      refSamples := refSamples + [Sample(surface.value, c.start, c.end, c.topFieldFirst)];
      if |refSamples| <= forwardRefSamples {
        return Skip;
      }
      frameNumber := frameNumber + 1;
      var shown := ShowSamples();
      if !c.blitted {
        return Skip;
      }
      var sample := refSamples[|refSamples| - 1 - forwardRefSamples];
      result := Frame(frameNumber, shown, surfaces[0], sample.start, sample.end);
    }

    /** The sample descriptions handed to VideoProcessBlt. */
    method ShowSamples() returns (shown: seq<Shown<S>>)
      ensures shown == Shows(PoolView())
    {
      var backward := 0;
      if |refSamples| > forwardRefSamples + 1 {
        backward := |refSamples| - (forwardRefSamples + 1);
      }
      shown := [];
      for i := 0 to |refSamples|
        invariant backward == BackwardSamples(PoolView())
        invariant shown == Shows(PoolView())[..i]
      {
        shown := shown + [Shown(refSamples[i], frameNumber + i - backward)];
      }
    }
  }

  // ----- whole runs

  function After<S(==)>(calls: seq<Call<S>>): Device<S> {
    if calls == [] then Device(None, false) else GetFrame(After(calls[..|calls| - 1]), calls[|calls| - 1]).0
  }

  /** What a call stores in its processor's window. */
  function StoredBy<S(==)>(d: Device<S>, c: Call<S>): seq<Sample<S>> {
    var e := Ready(d, c);
    if NeedsOpening(e, c) then [] else Pushed(e.processor.value.pool, c)
  }

  /** Every sample stored since the processor was last opened, oldest first. */
  function Stored<S(==)>(calls: seq<Call<S>>): seq<Sample<S>> {
    if calls == [] then []
    else
      var before, c := calls[..|calls| - 1], calls[|calls| - 1];
      (if NeedsOpening(After(before), c) then [] else Stored(before)) + StoredBy(After(before), c)
  }

  function Surfaces<S>(refs: seq<Sample<S>>): seq<S> {
    seq(|refs|, i requires 0 <= i < |refs| => refs[i].surface)
  }

  ghost predicate SurfacesDistinct<S>(p: Pool<S>) {
    && |p.surfaces| > 0 && NoDuplicates(p.surfaces) && NoDuplicates(Surfaces(p.refs))
    && forall j :: 0 <= j < |p.refs| ==> p.refs[j].surface in p.surfaces[1..]
  }

  /** The window holds the latest samples, and frame numbers count the samples past the look-ahead. */
  ghost predicate LatestSamples<S>(p: Pool<S>, all: seq<Sample<S>>) {
    && |p.refs| <= |all| && p.refs == all[|all| - |p.refs|..]
    && |p.refs| <= p.backward + p.forward + 1
    && (|p.refs| == |all| || |p.refs| >= p.backward + p.forward)
    && p.frameNumber == if |all| > p.forward then |all| - p.forward else 0
  }

  ghost predicate Good<S>(p: Pool<S>, all: seq<Sample<S>>) {
    |p.surfaces| == p.backward + p.forward + 2 && SurfacesDistinct(p) && LatestSamples(p, all)
  }

  lemma {:induction false} FreeFromExact<S>(p: Pool<S>, i: nat)
    requires i <= |p.surfaces|
    ensures FreeFrom(p, i).Some? ==>
            FreeFrom(p, i).value in p.surfaces[i..] && FreeFrom(p, i).value !in Surfaces(p.refs)
    ensures FreeFrom(p, i).None? ==> forall k :: i <= k < |p.surfaces| ==> p.surfaces[k] in Surfaces(p.refs)
    decreases |p.surfaces| - i
  {
    if i < |p.surfaces| {
      FreeFromExact(p, i + 1);
      if j :| 0 <= j < |p.refs| && p.refs[j].surface == p.surfaces[i] {
        assert Surfaces(p.refs)[j] == p.surfaces[i];
      } else {
        assert p.surfaces[i] == p.surfaces[i..][0];
      }
    }
  }

  /** The pigeonhole argument: with at most B + F samples held, one of the B + F + 1 input surfaces is free. */
  lemma FreeSurfaceFound<S>(p: Pool<S>)
    requires |p.surfaces| == p.backward + p.forward + 2 && SurfacesDistinct(p)
    requires |p.refs| <= p.backward + p.forward
    ensures FreeSurface(p).Some? && FreeSurface(p).value in p.surfaces[1..]
    ensures FreeSurface(p).value !in Surfaces(p.refs)
  {
    FreeFromExact(p, 1);
    if FreeSurface(p).None? {
      var inputs, used := p.surfaces[1..], Surfaces(p.refs);
      SetOfSequence(inputs);
      SetOfSequence(used);
      SubsetSize(set x | x in inputs, set x | x in used);
    }
  }

  lemma PoppedGood<S>(p: Pool<S>, all: seq<Sample<S>>)
    requires Good(p, all)
    ensures Good(Popped(p), all) && |Popped(p).refs| <= p.backward + p.forward
    ensures |all| >= p.backward + p.forward ==> |Popped(p).refs| >= p.backward + p.forward
  {
    if |p.refs| == p.backward + p.forward + 1 {
      assert Surfaces(p.refs[1..]) == Surfaces(p.refs)[1..];
    }
  }

  lemma PushedDistinct<S>(p: Pool<S>, s: Sample<S>, n: int)
    requires SurfacesDistinct(p) && s.surface in p.surfaces[1..] && s.surface !in Surfaces(p.refs)
    ensures SurfacesDistinct(p.(refs := p.refs + [s], frameNumber := n))
  {
    assert Surfaces(p.refs + [s]) == Surfaces(p.refs) + [s.surface];
    hide Surfaces;
  }

  lemma PushedLatest<S>(p: Pool<S>, all: seq<Sample<S>>, s: Sample<S>, n: int)
    requires LatestSamples(p, all) && |p.refs| <= p.backward + p.forward
    requires |all| >= p.backward + p.forward ==> |p.refs| >= p.backward + p.forward
    requires n == p.frameNumber + if |p.refs| < p.forward then 0 else 1
    ensures LatestSamples(p.(refs := p.refs + [s], frameNumber := n), all + [s])
  {
    assert all[|all| - |p.refs|..] + [s] == (all + [s])[|all| - |p.refs|..];
  }

  lemma StepGood<S>(p: Pool<S>, all: seq<Sample<S>>, c: Call<S>)
    requires Good(p, all)
    ensures Good(Serve(p, c).0, all + Pushed(p, c))
    ensures FreeSurface(Popped(p)).Some?
  {
    hide SurfacesDistinct, LatestSamples, FreeFrom;
    var q := Popped(p);
    PoppedGood(p, all);
    FreeSurfaceFound(q);
    if c.locked {
      var s, n := Pushed(p, c)[0], q.frameNumber + if |q.refs| < q.forward then 0 else 1;
      PushedDistinct(q, s, n);
      PushedLatest(q, all, s, n);
    } else {
      assert q.refs + [] == q.refs && all + [] == all;
    }
  }

  lemma OpenedGood<S>(backward: nat, forward: nat, created: seq<S>)
    requires |created| == backward + forward + 2 && NoDuplicates(created)
    ensures Good(Opened(backward, forward, created), [])
  {
  }

  /** The surfaces a processor creates are as many as it needs, all different. */
  predicate GoodOpening<S(==)>(o: Opening<S>) {
    o.Created? ==> |o.surfaces| == o.backward + o.forward + 2 && NoDuplicates(o.surfaces)
  }

  ghost predicate DeviceGood<S>(d: Device<S>, all: seq<Sample<S>>) {
    && (d.failed ==> d.processor.None?)
    && (d.processor.Some? ==> Good(d.processor.value.pool, all))
  }

  lemma ReadyGood<S>(d: Device<S>, all: seq<Sample<S>>, c: Call<S>)
    requires DeviceGood(d, all) && GoodOpening(c.opening)
    ensures var e := Ready(d, c);
            && DeviceGood(e, if NeedsOpening(d, c) then [] else all)
            && (e.processor.Some? <==> !NeedsOpening(e, c))
  {
    hide Good;
    if c.opening.Created? {
      OpenedGood(c.opening.backward, c.opening.forward, c.opening.surfaces);
    }
  }

  lemma CallGood<S>(d: Device<S>, all: seq<Sample<S>>, c: Call<S>)
    requires DeviceGood(d, all) && GoodOpening(c.opening)
    ensures DeviceGood(GetFrame(d, c).0, (if NeedsOpening(d, c) then [] else all) + StoredBy(d, c))
  {
    hide Good, Serve, Pushed, Ready;
    ReadyGood(d, all, c);
    var e := Ready(d, c);
    if e.processor.Some? {
      StepGood(e.processor.value.pool, if NeedsOpening(d, c) then [] else all, c);
    }
  }

  lemma {:induction false} AlwaysGood<S>(calls: seq<Call<S>>)
    requires forall k :: 0 <= k < |calls| ==> GoodOpening(calls[k].opening)
    ensures DeviceGood(After(calls), Stored(calls))
  {
    if calls == [] {
    } else {
      var before := calls[..|calls| - 1];
      AlwaysGood(before);
      CallGood(After(before), Stored(before), calls[|calls| - 1]);
      hide DeviceGood, GetFrame, StoredBy, GoodOpening;
    }
  }

  lemma ShownNumbers<S>(q: Pool<S>, now: seq<Sample<S>>)
    requires LatestSamples(q, now) && |q.refs| > q.forward
    ensures forall i :: 0 <= i < |q.refs| ==>
              Shows(q)[i] == Shown(now[|now| - |q.refs| + i], |now| - |q.refs| + i + 1)
  {
    var n := |now| - |q.refs|;
    forall i | 0 <= i < |q.refs|
      ensures Shows(q)[i] == Shown(now[n + i], n + i + 1)
    {
      assert q.refs[i] == now[n..][i] == now[n + i];
      assert q.frameNumber + i - BackwardSamples(q) == n + i + 1;
    }
  }

  lemma ShownDistinct<S>(q: Pool<S>)
    requires SurfacesDistinct(q)
    ensures forall i :: 0 <= i < |q.refs| ==> q.refs[i].surface != q.surfaces[0]
    ensures forall i, j :: 0 <= i < j < |q.refs| ==> q.refs[i].surface != q.refs[j].surface
  {
    assert forall i :: 0 <= i < |q.refs| ==> Surfaces(q.refs)[i] == q.refs[i].surface;
    forall i | 0 <= i < |q.refs|
      ensures q.refs[i].surface != q.surfaces[0]
    {
      var k :| 0 <= k < |q.surfaces[1..]| && q.surfaces[1..][k] == q.refs[i].surface;
      assert q.surfaces[1..][k] == q.surfaces[k + 1];
    }
  }

  /** The frame carries the times of the sample stored F samples before the last and is aimed at
      that very sample; every sample shown has the number of its place among all samples ever
      stored; and the shown surfaces are distinct, none of them the one drawn on. */
  ghost predicate DelayedFrame<S>(r: Result<S>, now: seq<Sample<S>>, backward: nat, forward: nat) {
    && r.Frame? && forward < |r.shown| <= |now|
    && |r.shown| == (if |now| <= backward + forward then |now| else backward + forward + 1)
    && r.start == now[|now| - 1 - forward].start && r.end == now[|now| - 1 - forward].end
    && r.target == |now| - forward
    && (forall i :: 0 <= i < |r.shown| ==>
          r.shown[i] == Shown(now[|now| - |r.shown| + i], |now| - |r.shown| + i + 1))
    && (forall i :: 0 <= i < |r.shown| ==> r.shown[i].sample.surface != r.output)
    && (forall i, j :: 0 <= i < j < |r.shown| ==> r.shown[i].sample.surface != r.shown[j].sample.surface)
  }

  /** How many of the stored samples a window that has just been added to holds. */
  function Filled<S>(stored: nat, p: Pool<S>): nat {
    if stored <= p.backward + p.forward then stored else p.backward + p.forward + 1
  }

  lemma ProducedDelayed<S>(n: Pool<S>, now: seq<Sample<S>>)
    requires Good(n, now) && |n.refs| > n.forward && |n.refs| == Filled(|now|, n)
    ensures DelayedFrame(Produce(n, true), now, n.backward, n.forward)
  {
    hide Shows, BackwardSamples, SurfacesDistinct, LatestSamples;
    LatestSizes(n, now);
    ShownNumbers(n, now);
    ShownDistinct(n);
    forall i | 0 <= i < |n.refs|
      ensures Shows(n)[i].sample == n.refs[i]
    {
      ShownAt(n, i);
    }
    ShownAt(n, |n.refs| - 1 - n.forward);
  }

  lemma ShownAt<S>(n: Pool<S>, i: nat)
    requires i < |n.refs|
    ensures |Shows(n)| == |n.refs| && Shows(n)[i].sample == n.refs[i]
  {
  }

  lemma LatestSizes<S>(n: Pool<S>, now: seq<Sample<S>>)
    requires LatestSamples(n, now) && |n.refs| > n.forward
    ensures |Shows(n)| == |n.refs| <= |now| && n.frameNumber == |now| - n.forward
  {
  }

  lemma FrameIsDelayed<S>(p: Pool<S>, all: seq<Sample<S>>, c: Call<S>)
    requires Good(p, all)
    ensures var r, now := Serve(p, c).1, all + Pushed(p, c);
            && r != NoSurface
            && (r.Frame? <==> c.locked && c.blitted && |now| > p.forward)
            && Serve(p, c).0.backward == p.backward && Serve(p, c).0.forward == p.forward
            && (r.Frame? ==> DelayedFrame(r, now, p.backward, p.forward))
  {
    StepGood(p, all, c);
    PoppedGood(p, all);
    var (q, r) := Serve(p, c);
    var now := all + Pushed(p, c);
    if c.locked && |q.refs| > q.forward {
      ProducedDelayed(q, now);
    }
    hide FreeSurface, SurfacesDistinct, Shows, BackwardSamples, DelayedFrame;
  }

  /** After any calls, the processor opened anew as often as sizes change, the next call finds a free
      surface if there is a processor; a frame comes out exactly when there is one, the input was
      stored, the look-ahead is filled and the blit worked; and then it is the frame delayed by the F
      samples of look-ahead, among those stored since the processor was opened. */
  lemma EveryCallDelayed<S>(calls: seq<Call<S>>, c: Call<S>)
    requires forall k :: 0 <= k < |calls| ==> GoodOpening(calls[k].opening)
    requires GoodOpening(c.opening)
    ensures var (d, r) := GetFrame(After(calls), c);
            var now := Stored(calls + [c]);
            && r != NoSurface
            && (d.processor.None? ==> r == Skip)
            && (d.processor.Some? ==>
                  var p := d.processor.value;
                  && p.width == c.width && p.height == c.height
                  && (r.Frame? <==> c.locked && c.blitted && |now| > p.pool.forward)
                  && (r.Frame? ==> DelayedFrame(r, now, p.pool.backward, p.pool.forward)))
  {
    var d := After(calls);
    hide After, Stored, Serve, DelayedFrame, Pushed, Good, Ready, GoodOpening;
    AlwaysGood(calls);
    OneMoreCall(calls, c);
    ReadyGood(d, Stored(calls), c);
    var e := Ready(d, c);
    if e.processor.Some? {
      FrameIsDelayed(e.processor.value.pool, if NeedsOpening(d, c) then [] else Stored(calls), c);
    }
  }

  lemma OneMoreCall<S>(calls: seq<Call<S>>, c: Call<S>)
    ensures Stored(calls + [c])
            == (if NeedsOpening(After(calls), c) then [] else Stored(calls)) + StoredBy(After(calls), c)
  {
    assert (calls + [c])[..|calls|] == calls;
  }

  /** Without a processor after a call exactly if some call that needed one could not open it. */
  lemma {:induction false} ClosedIffFailed<S>(calls: seq<Call<S>>)
    requires calls != []
    ensures After(calls).failed <==> After(calls).processor.None?
    ensures After(calls).failed <==>
            exists k :: 0 <= k < |calls| && calls[k].opening.CouldNotOpen? && NeedsOpening(After(calls[..k]), calls[k])
  {
    hide Serve;
    var n := |calls| - 1;
    var before, c := calls[..n], calls[n];
    if n > 0 {
      ClosedIffFailed(before);
      assert forall k :: 0 <= k < n ==> before[..k] == calls[..k] && before[k] == calls[k];
    } else {
      assert before == [];
    }
    assert After(calls) == GetFrame(After(before), c).0;
  }

  // ----- the calls behind the samples

  predicate SameSize<S>(a: Call<S>, b: Call<S>) { a.width == b.width && a.height == b.height }

  /** The last calls of one size. */
  function LastOfOneSize<S>(calls: seq<Call<S>>): (r: seq<Call<S>>)
    ensures |r| > 0 <==> |calls| > 0
  {
    var n := |calls| - 1;
    if calls == [] then []
    else if n > 0 && SameSize(calls[n - 1], calls[n]) then LastOfOneSize(calls[..n]) + [calls[n]]
    else [calls[n]]
  }

  /** Those whose surface could be locked. */
  function Locked<S>(calls: seq<Call<S>>): seq<Call<S>> {
    var n := |calls| - 1;
    if calls == [] then [] else Locked(calls[..n]) + if calls[n].locked then [calls[n]] else []
  }

  /** Each sample is its call's picture. */
  predicate FromCalls<S>(samples: seq<Sample<S>>, calls: seq<Call<S>>) {
    && |samples| == |calls|
    && forall i :: 0 <= i < |samples| ==>
         && samples[i].start == calls[i].start && samples[i].end == calls[i].end
         && samples[i].topFieldFirst == calls[i].topFieldFirst
  }

  /** The processor is made as the opening says. */
  predicate MadeBy<S(==)>(p: Pool<S>, o: Opening<S>) {
    o.Created? && p.backward == o.backward && p.forward == o.forward && p.surfaces == o.surfaces
  }

  lemma ServeKeepsMaking<S>(p: Pool<S>, c: Call<S>)
    ensures var q := Serve(p, c).0; q.backward == p.backward && q.forward == p.forward && q.surfaces == p.surfaces
  {
    hide FreeSurface;
  }

  /** What one call stores, and in which processor. */
  lemma StoredStep<S>(d: Device<S>, all: seq<Sample<S>>, c: Call<S>)
    requires DeviceGood(d, all) && GoodOpening(c.opening)
    ensures var e, stored := GetFrame(d, c).0, StoredBy(d, c);
            && (d.failed ==> e.processor.None?)
            && (e.processor.Some? ==>
                  && e.processor.value.width == c.width && e.processor.value.height == c.height
                  && FromCalls(stored, if c.locked then [c] else [])
                  && if NeedsOpening(d, c) then MadeBy(e.processor.value.pool, c.opening)
                     else forall o :: MadeBy(d.processor.value.pool, o) ==> MadeBy(e.processor.value.pool, o))
  {
    hide Good, Serve;
    ReadyGood(d, all, c);
    var e := Ready(d, c);
    if e.processor.Some? {
      ServeKeepsMaking(e.processor.value.pool, c);
      StepGood(e.processor.value.pool, if NeedsOpening(d, c) then [] else all, c);
    }
    hide FreeSurface;
  }

  lemma FromCallsJoin<S>(s: seq<Sample<S>>, t: seq<Sample<S>>, a: seq<Call<S>>, b: seq<Call<S>>)
    requires FromCalls(s, a) && FromCalls(t, b)
    ensures FromCalls(s + t, a + b)
  {
  }

  lemma {:induction false} LockedOfLast<S>(calls: seq<Call<S>>, c: Call<S>)
    ensures Locked(calls + [c]) == Locked(calls) + if c.locked then [c] else []
    ensures Locked([c]) == if c.locked then [c] else []
  {
    assert (calls + [c])[..|calls|] == calls && [c][..0] == [];
    assert Locked<S>([]) == [];
  }

  /** The processor is the one for the last call's size, and was opened with the first of the last calls of that
      size: what is stored comes from those of them whose surface could be locked. */
  lemma {:induction false} StoredFromCalls<S>(calls: seq<Call<S>>)
    requires forall k :: 0 <= k < |calls| ==> GoodOpening(calls[k].opening)
    requires calls != [] && After(calls).processor.Some?
    ensures var c, p := calls[|calls| - 1], After(calls).processor.value; p.width == c.width && p.height == c.height
    ensures MadeBy(After(calls).processor.value.pool, LastOfOneSize(calls)[0].opening)
    ensures FromCalls(Stored(calls), Locked(LastOfOneSize(calls)))
  {
    hide Good, Serve, GoodOpening, GetFrame, StoredBy, Locked, DeviceGood, FromCalls, MadeBy;
    var n := |calls| - 1;
    var before, c := calls[..n], calls[n];
    AlwaysGood(before);
    StoredStep(After(before), Stored(before), c);
    if n > 0 {
      ClosedIffFailed(before);
      StoredFromCalls(before);
      LockedOfLast(LastOfOneSize(before), c);
      FromCallsJoin(Stored(before), StoredBy(After(before), c), Locked(LastOfOneSize(before)),
                    if c.locked then [c] else []);
    }
    LockedOfLast(before, c);
    assert [] + StoredBy(After(before), c) == StoredBy(After(before), c);
  }

  /** A frame read off the calls that stored its samples: it carries the times of the call `forward` of them back,
      and shows each of the last backward + forward + 1 with its own field order, times and number. */
  predicate ShowsCalls<S>(r: Result<S>, stored: seq<Call<S>>, backward: nat, forward: nat) {
    && r.Frame? && |stored| > forward
    && r.start == stored[|stored| - 1 - forward].start && r.end == stored[|stored| - 1 - forward].end
    && |r.shown| == (if |stored| <= backward + forward then |stored| else backward + forward + 1)
    && forall i :: 0 <= i < |r.shown| ==>
         var j := |stored| - |r.shown| + i;
         && r.shown[i].sample.start == stored[j].start && r.shown[i].sample.end == stored[j].end
         && r.shown[i].sample.topFieldFirst == stored[j].topFieldFirst
         && r.shown[i].number == j + 1
  }

  lemma DelayedShowsCalls<S>(r: Result<S>, now: seq<Sample<S>>, stored: seq<Call<S>>, backward: nat, forward: nat)
    requires DelayedFrame(r, now, backward, forward) && FromCalls(now, stored)
    ensures ShowsCalls(r, stored, backward, forward)
  {
  }

  lemma AfterOneMore<S>(calls: seq<Call<S>>, c: Call<S>)
    ensures After(calls + [c]) == GetFrame(After(calls), c).0
  {
    hide GetFrame;
    assert (calls + [c])[..|calls|] == calls;
  }

  /** Read off the calls themselves: where there is a processor after the call, a frame comes out exactly when
      its input was stored, more than F of the last calls of its size were, and the blit worked. */
  lemma FrameOfItsCall<S>(calls: seq<Call<S>>, c: Call<S>)
    requires forall k :: 0 <= k < |calls| ==> GoodOpening(calls[k].opening)
    requires GoodOpening(c.opening) && GetFrame(After(calls), c).0.processor.Some?
    ensures var (d, r) := GetFrame(After(calls), c);
            var stored, p := Locked(LastOfOneSize(calls + [c])), d.processor.value.pool;
            && MadeBy(p, LastOfOneSize(calls + [c])[0].opening)
            && (r.Frame? <==> c.locked && c.blitted && |stored| > p.forward)
            && (r.Frame? ==> ShowsCalls(r, stored, p.backward, p.forward))
  {
    hide GetFrame, Stored, Locked, LastOfOneSize, GoodOpening, DelayedFrame, ShowsCalls, After, MadeBy;
    EveryCallDelayed(calls, c);
    AfterOneMore(calls, c);
    StoredFromCalls(calls + [c]);
    var (d, r) := GetFrame(After(calls), c);
    if r.Frame? {
      var p := d.processor.value.pool;
      DelayedShowsCalls(r, Stored(calls + [c]), Locked(LastOfOneSize(calls + [c])), p.backward, p.forward);
    }
  }
}
