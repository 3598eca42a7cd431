/** The D3D11 decoder's frame ring (src/Mpeg2DecoderD3D11.cpp:597-636, 857-911): N + 1
    slots turn the displayed frames into an N-frame delay line. A frame stands for the
    texture's contents together with the buffer's attributes. */
module FrameQueue {
  import opened Options

  const MAX_QUEUE_FRAMES := 4

  datatype Ring<F> = Ring(slots: seq<Option<F>>, size: nat, pos: nat)

  predicate WellFormed<F>(r: Ring<F>) {
    |r.slots| == MAX_QUEUE_FRAMES + 1 && r.size <= MAX_QUEUE_FRAMES && r.pos <= r.size
  }

  function Following<F>(r: Ring<F>): nat { (r.pos + 1) % (r.size + 1) }

  // ----- the operations as functions

  function Clear<F>(r: Ring<F>): Ring<F> {
    Ring(seq(MAX_QUEUE_FRAMES + 1, i => None), r.size, 0)
  }

  function SetSize<F>(r: Ring<F>, size: nat): (Ring<F>, bool) {
    if size > MAX_QUEUE_FRAMES then (r, false)
    else if size != r.size then (Clear(r).(size := size), true)
    else (r, true)
  }

  /** GetDisplayFrame on a decoded frame; without a queue the frame itself comes back. */
  function Show<F>(r: Ring<F>, f: F): (Ring<F>, Option<F>)
    requires WellFormed(r)
  {
    if r.size == 0 then (r, Some(f))
    else
      var slots := r.slots[r.pos := Some(f)];
      (r.(slots := slots, pos := Following(r)), slots[Following(r)])
  }

  /** GetQueuedFrame with so many slots still to look at. */
  function Queued<F>(r: Ring<F>, tries: nat): (Ring<F>, Option<F>)
    requires WellFormed(r)
    decreases tries
  {
    if tries == 0 then (r, None)
    else
      var q := r.(pos := Following(r));
      if q.slots[q.pos].Some? then (q.(slots := q.slots[q.pos := None]), q.slots[q.pos])
      else Queued(q, tries - 1)
  }

  // ----- the class

  class DecoderFrameQueue<F(0)> {
    var frameQueue: array<Option<F>>
    var frameQueueSize: nat
    var frameQueuePos: nat

    ghost predicate Valid()
      reads this, frameQueue
    {
      WellFormed(View())
    }

    ghost function View(): Ring<F>
      reads this, frameQueue
    {
      Ring(frameQueue[..], frameQueueSize, frameQueuePos)
    }

    constructor (size: nat)
      requires size <= MAX_QUEUE_FRAMES
      ensures Valid() && fresh(frameQueue) && View() == Clear(View()) && frameQueueSize == size
    {
      frameQueue := new Option<F>[MAX_QUEUE_FRAMES + 1](_ => None);
      frameQueueSize, frameQueuePos := size, 0;
    }

    method ClearFrameQueue()
      requires Valid()
      modifies this`frameQueuePos, frameQueue
      ensures Valid() && View() == Clear(old(View()))
    {
      for i := 0 to frameQueue.Length
        invariant forall k :: 0 <= k < i ==> frameQueue[k] == None
      {
        frameQueue[i] := None;
      }
      frameQueuePos := 0;
    }

    method SetFrameQueueSize(size: nat) returns (ok: bool)
      requires Valid()
      modifies this`frameQueueSize, this`frameQueuePos, frameQueue
      ensures Valid() && (View(), ok) == SetSize(old(View()), size)
    {
      if size > MAX_QUEUE_FRAMES {
        return false;
      }
      if frameQueueSize != size {
        ClearFrameQueue();
        frameQueueSize := size;
      }
      ok := true;
    }

    method GetDisplayFrame(frame: F) returns (shown: Option<F>)
      requires Valid()
      modifies this`frameQueuePos, frameQueue
      ensures Valid() && (View(), shown) == Show(old(View()), frame)
    {
      if frameQueueSize > 0 {
        frameQueue[frameQueuePos] := Some(frame);
        var next := (frameQueuePos + 1) % (frameQueueSize + 1);
        shown := frameQueue[next];
        frameQueuePos := next;
        assert frameQueue[..] == old(frameQueue[..])[old(frameQueuePos) := Some(frame)];
      } else {
        shown := Some(frame);
      }
    }

    method GetQueuedFrame() returns (queued: Option<F>)
      requires Valid()
      modifies this`frameQueuePos, frameQueue
      ensures Valid() && (View(), queued) == Queued(old(View()), old(frameQueueSize))
    {
      ghost var before := View();
      for i := 0 to frameQueueSize
        invariant Valid() && View().slots == before.slots && frameQueueSize == before.size
        invariant Queued(before, frameQueueSize) == Queued(View(), frameQueueSize - i)
      {
        ghost var turn := View();
        frameQueuePos := (frameQueuePos + 1) % (frameQueueSize + 1);
        assert View() == turn.(pos := Following(turn));
        queued := frameQueue[frameQueuePos];
        if queued.Some? {
          frameQueue[frameQueuePos] := None;
          assert frameQueue[..] == turn.slots[frameQueuePos := None];
          return;
        }
      }
      queued := None;
    }
  }

  // ----- the delay line

  /** The ring after showing the frames one by one. */
  function ShowAll<F>(r: Ring<F>, frames: seq<F>): Ring<F>
    requires WellFormed(r)
    ensures WellFormed(ShowAll(r, frames)) && ShowAll(r, frames).size == r.size
  {
    if frames == [] then r else Show(ShowAll(r, frames[..|frames| - 1]), frames[|frames| - 1]).0
  }

  /** The ring after draining n frames. */
  function Drain<F>(r: Ring<F>, n: nat): Ring<F>
    requires WellFormed(r)
    ensures WellFormed(Drain(r, n)) && Drain(r, n).size == r.size
  {
    if n == 0 then r else
      var q := Drain(r, n - 1);
      QueuedWellFormed(q, q.size);
      Queued(q, q.size).0
  }

  lemma {:induction false} QueuedWellFormed<F>(r: Ring<F>, tries: nat)
    requires WellFormed(r)
    ensures WellFormed(Queued(r, tries).0) && Queued(r, tries).0.size == r.size
    decreases tries
  {
    if tries != 0 {
      QueuedWellFormed(r.(pos := Following(r)), tries - 1);
    }
  }

  function Undelivered(k: nat, size: nat): nat { if k < size then k else size }

  /** Where the frame shown age frames before the last one lies, the next one going to w. */
  function SlotOfAge(w: nat, age: nat, size: nat): (j: nat)
    requires w <= size && age <= size
    ensures j <= size
  {
    if age < w then w - 1 - age else w + size - age
  }

  /** For a queue of at least one frame, the next frame going to slot w: each slot holds
      the latest frame shown there, unless that one was drained. */
  ghost predicate Holds<F>(r: Ring<F>, frames: seq<F>, drained: nat, w: nat) {
    && WellFormed(r) && r.size > 0 && w <= r.size
    && var k, m := |frames|, Undelivered(|frames|, r.size);
    && drained <= m
    && r.pos == (if drained == 0 then w else SlotOfAge(w, m - drained, r.size))
    && forall age :: 0 <= age <= r.size ==>
         r.slots[SlotOfAge(w, age, r.size)] ==
           if age >= k || m - drained <= age < m then None else Some(frames[k - 1 - age])
  }

  lemma FollowingWraps<F>(r: Ring<F>)
    requires WellFormed(r)
    ensures Following(r) == if r.pos == r.size then 0 else r.pos + 1
  {
  }

  lemma ShowKeepsHistory<F>(r: Ring<F>, frames: seq<F>, f: F, w: nat)
    requires Holds(r, frames, 0, w)
    ensures Holds(Show(r, f).0, frames + [f], 0, Following(r))
    ensures Show(r, f).1 == if |frames| >= r.size then Some((frames + [f])[|frames| - r.size]) else None
  {
    FollowingWraps(r);
    var w', n := Following(r), r.size;
    forall age | 0 <= age < n
      ensures SlotOfAge(w', age + 1, n) == SlotOfAge(w, age, n) != w
    {
    }
    assert SlotOfAge(w', 0, n) == w && SlotOfAge(w', n, n) == w';
    hide Following;
    var q := Show(r, f).0;
    forall age | 0 <= age <= n
      ensures q.slots[SlotOfAge(w', age, n)] ==
                if age >= |frames| + 1 then None else Some((frames + [f])[|frames| - age])
    {
      if age > 0 {
        assert SlotOfAge(w', age, n) == SlotOfAge(w, age - 1, n);
      }
    }
  }

  lemma {:induction false} ShowAllHolds<F>(r: Ring<F>, frames: seq<F>) returns (w: nat)
    requires WellFormed(r) && r == Clear(r) && r.size > 0
    ensures Holds(ShowAll(r, frames), frames, 0, w)
  {
    if frames == [] {
      w := 0;
    } else {
      var before, last := frames[..|frames| - 1], frames[|frames| - 1];
      var v := ShowAllHolds(r, before);
      ShowKeepsHistory(ShowAll(r, before), before, last, v);
      assert before + [last] == frames;
      w := Following(ShowAll(r, before));
    }
  }

  /** The k-th frame shown since a clear brings back frame k - N, or nothing while k < N. */
  lemma DelayLine<F>(r: Ring<F>, frames: seq<F>, f: F)
    requires WellFormed(r) && r == Clear(r)
    ensures Show(ShowAll(r, frames), f).1 ==
              if |frames| >= r.size then Some((frames + [f])[|frames| - r.size]) else None
  {
    if r.size > 0 {
      var w := ShowAllHolds(r, frames);
      ShowKeepsHistory(ShowAll(r, frames), frames, f, w);
    }
  }

  /** A size above four is refused; a new size starts a delay line of that many frames which has seen none; the
      same size changes nothing. */
  lemma ResizedStartsAfresh<F>(r: Ring<F>, size: nat, frames: seq<F>, f: F)
    requires WellFormed(r)
    ensures var (q, ok) := SetSize(r, size);
            && (ok <==> size <= 4)
            && (!ok || size == r.size ==> q == r)
            && (ok && size != r.size ==>
                  && WellFormed(q)
                  && Show(ShowAll(q, frames), f).1
                     == if |frames| >= size then Some((frames + [f])[|frames| - size]) else None)
  {
    if size <= MAX_QUEUE_FRAMES && size != r.size {
      DelayLine(SetSize(r, size).0, frames, f);
    }
    hide ShowAll, Show;
  }

  lemma FollowingAge<F>(r: Ring<F>, w: nat, age: nat)
    requires WellFormed(r) && w <= r.size && 1 <= age <= r.size && r.pos == SlotOfAge(w, age, r.size)
    ensures Following(r) == SlotOfAge(w, age - 1, r.size)
  {
    FollowingWraps(r);
  }

  /** From the slot of one age, Queued passes over younger empty slots to the first full one. */
  lemma {:induction false} QueuedFinds<F>(r: Ring<F>, w: nat, age: nat, found: nat, tries: nat)
    requires WellFormed(r) && w <= r.size && found < age <= r.size && tries >= age - found
    requires r.pos == SlotOfAge(w, age, r.size)
    requires forall a :: found < a < age ==> r.slots[SlotOfAge(w, a, r.size)] == None
    requires r.slots[SlotOfAge(w, found, r.size)].Some?
    ensures var j := SlotOfAge(w, found, r.size);
            Queued(r, tries) == (r.(slots := r.slots[j := None], pos := j), r.slots[j])
    decreases age
  {
    FollowingAge(r, w, age);
    if age - 1 > found {
      QueuedFinds(r.(pos := Following(r)), w, age - 1, found, tries - 1);
    }
  }

  lemma {:induction false} QueuedFindsNothing<F>(r: Ring<F>, w: nat, age: nat, tries: nat)
    requires WellFormed(r) && w <= r.size && tries <= age <= r.size
    requires r.pos == SlotOfAge(w, age, r.size)
    requires forall a :: 0 <= a < age ==> r.slots[SlotOfAge(w, a, r.size)] == None
    ensures Queued(r, tries).1 == None
    decreases tries
  {
    if tries > 0 {
      FollowingAge(r, w, age);
      QueuedFindsNothing(r.(pos := Following(r)), w, age - 1, tries - 1);
    }
  }

  lemma AgesApart(w: nat, size: nat, a: nat, b: nat)
    requires w <= size && a <= size && b <= size && a != b
    ensures SlotOfAge(w, a, size) != SlotOfAge(w, b, size)
  {
  }

  lemma PlaceOfAge<F>(r: Ring<F>, frames: seq<F>, drained: nat, w: nat)
    requires Holds(r, frames, drained, w)
    ensures r.pos == SlotOfAge(w, if drained == 0 then r.size else Undelivered(|frames|, r.size) - drained, r.size)
  {
    assert SlotOfAge(w, r.size, r.size) == w;
  }

  /** The oldest undelivered frame is found. */
  lemma DrainFinds<F>(r: Ring<F>, frames: seq<F>, drained: nat, w: nat)
    requires Holds(r, frames, drained, w) && drained < Undelivered(|frames|, r.size)
    ensures var j := SlotOfAge(w, Undelivered(|frames|, r.size) - drained - 1, r.size);
            && r.slots[j] == Some(frames[|frames| - Undelivered(|frames|, r.size) + drained])
            && Queued(r, r.size) == (r.(slots := r.slots[j := None], pos := j), r.slots[j])
  {
    hide Queued;
    var n, m := r.size, Undelivered(|frames|, r.size);
    var age := if drained == 0 then n else m - drained;
    PlaceOfAge(r, frames, drained, w);
    assert forall a :: m - drained - 1 < a < age ==> r.slots[SlotOfAge(w, a, n)] == None;
    hide SlotOfAge, Holds;
    QueuedFinds(r, w, age, m - drained - 1, n);
  }

  lemma DrainStep<F>(r: Ring<F>, frames: seq<F>, drained: nat, w: nat)
    requires Holds(r, frames, drained, w) && drained < Undelivered(|frames|, r.size)
    ensures Queued(r, r.size).1 == Some(frames[|frames| - Undelivered(|frames|, r.size) + drained])
    ensures Holds(Queued(r, r.size).0, frames, drained + 1, w)
  {
    DrainFinds(r, frames, drained, w);
    hide Queued;
    var n, found := r.size, Undelivered(|frames|, r.size) - drained - 1;
    forall age | 0 <= age <= n && age != found
      ensures SlotOfAge(w, age, n) != SlotOfAge(w, found, n)
    {
      AgesApart(w, n, age, found);
    }
    hide SlotOfAge;
  }

  lemma {:induction false} DrainHolds<F>(r: Ring<F>, frames: seq<F>, w: nat, drained: nat)
    requires Holds(r, frames, 0, w) && drained <= Undelivered(|frames|, r.size)
    ensures Holds(Drain(r, drained), frames, drained, w)
  {
    assert WellFormed(r);
    hide Holds, Queued, Undelivered;
    if drained > 0 {
      DrainHolds(r, frames, w, drained - 1);
      DrainStep(Drain(r, drained - 1), frames, drained - 1, w);
    }
  }

  /** After k frames, GetQueuedFrame brings the min(k, N) undelivered ones, oldest first. */
  lemma DrainOldestFirst<F>(r: Ring<F>, frames: seq<F>, n: nat)
    requires WellFormed(r) && r == Clear(r) && n < Undelivered(|frames|, r.size)
    ensures var q := Drain(ShowAll(r, frames), n);
            Queued(q, q.size).1 == Some(frames[|frames| - Undelivered(|frames|, r.size) + n])
  {
    hide Drain, ShowAll, Holds, Queued, WellFormed, Clear;
    NotEmpty(|frames|, r.size);
    var w := ShowAllHolds(r, frames);
    DrainHolds(ShowAll(r, frames), frames, w, n);
    DrainStep(Drain(ShowAll(r, frames), n), frames, n, w);
  }

  lemma NotEmpty(k: nat, size: nat)
    ensures Undelivered(k, size) > 0 ==> size > 0
    ensures Undelivered(k, size) <= k
  {
  }

  /** A drained ring stands at the frame shown last, before slot w; the oldest slot is the next one. */
  lemma DrainedStands<F>(q: Ring<F>, frames: seq<F>, w: nat)
    requires Holds(q, frames, Undelivered(|frames|, q.size), w) && frames != []
    ensures WellFormed(q) && w <= q.size && Following(q) == w == SlotOfAge(w, q.size, q.size)
    ensures q.slots[w] == if |frames| <= q.size then None else Some(frames[|frames| - 1 - q.size])
    ensures |frames| <= q.size ==> forall a :: 0 <= a < q.size ==> q.slots[SlotOfAge(w, a, q.size)] == None
  {
    FollowingWraps(q);
    assert SlotOfAge(w, q.size, q.size) == w;
  }

  /** And then? Nothing comes exactly when at most N frames were shown; otherwise the slot
      last returned still holds its frame, and that old frame is delivered again. */
  lemma DrainedRingRepeatsOldFrame<F>(r: Ring<F>, frames: seq<F>)
    requires WellFormed(r) && r == Clear(r)
    ensures var q := Drain(ShowAll(r, frames), Undelivered(|frames|, r.size));
            Queued(q, q.size).1 ==
              if r.size == 0 || |frames| <= r.size then None else Some(frames[|frames| - 1 - r.size])
  {
    hide Drain, ShowAll;
    if r.size > 0 {
      var n, m := r.size, Undelivered(|frames|, r.size);
      var w := ShowAllHolds(r, frames);
      DrainHolds(ShowAll(r, frames), frames, w, m);
      var q := Drain(ShowAll(r, frames), m);
      if frames == [] {
        assert SlotOfAge(w, n, n) == w;
        QueuedFindsNothing(q, w, n, n);
      } else {
        DrainedStands(q, frames, w);
        hide Holds, SlotOfAge, Following;
        if |frames| <= n {
          QueuedFindsNothing(q.(pos := w), w, n, n - 1);
        }
      }
    }
  }
}
