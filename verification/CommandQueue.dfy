/** The deferred-command queue (src/BaseClasses/ctlutil.cpp:2050-2076, 2225-2294, 2427-2540):
    two lists in time order, and which command is due. Times are unbounded integers. */
module CommandQueue {
  import opened Options

  /** A command on a list; order tells how many insertions the queue had seen before this one. */
  datatype Entry<C> = Entry(cmd: C, time: int, order: nat)

  datatype Queue<C> = Queue(presentation: seq<Entry<C>>, stream: seq<Entry<C>>, insertions: nat,
                            running: bool, offset: int, clock: bool)

  // ----- the operations as functions

  /** How many leading entries come no later than t. */
  function Position<C>(list: seq<Entry<C>>, t: int): (p: nat)
    ensures p <= |list|
  {
    if list != [] && list[0].time <= t then 1 + Position(list[1..], t) else 0
  }

  function Inserted<C>(list: seq<Entry<C>>, e: Entry<C>): seq<Entry<C>> {
    var p := Position(list, e.time);
    list[..p] + [e] + list[p..]
  }

  /** Where c stands on the list, or the list's length. */
  function Find<C(==)>(list: seq<Entry<C>>, c: C): (k: nat)
    ensures k <= |list|
  {
    if list != [] && list[0].cmd != c then 1 + Find(list[1..], c) else 0
  }

  function Removed<C(==)>(list: seq<Entry<C>>, c: C): seq<Entry<C>> {
    var k := Find(list, c);
    if k < |list| then list[..k] + list[k + 1..] else list
  }

  function ListOf<C>(q: Queue<C>, isStream: bool): seq<Entry<C>> {
    if isStream then q.stream else q.presentation
  }

  function WithList<C>(q: Queue<C>, isStream: bool, list: seq<Entry<C>>): Queue<C> {
    if isStream then q.(stream := list) else q.(presentation := list)
  }

  function AfterInsert<C>(q: Queue<C>, c: C, time: int, isStream: bool): Queue<C> {
    var e := Entry(c, time, q.insertions);
    WithList(q, isStream, Inserted(ListOf(q, isStream), e)).(insertions := q.insertions + 1)
  }

  /** The flag is false for VFW_E_NOT_FOUND. */
  function AfterRemove<C(==)>(q: Queue<C>, c: C, isStream: bool): (Queue<C>, bool) {
    var list := ListOf(q, isStream);
    (WithList(q, isStream, Removed(list, c)), Find(list, c) < |list|)
  }

  predicate CheckTime<C>(q: Queue<C>, time: int, isStream: bool, now: int) {
    q.clock && (isStream ==> q.running) && time + (if isStream then q.offset else 0) <= now
  }

  datatype Outcome = Ok | TimeAlreadyPassed | NotFound

  function AfterPostpone<C(==)>(q: Queue<C>, c: C, newTime: int, isStream: bool, now: int): (Queue<C>, Outcome) {
    if CheckTime(q, newTime, isStream, now) then (q, TimeAlreadyPassed)
    else
      var (rest, found) := AfterRemove(q, c, isStream);
      if found then (AfterInsert(rest, c, newTime, isStream), Ok) else (rest, NotFound)
  }

  /** The command GetDueCommand looks at: the earlier of the two list heads. */
  function Candidate<C>(q: Queue<C>): Option<(Entry<C>, bool)> {
    var p := if q.presentation != [] then Some((q.presentation[0], false)) else None;
    if q.running && q.stream != [] && (p.None? || q.stream[0].time + q.offset < p.value.0.time)
    then Some((q.stream[0], true))
    else p
  }

  /** One turn of GetDueCommand; nothing means it goes on to wait. */
  function DueCommand<C>(q: Queue<C>, now: int): Option<C> {
    match Candidate(q)
    case None => None
    case Some((e, isStream)) => if CheckTime(q, e.time, isStream, now) then Some(e.cmd) else None
  }

  function CommandDueFor<C>(q: Queue<C>, t: int, now: int): Option<C> {
    if q.presentation != [] && CheckTime(q, q.presentation[0].time, false, now) then Some(q.presentation[0].cmd)
    else if q.stream != [] && q.stream[0].time <= t then Some(q.stream[0].cmd)
    else if q.running && q.presentation != [] && q.presentation[0].time <= t + q.offset
    then Some(q.presentation[0].cmd)
    else None
  }

  // ----- order

  predicate Before<C>(a: Entry<C>, b: Entry<C>) {
    a.time < b.time || (a.time == b.time && a.order < b.order)
  }

  /** By time, and first-in first among equals. */
  ghost predicate Ordered<C>(list: seq<Entry<C>>) {
    forall i, j :: 0 <= i < j < |list| ==> Before(list[i], list[j])
  }

  ghost predicate OrdersBelow<C>(list: seq<Entry<C>>, n: nat) {
    forall i :: 0 <= i < |list| ==> list[i].order < n
  }

  ghost predicate OnceEach<C>(list: seq<Entry<C>>) {
    forall i, j :: 0 <= i < j < |list| ==> list[i].cmd != list[j].cmd
  }

  ghost predicate GoodList<C>(list: seq<Entry<C>>, n: nat) {
    Ordered(list) && OrdersBelow(list, n) && OnceEach(list)
  }

  ghost predicate Good<C>(q: Queue<C>) {
    GoodList(q.presentation, q.insertions) && GoodList(q.stream, q.insertions)
  }

  ghost predicate Holds<C>(list: seq<Entry<C>>, c: C) {
    exists i :: 0 <= i < |list| && list[i].cmd == c
  }

  lemma {:induction false} PositionSplits<C>(list: seq<Entry<C>>, t: int)
    ensures forall k :: 0 <= k < Position(list, t) ==> list[k].time <= t
    ensures Position(list, t) < |list| ==> list[Position(list, t)].time > t
  {
    if list != [] && list[0].time <= t {
      PositionSplits(list[1..], t);
      assert forall k :: 1 <= k < |list| ==> list[k] == list[1..][k - 1];
    }
  }

  lemma {:induction false} FindFirst<C>(list: seq<Entry<C>>, c: C)
    ensures Find(list, c) < |list| ==> list[Find(list, c)].cmd == c
    ensures forall k :: 0 <= k < Find(list, c) ==> list[k].cmd != c
  {
    if list != [] && list[0].cmd != c {
      FindFirst(list[1..], c);
      assert forall k :: 1 <= k < |list| ==> list[k] == list[1..][k - 1];
    }
  }

  /** r is list with e put in at p, behind everything not later and before everything later. */
  ghost predicate PutIn<C>(list: seq<Entry<C>>, e: Entry<C>, p: nat, r: seq<Entry<C>>) {
    && p <= |list| && |r| == |list| + 1
    && (forall i :: 0 <= i < p ==> r[i] == list[i] && r[i].time <= e.time)
    && r[p] == e
    && (forall i :: p < i < |r| ==> r[i] == list[i - 1] && r[i].time > e.time)
  }

  lemma LaterBehind<C>(list: seq<Entry<C>>, t: int)
    requires Ordered(list)
    ensures forall k :: Position(list, t) <= k < |list| ==> list[k].time > t
  {
    PositionSplits(list, t);
    var p := Position(list, t);
    forall k | p <= k < |list|
      ensures list[k].time > t
    {
      assert p < k ==> Before(list[p], list[k]);
    }
  }

  lemma InsertedPutIn<C>(list: seq<Entry<C>>, e: Entry<C>)
    requires Ordered(list)
    ensures PutIn(list, e, Position(list, e.time), Inserted(list, e))
  {
    PositionSplits(list, e.time);
    LaterBehind(list, e.time);
    var p, r := Position(list, e.time), Inserted(list, e);
    assert r == list[..p] + [e] + list[p..];
    hide *;
    forall i | p < i < |r|
      ensures r[i] == list[i - 1]
    {
      assert r[i] == list[p..][i - (p + 1)];
    }
  }

  lemma PutInOrdered<C>(list: seq<Entry<C>>, e: Entry<C>, p: nat, r: seq<Entry<C>>)
    requires PutIn(list, e, p, r) && Ordered(list) && OrdersBelow(list, e.order)
    ensures Ordered(r) && OrdersBelow(r, e.order + 1)
  {
    forall i, j | 0 <= i < j < |r|
      ensures Before(r[i], r[j])
    {
      if j < p {
        assert Before(list[i], list[j]);
      } else if i > p {
        assert Before(list[i - 1], list[j - 1]);
      } else if i < p < j {
        assert Before(list[i], list[j - 1]);
      }
    }
  }

  lemma PutInMembers<C>(list: seq<Entry<C>>, e: Entry<C>, p: nat, r: seq<Entry<C>>)
    requires PutIn(list, e, p, r)
    ensures forall x :: x in r <==> x == e || x in list
  {
    forall x | x in list
      ensures x in r
    {
      var i :| 0 <= i < |list| && list[i] == x;
      assert r[if i < p then i else i + 1] == x;
    }
  }

  lemma InsertedGood<C>(list: seq<Entry<C>>, e: Entry<C>)
    requires GoodList(list, e.order) && !Holds(list, e.cmd)
    ensures GoodList(Inserted(list, e), e.order + 1)
    ensures forall x :: x in Inserted(list, e) <==> x == e || x in list
  {
    InsertedPutIn(list, e);
    var p, r := Position(list, e.time), Inserted(list, e);
    PutInOrdered(list, e, p, r);
    PutInMembers(list, e, p, r);
    hide Inserted, Position, Ordered, OrdersBelow;
  }

  lemma RemovedKeeps<C>(list: seq<Entry<C>>, c: C)
    requires Find(list, c) < |list|
    ensures |Removed(list, c)| == |list| - 1
    ensures forall i :: 0 <= i < |list| - 1 ==> Removed(list, c)[i] == list[if i < Find(list, c) then i else i + 1]
  {
    hide Find;
  }

  lemma NotRemoved<C>(list: seq<Entry<C>>, c: C)
    ensures Find(list, c) == |list| ==> Removed(list, c) == list
  {
  }

  /** Any list that skips one entry of a good one is good. */
  lemma SkippedGood<C>(list: seq<Entry<C>>, k: nat, r: seq<Entry<C>>, n: nat)
    requires GoodList(list, n) && k < |list| == |r| + 1
    requires forall i :: 0 <= i < |r| ==> r[i] == list[if i < k then i else i + 1]
    ensures GoodList(r, n) && !Holds(r, list[k].cmd)
  {
    hide Before;
  }

  lemma SkippedMembers<C>(list: seq<Entry<C>>, k: nat, r: seq<Entry<C>>, x: Entry<C>)
    requires k < |list| == |r| + 1
    requires forall i :: 0 <= i < |r| ==> r[i] == list[if i < k then i else i + 1]
    ensures x in r ==> x in list
    ensures x in list && x != list[k] ==> x in r
  {
    if x in list && x != list[k] {
      var i :| 0 <= i < |list| && list[i] == x;
      assert r[if i < k then i else i - 1] == x;
    }
  }

  lemma RemovedGood<C>(list: seq<Entry<C>>, c: C, n: nat)
    requires GoodList(list, n)
    ensures GoodList(Removed(list, c), n) && !Holds(Removed(list, c), c)
    ensures forall x :: x in Removed(list, c) <==> x in list && x.cmd != c
    ensures Find(list, c) < |list| <==> Holds(list, c)
  {
    hide Find, Removed, GoodList;
    FindFirst(list, c);
    var k, r := Find(list, c), Removed(list, c);
    if k < |list| {
      RemovedKeeps(list, c);
      SkippedGood(list, k, r, n);
      forall x
        ensures x in r <==> x in list && x.cmd != c
      {
        SkippedMembers(list, k, r, x);
      }
    } else {
      NotRemoved(list, c);
    }
  }

  // ----- every reachable queue

  datatype Request<C> =
    | NewCommand(cmd: C, time: int, isStream: bool)
    | TakeOff(cmd: C, isStream: bool)                                 // Cancel, or the end of Invoke
    | PostponeTo(cmd: C, newTime: int, isStream: bool, now: int)
    | StartRun(offset: int)
    | StopRun
    | SetClock(present: bool)

  function Empty<C>(): Queue<C> { Queue([], [], 0, false, 0, false) }

  /** A command is made for one list and is inserted once, when it is constructed. */
  ghost predicate Possible<C>(q: Queue<C>, r: Request<C>) {
    r.NewCommand? ==> !Holds(q.presentation, r.cmd) && !Holds(q.stream, r.cmd)
  }

  function Served<C(==)>(q: Queue<C>, r: Request<C>): Queue<C> {
    match r
    case NewCommand(c, t, s) => AfterInsert(q, c, t, s)
    case TakeOff(c, s) => AfterRemove(q, c, s).0
    case PostponeTo(c, t, s, now) => AfterPostpone(q, c, t, s, now).0
    case StartRun(offset) => q.(running := true, offset := offset)
    case StopRun => q.(running := false)
    case SetClock(present) => q.(clock := present)
  }

  function After<C(==)>(requests: seq<Request<C>>): Queue<C> {
    if requests == [] then Empty() else Served(After(requests[..|requests| - 1]), requests[|requests| - 1])
  }

  ghost predicate AllPossible<C>(requests: seq<Request<C>>) {
    requests == [] ||
    (AllPossible(requests[..|requests| - 1]) && Possible(After(requests[..|requests| - 1]), requests[|requests| - 1]))
  }

  lemma InsertKeepsGood<C>(q: Queue<C>, c: C, time: int, isStream: bool)
    requires Good(q) && !Holds(ListOf(q, isStream), c)
    ensures Good(AfterInsert(q, c, time, isStream))
  {
    InsertedGood(ListOf(q, isStream), Entry(c, time, q.insertions));
    hide Ordered, OnceEach, Inserted;
  }

  lemma RemoveKeepsGood<C>(q: Queue<C>, c: C, isStream: bool)
    requires Good(q)
    ensures Good(AfterRemove(q, c, isStream).0) && !Holds(ListOf(AfterRemove(q, c, isStream).0, isStream), c)
  {
    RemovedGood(ListOf(q, isStream), c, q.insertions);
    hide GoodList, Removed;
  }

  /** A command whose time by the clock is `at` is due: there is a clock, which shows no earlier time, and the
      graph is running or the command is not for stream time. */
  predicate IsDue<C>(q: Queue<C>, at: int, isStream: bool, now: int) {
    q.clock && at <= now && (q.running || !isStream)
  }

  /** What a postponement does: refused when the new time is already due; not found when the command
      is on no list; otherwise the command carries the new time, last in among its equals, and every
      other entry stays as it was. */
  lemma PostponeExact<C>(q: Queue<C>, c: C, newTime: int, isStream: bool, now: int)
    requires Good(q)
    ensures var (r, outcome) := AfterPostpone(q, c, newTime, isStream, now);
            && Good(r)
            && outcome == (if IsDue(q, newTime + if isStream then q.offset else 0, isStream, now) then TimeAlreadyPassed
                           else if Holds(ListOf(q, isStream), c) then Ok else NotFound)
            && (outcome != Ok ==> r == q)
            && ListOf(r, !isStream) == ListOf(q, !isStream)
            && (outcome == Ok ==> forall x :: x in ListOf(r, isStream) <==>
                 x == Entry(c, newTime, q.insertions) || (x in ListOf(q, isStream) && x.cmd != c))
  {
    hide Removed, Inserted, Find, GoodList;
    RemovedGood(ListOf(q, isStream), c, q.insertions);
    InsertedGood(Removed(ListOf(q, isStream), c), Entry(c, newTime, q.insertions));
    MoreOrders(q.presentation, q.insertions);
    MoreOrders(q.stream, q.insertions);
    NotRemoved(ListOf(q, isStream), c);
  }

  lemma MoreOrders<C>(list: seq<Entry<C>>, n: nat)
    requires GoodList(list, n)
    ensures GoodList(list, n + 1)
  {
    hide Ordered, OnceEach;
  }

  lemma ServedKeepsGood<C>(q: Queue<C>, r: Request<C>)
    requires Good(q) && Possible(q, r)
    ensures Good(Served(q, r))
  {
    hide GoodList, AfterInsert, AfterRemove, AfterPostpone;
    match r
    case NewCommand(c, t, s) => InsertKeepsGood(q, c, t, s);
    case TakeOff(c, s) => RemoveKeepsGood(q, c, s);
    case PostponeTo(c, t, s, now) => PostponeExact(q, c, t, s, now);
    case _ =>
  }

  /** Whatever was asked of it, both lists stand in time order, first-in first among equals. */
  lemma {:induction false} AlwaysOrdered<C>(requests: seq<Request<C>>)
    requires AllPossible(requests)
    ensures Good(After(requests))
  {
    if requests == [] {
    } else {
      var before := requests[..|requests| - 1];
      AlwaysOrdered(before);
      hide Good, Served;
      ServedKeepsGood(After(before), requests[|requests| - 1]);
    }
  }

  // ----- what is due

  /** An entry GetDueCommand may return: stream commands count only while running. */
  ghost predicate Eligible<C>(q: Queue<C>, e: Entry<C>, isStream: bool) {
    e in ListOf(q, isStream) && (isStream ==> q.running)
  }

  function DueAt<C>(q: Queue<C>, e: Entry<C>, isStream: bool): int {
    e.time + if isStream then q.offset else 0
  }

  lemma HeadEarliest<C>(list: seq<Entry<C>>, e: Entry<C>)
    requires Ordered(list) && e in list
    ensures list[0] == e || Before(list[0], e)
  {
    var k :| 0 <= k < |list| && list[k] == e;
    assert k > 0 ==> Before(list[0], list[k]);
  }

  /** Earlier due, or due together and either first in on the same list or on the presentation list. */
  predicate Precedes<C>(q: Queue<C>, a: Entry<C>, s: bool, b: Entry<C>, t: bool) {
    || DueAt(q, a, s) < DueAt(q, b, t)
    || (DueAt(q, a, s) == DueAt(q, b, t) && if s == t then a.order <= b.order else t)
  }

  lemma CandidateFirst<C>(q: Queue<C>, e: Entry<C>, isStream: bool)
    requires Good(q) && Eligible(q, e, isStream)
    ensures Candidate(q).Some?
    ensures var (first, s) := Candidate(q).value;
            Eligible(q, first, s) && Precedes(q, first, s, e, isStream)
  {
    HeadEarliest(ListOf(q, isStream), e);
    hide Ordered, OnceEach, OrdersBelow;
  }

  lemma EarlierIsDue<C>(q: Queue<C>, a: Entry<C>, s: bool, b: Entry<C>, t: bool, now: int)
    requires Precedes(q, a, s, b, t) && (s ==> q.running)
    ensures IsDue(q, DueAt(q, b, t), t, now) ==> IsDue(q, DueAt(q, a, s), s, now)
  {
  }

  lemma CandidateDue<C>(q: Queue<C>, now: int)
    requires Candidate(q).Some?
    ensures var (first, s) := Candidate(q).value;
            && DueCommand(q, now) == (if IsDue(q, DueAt(q, first, s), s, now) then Some(first.cmd) else None)
            && Eligible(q, first, s)
  {
  }

  /** GetDueCommand returns at once exactly when some eligible command is due, and then returns
      a due one that precedes every eligible command. */
  lemma DueCommandIsFirst<C>(q: Queue<C>, now: int)
    requires Good(q)
    ensures DueCommand(q, now).Some? <==>
            exists e, isStream :: Eligible(q, e, isStream) && IsDue(q, DueAt(q, e, isStream), isStream, now)
    ensures DueCommand(q, now).Some? ==>
            exists first, s ::
              && Eligible(q, first, s) && IsDue(q, DueAt(q, first, s), s, now)
              && DueCommand(q, now).value == first.cmd
              && forall e, isStream :: Eligible(q, e, isStream) ==> Precedes(q, first, s, e, isStream)
  {
    forall e, isStream | Eligible(q, e, isStream)
      ensures Candidate(q).Some?
      ensures var (first, s) := Candidate(q).value;
              && Precedes(q, first, s, e, isStream)
              && (IsDue(q, DueAt(q, e, isStream), isStream, now) ==> IsDue(q, DueAt(q, first, s), s, now))
    {
      CandidateFirst(q, e, isStream);
      EarlierIsDue(q, Candidate(q).value.0, Candidate(q).value.1, e, isStream, now);
    }
    if Candidate(q).Some? {
      CandidateDue(q, now);
    }
    hide Good, CheckTime, Precedes, IsDue, DueAt;
    if Candidate(q).Some? {
      var (first, s) := Candidate(q).value;
      assert Eligible(q, first, s);
    }
  }

  /** GetCommandDueFor finds a command exactly when a presentation command is due now, a stream
      command is due at stream time t, or, while running, a presentation command is due when t is
      presented; what it finds precedes the other commands of its list. */
  lemma CommandDueForExact<C>(q: Queue<C>, t: int, now: int)
    requires Good(q)
    ensures CommandDueFor(q, t, now).Some? <==>
            || (q.clock && exists e :: e in q.presentation && e.time <= now)
            || (exists e :: e in q.stream && e.time <= t)
            || (q.running && exists e :: e in q.presentation && e.time <= t + q.offset)
    ensures CommandDueFor(q, t, now).Some? ==>
            exists first, s ::
              && first in ListOf(q, s) && CommandDueFor(q, t, now).value == first.cmd
              && (forall e :: e in ListOf(q, s) ==> e == first || Before(first, e))
  {
    forall s, e | e in ListOf(q, s)
      ensures ListOf(q, s)[0] == e || Before(ListOf(q, s)[0], e)
    {
      HeadEarliest(ListOf(q, s), e);
    }
    hide Good;
    assert ListOf(q, true) == q.stream && ListOf(q, false) == q.presentation;
  }

  // ----- the classes

  class DeferredCommand {
    var time: int
    const isStream: bool
    ghost var Order: nat

    constructor (time: int, isStream: bool)
      ensures this.time == time && this.isStream == isStream
    {
      this.time, this.isStream, Order := time, isStream, 0;
    }
  }

  ghost function Entries(list: seq<DeferredCommand>): (r: seq<Entry<DeferredCommand>>)
    reads list
    ensures |r| == |list|
  {
    seq(|list|, i requires 0 <= i < |list| reads list => Entry(list[i], list[i].time, list[i].Order))
  }

  lemma {:induction false} PositionUnique<C>(list: seq<Entry<C>>, t: int, p: nat)
    requires p <= |list| && (forall k :: 0 <= k < p ==> list[k].time <= t)
    requires p < |list| ==> list[p].time > t
    ensures Position(list, t) == p
  {
    if p > 0 {
      PositionUnique(list[1..], t, p - 1);
    }
  }

  lemma EntriesInserted(list: seq<DeferredCommand>, p: nat, c: DeferredCommand)
    requires p <= |list| && (forall k :: 0 <= k < p ==> list[k].time <= c.time)
    requires p < |list| ==> list[p].time > c.time
    ensures Entries(list[..p] + [c] + list[p..]) == Inserted(Entries(list), Entry(c, c.time, c.Order))
  {
    PositionUnique(Entries(list), c.time, p);
    hide Position;
    var r := list[..p] + [c] + list[p..];
    assert Entries(list[..p]) == Entries(list)[..p];
    assert Entries(list[p..]) == Entries(list)[p..];
    assert Entries(r) == Entries(list[..p]) + [Entry(c, c.time, c.Order)] + Entries(list[p..]);
  }

  lemma {:induction false} FindUnique<C>(list: seq<Entry<C>>, c: C, k: nat)
    requires k <= |list| && (forall i :: 0 <= i < k ==> list[i].cmd != c)
    requires k < |list| ==> list[k].cmd == c
    ensures Find(list, c) == k
  {
    if k > 0 {
      FindUnique(list[1..], c, k - 1);
    }
  }

  lemma EntriesRemoved(list: seq<DeferredCommand>, k: nat, c: DeferredCommand)
    requires k <= |list| && (forall i :: 0 <= i < k ==> list[i] != c)
    requires k < |list| ==> list[k] == c
    ensures Find(Entries(list), c) == k
    ensures Removed(Entries(list), c) == Entries(if k < |list| then list[..k] + list[k + 1..] else list)
  {
    FindUnique(Entries(list), c, k);
    if k < |list| {
      assert Entries(list[..k]) == Entries(list)[..k];
      assert Entries(list[k + 1..]) == Entries(list)[k + 1..];
      assert Entries(list[..k] + list[k + 1..]) == Entries(list[..k]) + Entries(list[k + 1..]);
    }
  }

  lemma HoldsEntries(list: seq<DeferredCommand>, c: DeferredCommand)
    ensures Holds(Entries(list), c) <==> c in list
  {
    assert forall k :: 0 <= k < |list| ==> Entries(list)[k].cmd == list[k];
  }

  class CmdQueue {
    var listPresentation: seq<DeferredCommand>
    var listStream: seq<DeferredCommand>
    var running: bool
    var streamTimeOffset: int
    var clock: bool
    ghost var Insertions: nat

    ghost function View(): Queue<DeferredCommand>
      reads this, listPresentation, listStream
    {
      Queue(Entries(listPresentation), Entries(listStream), Insertions, running, streamTimeOffset, clock)
    }

    ghost predicate Valid()
      reads this, listPresentation, listStream
    {
      && Good(View())
      && (forall c :: c in listPresentation ==> !c.isStream)
      && (forall c :: c in listStream ==> c.isStream)
    }

    constructor ()
      ensures Valid() && View() == Empty()
    {
      listPresentation, listStream, running, streamTimeOffset, clock, Insertions := [], [], false, 0, false, 0;
    }

    ghost function Listed(cmd: DeferredCommand): seq<DeferredCommand>
      reads this
    {
      if cmd.isStream then listStream else listPresentation
    }

    /** The place behind all the leading commands that are not later. */
    method PlaceFor(list: seq<DeferredCommand>, time: int) returns (pos: nat)
      ensures pos <= |list| && forall k :: 0 <= k < pos ==> list[k].time <= time
      ensures pos < |list| ==> list[pos].time > time
    {
      pos := 0;
      while pos < |list| && list[pos].time <= time
        invariant pos <= |list|
        invariant forall k :: 0 <= k < pos ==> list[k].time <= time
      {
        pos := pos + 1;
      }
    }

    /** A command on no list takes the next insertion number. */
    ghost method Stamp(cmd: DeferredCommand)
      requires cmd !in listPresentation && cmd !in listStream
      modifies this`Insertions, cmd`Order
      ensures cmd.Order == old(Insertions) && Insertions == old(Insertions) + 1
      ensures View() == old(View()).(insertions := Insertions)
    {
      cmd.Order := Insertions;
      Insertions := Insertions + 1;
      assert Entries(listStream) == old(Entries(listStream));
      assert Entries(listPresentation) == old(Entries(listPresentation));
    }

    method Insert(cmd: DeferredCommand)
      requires Valid() && cmd !in Listed(cmd)
      modifies this`listPresentation, this`listStream, this`Insertions, cmd`Order
      ensures Valid()
      ensures View() == AfterInsert(old(View()), cmd, cmd.time, cmd.isStream)
      ensures cmd in Listed(cmd)
    {
      hide Good, Inserted, Entries, Holds;
      HoldsEntries(Listed(cmd), cmd);
      InsertKeepsGood(View(), cmd, cmd.time, cmd.isStream);
      var list := if cmd.isStream then listStream else listPresentation;
      var pos := PlaceFor(list, cmd.time);
      Stamp(cmd);
      EntriesInserted(list, pos, cmd);
      list := list[..pos] + [cmd] + list[pos..];
      assert list[pos] == cmd;
      if cmd.isStream {
        listStream := list;
      } else {
        listPresentation := list;
      }
    }

    method Remove(cmd: DeferredCommand) returns (found: bool)
      requires Valid()
      modifies this`listPresentation, this`listStream
      ensures Valid()
      ensures (View(), found) == AfterRemove(old(View()), cmd, cmd.isStream)
      ensures found <==> cmd in old(Listed(cmd))
      ensures cmd !in Listed(cmd)
      ensures !found ==> listPresentation == old(listPresentation) && listStream == old(listStream)
    {
      hide Good, Removed, Find, Entries, Holds;
      HoldsEntries(Listed(cmd), cmd);
      RemoveKeepsGood(View(), cmd, cmd.isStream);
      var list := if cmd.isStream then listStream else listPresentation;
      var pos := 0;
      while pos < |list| && list[pos] != cmd
        invariant pos <= |list|
        invariant forall k :: 0 <= k < pos ==> list[k] != cmd
      {
        pos := pos + 1;
      }
      EntriesRemoved(list, pos, cmd);
      found := pos < |list|;
      if found {
        list := list[..pos] + list[pos + 1..];
        if cmd.isStream {
          listStream := list;
        } else {
          listPresentation := list;
        }
      }
      HoldsEntries(Listed(cmd), cmd);
    }

    predicate TimeIsDue(time: int, isStream: bool, now: int)
      reads this
    {
      clock && (isStream ==> running) && time + (if isStream then streamTimeOffset else 0) <= now
    }

    /** CDeferredCommand::Postpone on this queue, with the clock showing now. */
    method PostponeCommand(cmd: DeferredCommand, newTime: int, now: int) returns (outcome: Outcome)
      requires Valid()
      modifies this`listPresentation, this`listStream, this`Insertions, cmd`time, cmd`Order
      ensures Valid()
      ensures (View(), outcome) == AfterPostpone(old(View()), cmd, newTime, cmd.isStream, now)
      ensures outcome.Ok? ==> cmd.time == newTime && cmd in Listed(cmd)
      ensures !outcome.Ok? ==> cmd.time == old(cmd.time) && listPresentation == old(listPresentation)
                               && listStream == old(listStream)
    {
      hide Good, Removed, Inserted, Find, Entries, Holds;
      if TimeIsDue(newTime, cmd.isStream, now) {
        return TimeAlreadyPassed;
      }
      var found := Remove(cmd);
      if !found {
        return NotFound;
      }
      label taken:
      cmd.time := newTime;
      assert Entries(listStream) == old@taken(Entries(listStream));
      assert Entries(listPresentation) == old@taken(Entries(listPresentation));
      Insert(cmd);
      outcome := Ok;
    }

    /** One turn of GetDueCommand's loop, with the clock showing now; null where it would wait. */
    method GetDueCommandTurn(now: int) returns (due: DeferredCommand?)
      requires Valid()
      ensures match DueCommand(View(), now) { case None => due == null case Some(c) => due == c }
    {
      hide Good;
      due := null;
      if listPresentation != [] {
        due := listPresentation[0];
      }
      if running {
        if listStream != [] {
          var pStrm := listStream[0];
          if due == null || pStrm.time + streamTimeOffset < due.time {
            due := pStrm;
          }
        }
      }
      if due != null && !TimeIsDue(due.time, due.isStream, now) {
        due := null;
      }
    }

    method GetCommandDueFor(streamTime: int, now: int) returns (due: DeferredCommand?)
      requires Valid()
      ensures match CommandDueFor(View(), streamTime, now) { case None => due == null case Some(c) => due == c }
    {
      hide Good;
      var pStream: DeferredCommand? := if listStream != [] then listStream[0] else null;
      var pPresent: DeferredCommand? := if listPresentation != [] then listPresentation[0] else null;
      if pPresent != null && TimeIsDue(pPresent.time, false, now) {
        return pPresent;
      }
      if pStream != null && pStream.time <= streamTime {
        return pStream;
      }
      if running && pPresent != null {
        if pPresent.time <= streamTime + streamTimeOffset {
          return pPresent;
        }
      }
      return null;
    }

    method Run(offset: int)
      requires Valid()
      modifies this`running, this`streamTimeOffset
      ensures Valid() && View() == old(View()).(running := true, offset := offset)
    {
      streamTimeOffset, running := offset, true;
    }

    method EndRun()
      requires Valid()
      modifies this`running
      ensures Valid() && View() == old(View()).(running := false)
    {
      running := false;
    }

    method SetSyncSource(present: bool)
      requires Valid()
      modifies this`clock
      ensures Valid() && View() == old(View()).(clock := present)
    {
      clock := present;
    }
  }
}
