/** The blocking protocol of CDynamicOutputPin (src/BaseClasses/amfilter.cpp:3993-4254):
    its locked sections as functions and as a class proved against them, and then every
    interleaving of streaming threads and block requests. */
module DynamicPin {

  datatype BlockState = NotBlocked | Pending | Blocked

  /** Requests are numbered; a request's number stands for its duplicated handle. */
  datatype Handle = NoHandle | Ticket(n: nat)

  /** signals and closes: how often SetEvent and CloseHandle were called on each handle.
      caller: the requesting thread's id, 0 for none. */
  datatype Pin = Pin(
    block: BlockState, notify: Handle, caller: nat, users: nat, unblockEvent: bool,
    signals: multiset<nat>, closes: multiset<nat>)

  datatype BlockResult = Ok | AlreadyBlockedOnThisThread | AlreadyBlocked | DuplicateFailed

  const INITIAL := Pin(NotBlocked, NoHandle, 0, 0, true, multiset{}, multiset{})

  function Notified(p: Pin): Pin {
    match p.notify
    case NoHandle => p
    case Ticket(n) => p.(signals := p.signals + multiset{n}, closes := p.closes + multiset{n}, notify := NoHandle)
  }

  function BlockNow(p: Pin): Pin { Notified(p).(unblockEvent := false, block := Blocked) }

  /** duplicate: what DuplicateHandle gives, NoHandle when it fails. */
  function RequestBlock(p: Pin, thread: nat, duplicate: Handle): (Pin, BlockResult) {
    if p.block != NotBlocked then
      (p, if p.caller == thread then AlreadyBlockedOnThisThread else AlreadyBlocked)
    else if duplicate == NoHandle then
      (p, DuplicateFailed)
    else
      var q := p.(notify := duplicate, block := Pending, caller := thread);
      (if q.users > 0 then q else BlockNow(q), Ok)
  }

  function Unblock(p: Pin): Pin {
    if p.block == NotBlocked then p
    else Notified(p).(unblockEvent := true, block := NotBlocked, caller := 0)
  }

  /** One test of StartUsingOutputPin's loop under the lock. */
  function TryStart(p: Pin): (Pin, bool) {
    if p.block == Blocked then (p, false) else (p.(users := p.users + 1), true)
  }

  function StopUsing(p: Pin): Pin
    requires p.users > 0
  {
    var q := p.(users := p.users - 1);
    if q.users == 0 && q.block != NotBlocked then BlockNow(q) else q
  }

  /** CDynamicOutputPin::AssertValid, less the checks that handles were created. */
  predicate AssertValid(p: Pin) {
    && (p.notify == NoHandle <==> p.block != Pending)
    && (p.caller == 0 || p.block != NotBlocked)
    && (p.users != 0 ==> p.block != Blocked)
  }

  class DynamicOutputPin {
    var blockState: BlockState
    var notifyCaller: Handle
    var blockCallerThreadID: nat
    var outstandingUsers: nat
    var unblockEvent: bool
    ghost var signals: multiset<nat>
    ghost var closes: multiset<nat>

    ghost function View(): Pin
      reads this
    {
      Pin(blockState, notifyCaller, blockCallerThreadID, outstandingUsers, unblockEvent, signals, closes)
    }

    constructor ()
      ensures View() == INITIAL
    {
      blockState, notifyCaller, blockCallerThreadID := NotBlocked, NoHandle, 0;
      outstandingUsers, unblockEvent := 0, true;
      signals, closes := multiset{}, multiset{};
    }

    method SignalAndClose()
      requires notifyCaller.Ticket?
      modifies this`signals, this`closes
      ensures signals == old(signals) + multiset{notifyCaller.n}
      ensures closes == old(closes) + multiset{notifyCaller.n}
    {
      signals := signals + multiset{notifyCaller.n};
      closes := closes + multiset{notifyCaller.n};
    }

    method BlockOutputPin()
      requires notifyCaller.Ticket? && outstandingUsers == 0
      modifies this
      ensures View() == BlockNow(old(View()))
    {
      ghost var ticket := notifyCaller.n;
      assert Notified(View()) == View().(signals := signals + multiset{ticket}, closes := closes + multiset{ticket},
                                         notify := NoHandle);
      hide Notified;
      unblockEvent := false;
      SignalAndClose();
      blockState := Blocked;
      notifyCaller := NoHandle;
    }

    method AsynchronousBlockOutputPin(thread: nat, duplicate: Handle) returns (result: BlockResult)
      modifies this
      ensures (View(), result) == RequestBlock(old(View()), thread, duplicate)
    {
      if blockState != NotBlocked {
        return if blockCallerThreadID == thread then AlreadyBlockedOnThisThread else AlreadyBlocked;
      }
      if duplicate == NoHandle {
        return DuplicateFailed;
      }
      notifyCaller := duplicate;
      blockState := Pending;
      blockCallerThreadID := thread;
      if !(outstandingUsers > 0) {
        BlockOutputPin();
      }
      result := Ok;
    }

    method UnblockOutputPin() returns (wasBlocked: bool)
      modifies this
      ensures View() == Unblock(old(View()))
      ensures wasBlocked <==> old(blockState) != NotBlocked
    {
      if blockState == NotBlocked {
        return false;
      }
      unblockEvent := true;
      if notifyCaller != NoHandle {
        SignalAndClose();
      }
      blockState := NotBlocked;
      blockCallerThreadID := 0;
      notifyCaller := NoHandle;
      wasBlocked := true;
    }

    method StartUsingSection() returns (entered: bool)
      modifies this
      ensures (View(), entered) == TryStart(old(View()))
    {
      entered := blockState != Blocked;
      if entered {
        outstandingUsers := outstandingUsers + 1;
      }
    }

    method StopUsingOutputPin()
      requires outstandingUsers > 0 && AssertValid(View())
      modifies this
      ensures View() == StopUsing(old(View()))
    {
      outstandingUsers := outstandingUsers - 1;
      if outstandingUsers == 0 && blockState != NotBlocked {
        BlockOutputPin();
      }
    }
  }
}

module DynamicPinProtocol {
  import opened Counting
  import opened DynamicPin

  /** AtLock: about to lock in StartUsingOutputPin. AwaitingUnblock: in
      WaitForMultipleObjects on the unblock and stop events. Woken: that wait returned, not
      yet relocked. Using: between StartUsingOutputPin and StopUsingOutputPin.
      AwaitingBlock: in SynchronousBlockOutputPin, waiting for its own event. */
  datatype PC = Outside | AtLock | AwaitingUnblock | Woken(stopped: bool) | Using | AwaitingBlock(ticket: nat)

  /** issued: how many block requests were accepted. */
  datatype System = System(pin: Pin, pcs: map<nat, PC>, stopEvent: bool, issued: nat)

  datatype Action =
    | BeginStart | StartSection | WakeUp | Relock | Stop
    | Block(duplicated: bool, synchronous: bool) | BlockDone | Unblocking | SetStopEvent(on: bool)

  predicate Enabled(s: System, t: nat, act: Action) {
    && t in s.pcs
    && match act
       case BeginStart => s.pcs[t].Outside?
       case StartSection => s.pcs[t].AtLock?
       case WakeUp => s.pcs[t].AwaitingUnblock? && (s.pin.unblockEvent || s.stopEvent)
       case Relock => s.pcs[t].Woken?
       case Stop => s.pcs[t].Using? && s.pin.users > 0
       case Block(_, synchronous) => s.pcs[t].Outside? || (s.pcs[t].Using? && !synchronous)
       case BlockDone => s.pcs[t].AwaitingBlock? && s.pin.signals[s.pcs[t].ticket] > 0
       case Unblocking => s.pcs[t].Outside? || s.pcs[t].Using?
       case SetStopEvent(_) => s.pcs[t].Outside? || s.pcs[t].Using?
  }

  function StartOrWait(s: System, t: nat): System {
    var (pin, entered) := TryStart(s.pin);
    s.(pin := pin, pcs := s.pcs[t := if entered then Using else AwaitingUnblock])
  }

  function Next(s: System, t: nat, act: Action): System
    requires Enabled(s, t, act)
  {
    match act
    case BeginStart => s.(pcs := s.pcs[t := AtLock])
    case StartSection => StartOrWait(s, t)
    case WakeUp => s.(pcs := s.pcs[t := Woken(!s.pin.unblockEvent)])  // the first signalled event counts
    case Relock => if s.pcs[t].stopped then s.(pcs := s.pcs[t := Outside]) else StartOrWait(s, t)
    case Stop => s.(pin := StopUsing(s.pin), pcs := s.pcs[t := Outside])
    case Block(duplicated, synchronous) =>
      var (pin, result) := RequestBlock(s.pin, t + 1, if duplicated then Ticket(s.issued) else NoHandle);
      if result == Ok then
        s.(pin := pin, issued := s.issued + 1,
           pcs := if synchronous then s.pcs[t := AwaitingBlock(s.issued)] else s.pcs)
      else
        s.(pin := pin)
    case BlockDone => s.(pcs := s.pcs[t := Outside])
    case Unblocking => s.(pin := Unblock(s.pin))
    case SetStopEvent(on) => s.(stopEvent := on)
  }

  predicate Start(s: System) {
    && s.pin == INITIAL && s.issued == 0
    && forall t :: t in s.pcs ==> s.pcs[t] == Outside
  }

  datatype Event = Event(thread: nat, action: Action)

  predicate Possible(s: System, run: seq<Event>)
    decreases |run|
  {
    run == [] || (Enabled(s, run[0].thread, run[0].action)
                  && Possible(Next(s, run[0].thread, run[0].action), run[1..]))
  }

  function After(s: System, run: seq<Event>): System
    requires Possible(s, run)
    decreases |run|
  {
    if run == [] then s else After(Next(s, run[0].thread, run[0].action), run[1..])
  }

  ghost predicate Reachable(s: System) {
    exists s0, run :: Start(s0) && Possible(s0, run) && After(s0, run) == s
  }

  // ----- the invariant

  function Users(pcs: map<nat, PC>): set<nat> { set t | t in pcs && pcs[t].Using? }

  predicate PinAgrees(p: Pin) {
    && AssertValid(p)
    && (p.unblockEvent <==> p.block != Blocked)
    && (p.block == Pending ==> p.users > 0)
    && (p.caller == 0 ==> p.block == NotBlocked)
  }

  /** Each accepted request's handle was signalled and closed once, except the pending
      request's, which was not; no other handle was touched. */
  ghost predicate OneShot(p: Pin, issued: nat) {
    && (p.notify.Ticket? ==> p.notify.n < issued)
    && forall n: nat :: p.signals[n] == p.closes[n] == if n < issued && p.notify != Ticket(n) then 1 else 0
  }

  ghost predicate Invariant(s: System) {
    && PinAgrees(s.pin)
    && OneShot(s.pin, s.issued)
    && s.pin.users == |Users(s.pcs)|
    && forall t :: t in s.pcs && s.pcs[t].AwaitingBlock? ==> s.pcs[t].ticket < s.issued
  }

  lemma StepUsers(s: System, t: nat, act: Action)
    requires Invariant(s) && Enabled(s, t, act)
    ensures Next(s, t, act).pin.users == |Users(Next(s, t, act).pcs)|
  {
    var n := Next(s, t, act);
    assert n.pcs == s.pcs[t := n.pcs[t]];
    assert Users(s.pcs) - {t} == Users(n.pcs) - {t};
    MemberChange(Users(s.pcs), Users(n.pcs), t);
    hide PinAgrees, OneShot, Notified;
  }

  lemma StepAgrees(s: System, t: nat, act: Action)
    requires Invariant(s) && Enabled(s, t, act)
    ensures PinAgrees(Next(s, t, act).pin)
  {
    hide OneShot, Users;
  }

  lemma NotifiedOneShot(p: Pin, issued: nat)
    requires OneShot(p, issued)
    ensures OneShot(Notified(p), issued)
  {
  }

  lemma RequestOneShot(p: Pin, thread: nat, duplicate: Handle, issued: nat)
    requires PinAgrees(p) && OneShot(p, issued) && (duplicate == NoHandle || duplicate == Ticket(issued))
    ensures var (q, result) := RequestBlock(p, thread, duplicate);
            OneShot(q, if result == Ok then issued + 1 else issued)
  {
    hide Notified;
    if p.block == NotBlocked && duplicate != NoHandle {
      var q := p.(notify := duplicate, block := Pending, caller := thread);
      assert OneShot(q, issued + 1);
      NotifiedOneShot(q, issued + 1);
    }
  }

  lemma StopOneShot(p: Pin, issued: nat)
    requires OneShot(p, issued) && p.users > 0
    ensures OneShot(StopUsing(p), issued)
  {
    hide Notified;
    NotifiedOneShot(p.(users := p.users - 1), issued);
  }

  lemma UnblockOneShot(p: Pin, issued: nat)
    requires OneShot(p, issued)
    ensures OneShot(Unblock(p), issued) && OneShot(TryStart(p).0, issued)
  {
    hide Notified;
    NotifiedOneShot(p, issued);
  }

  lemma StepOneShot(s: System, t: nat, act: Action)
    requires Invariant(s) && Enabled(s, t, act)
    ensures OneShot(Next(s, t, act).pin, Next(s, t, act).issued)
  {
    hide Users, OneShot, RequestBlock, StopUsing, Unblock, TryStart, PinAgrees;
    UnblockOneShot(s.pin, s.issued);
    if act.Block? {
      RequestOneShot(s.pin, t + 1, if act.duplicated then Ticket(s.issued) else NoHandle, s.issued);
    }
    if act.Stop? && s.pin.users > 0 {
      StopOneShot(s.pin, s.issued);
    }
  }

  lemma StepTickets(s: System, t: nat, act: Action)
    requires Invariant(s) && Enabled(s, t, act)
    ensures var n := Next(s, t, act);
            forall u :: u in n.pcs && n.pcs[u].AwaitingBlock? ==> n.pcs[u].ticket < n.issued
  {
    hide Users, OneShot, PinAgrees;
  }

  lemma StepKeepsInvariant(s: System, t: nat, act: Action)
    requires Invariant(s) && Enabled(s, t, act)
    ensures Invariant(Next(s, t, act))
  {
    StepUsers(s, t, act);
    StepAgrees(s, t, act);
    StepOneShot(s, t, act);
    StepTickets(s, t, act);
    hide Next, Enabled;
  }

  lemma {:induction false} RunKeepsInvariant(s: System, run: seq<Event>)
    requires Invariant(s) && Possible(s, run)
    ensures Invariant(After(s, run))
    decreases |run|
  {
    if run != [] {
      StepKeepsInvariant(s, run[0].thread, run[0].action);
      RunKeepsInvariant(Next(s, run[0].thread, run[0].action), run[1..]);
    }
  }

  lemma ReachableInvariant(s: System)
    requires Reachable(s)
    ensures Invariant(s)
  {
    var s0, run :| Start(s0) && Possible(s0, run) && After(s0, run) == s;
    assert Users(s0.pcs) == {};
    RunKeepsInvariant(s0, run);
  }

  // ----- what the protocol promises

  lemma NeverBlockedWhileUsing(s: System)
    requires Reachable(s)
    ensures s.pin.block == Blocked ==> forall t :: t in s.pcs ==> !s.pcs[t].Using?
    ensures s.pin.block == Pending ==> exists t :: t in s.pcs && s.pcs[t].Using?
    ensures s.pin.unblockEvent <==> s.pin.block != Blocked
    ensures AssertValid(s.pin)
  {
    ReachableInvariant(s);
    if forall t :: t in s.pcs ==> !s.pcs[t].Using? {
      assert Users(s.pcs) == {};
    }
    forall t | t in s.pcs && s.pcs[t].Using?
      ensures s.pin.users > 0
    {
      assert t in Users(s.pcs);
    }
  }

  lemma NotifiedExactlyOnce(s: System, n: nat)
    requires Reachable(s) && n < s.issued
    ensures s.pin.signals[n] == s.pin.closes[n]
    ensures s.pin.signals[n] == if s.pin.block == Pending && s.pin.notify == Ticket(n) then 0 else 1
  {
    ReachableInvariant(s);
  }

  /** The signal comes in the very step that blocks the pin or cancels the request. */
  lemma NotifiedWhenBlockedOrCancelled(s: System, t: nat, act: Action, n: nat)
    requires Reachable(s) && Enabled(s, t, act) && s.pin.notify == Ticket(n)
    ensures Next(s, t, act).pin.signals[n] == 1 <==>
              Next(s, t, act).pin.block == Blocked || act == Unblocking
  {
    ReachableInvariant(s);
  }

  /** A thread that cannot go on waits for something that is really so: the pin is blocked
      and not stopping, or its own request is pending behind a streaming thread. */
  lemma NoForgottenWaiter(s: System, t: nat)
    requires Reachable(s) && t in s.pcs
    ensures s.pcs[t].AwaitingUnblock? && !Enabled(s, t, WakeUp) ==> s.pin.block == Blocked && !s.stopEvent
    ensures s.pcs[t].AwaitingBlock? && !Enabled(s, t, BlockDone) ==>
              && s.pin.block == Pending && s.pin.notify == Ticket(s.pcs[t].ticket)
              && exists u :: u in s.pcs && s.pcs[u].Using?
    ensures s.pcs[t].Using? ==> Enabled(s, t, Stop)
  {
    ReachableInvariant(s);
    NeverBlockedWhileUsing(s);
    if s.pcs[t].Using? {
      assert t in Users(s.pcs);
    }
  }

  /** A thread at the lock gets in unless the pin is blocked, also while a request is pending. */
  lemma EntersUnlessBlocked(s: System, t: nat)
    requires Enabled(s, t, StartSection)
    ensures var n := Next(s, t, StartSection);
            && (n.pcs[t].Using? <==> s.pin.block != Blocked) && (n.pcs[t].AwaitingUnblock? <==> s.pin.block == Blocked)
            && n.pin == s.pin.(users := if s.pin.block == Blocked then s.pin.users else s.pin.users + 1)
  {
  }

  /** Unblocking lets every waiting thread in. */
  lemma UnblockLetsIn(s: System, u: nat, t: nat)
    requires Reachable(s) && Enabled(s, u, Unblocking) && t in s.pcs && s.pcs[t].AwaitingUnblock?
    ensures var n := Next(s, u, Unblocking);
            && n.pin.block == NotBlocked && n.pin.notify == NoHandle && Enabled(n, t, WakeUp)
            && var w := Next(n, t, WakeUp); Enabled(w, t, Relock) && Next(w, t, Relock).pcs[t].Using?
  {
    hide Reachable, OneShot, Users, Notified;
    ReachableInvariant(s);
    UnblockedPin(s.pin);
  }

  lemma UnblockedPin(p: Pin)
    requires PinAgrees(p)
    ensures var q := Unblock(p);
            q.block == NotBlocked && q.unblockEvent && q.notify == NoHandle && q.users == p.users
  {
  }

  /** The stop event turns a thread waiting for a blocked pin away, and the pin stays as it is. */
  lemma StopTurnsAway(s: System, t: nat)
    requires Reachable(s) && t in s.pcs && s.pcs[t].AwaitingUnblock? && s.pin.block == Blocked && s.stopEvent
    ensures Enabled(s, t, WakeUp)
    ensures var w := Next(s, t, WakeUp);
            Enabled(w, t, Relock) && Next(w, t, Relock).pcs[t].Outside? && Next(w, t, Relock).pin == s.pin
  {
    hide Reachable, OneShot, Users;
    ReachableInvariant(s);
  }

  /** An accepted request blocks a pin nobody uses at once, and otherwise when its last user leaves. */
  lemma BlocksWhenUnused(s: System, t: nat, act: Action)
    requires Reachable(s) && Enabled(s, t, act)
    ensures var n := Next(s, t, act);
            && (act.Block? && act.duplicated && s.pin.block == NotBlocked ==>
                  n.issued == s.issued + 1 && n.pin.block == if s.pin.users == 0 then Blocked else Pending)
            && (act.Stop? && s.pin.block == Pending ==> n.pin.block == if s.pin.users == 1 then Blocked else Pending)
            && (act.Block? && (s.pin.block != NotBlocked || !act.duplicated) ==> n == s)
  {
    hide Reachable, OneShot, Users, Notified;
    ReachableInvariant(s);
  }

  /** No event of the run unblocks the pin. */
  predicate NeverUnblocked(run: seq<Event>) {
    forall i :: 0 <= i < |run| ==> run[i].action != Unblocking
  }

  lemma CallerStays(s: System, t: nat, act: Action)
    requires Enabled(s, t, act) && act != Unblocking && s.pin.block != NotBlocked
    ensures Next(s, t, act).pin.caller == s.pin.caller && Next(s, t, act).pin.block != NotBlocked
  {
  }

  lemma {:induction false} CallerStaysThrough(s: System, run: seq<Event>)
    requires Possible(s, run) && NeverUnblocked(run) && s.pin.block != NotBlocked
    ensures After(s, run).pin.caller == s.pin.caller && After(s, run).pin.block != NotBlocked
    decreases |run|
  {
    if run != [] {
      hide Next, Enabled;
      CallerStays(s, run[0].thread, run[0].action);
      CallerStaysThrough(Next(s, run[0].thread, run[0].action), run[1..]);
    }
  }

  /** Until the pin is unblocked every further request is refused, and the reason tells the thread whose request
      was accepted from all others. */
  lemma RefusalTellsWho(s: System, t: nat, synchronous: bool, run: seq<Event>, u: nat, duplicate: Handle)
    requires Enabled(s, t, Block(true, synchronous)) && s.pin.block == NotBlocked
    requires Possible(Next(s, t, Block(true, synchronous)), run) && NeverUnblocked(run)
    ensures var p := After(Next(s, t, Block(true, synchronous)), run).pin;
            RequestBlock(p, u + 1, duplicate) == (p, if u == t then AlreadyBlockedOnThisThread else AlreadyBlocked)
  {
    hide Possible, After;
    CallerStaysThrough(Next(s, t, Block(true, synchronous)), run);
  }
}
