/**
 The InnoDB spin mutex as a step relation over any number of threads, one shared
 access per step, on sequentially consistent memory: `mutex_enter`, the spin and wait
 loop, `mutex_exit`, and the event they sleep on.
 */
module MutexProtocol {
  import opened OsEvent

  /** Where a thread stands.  `sig` is the count its reset of the event returned. */
  datatype Pc =
    | Idle
    | EnterTas                       // first test-and-set of mutex_enter
    | SpinRead(i: nat)               // reading the lock word in the spin loop
    | SpinTas(i: nat)                // test-and-set after the spin loop
    | ReserveCell                    // reserve a wait cell: resets the event
    | SetWaiters(sig: nat)           // about to store 1 in waiters
    | Retry(k: nat, sig: nat)        // one of the four last test-and-sets
    | WaitEvent(sig: nat)            // os_event_wait_low with the saved count
    | Critical                       // owns the mutex
    | ReadWaiters                    // mutex_exit, lock word already cleared
    | ClearWaiters                   // mutex_signal_object, about to store 0 in waiters
    | SignalEvent                    // about to call os_event_set

  datatype State = State(lockWord: bool, waiters: bool, event: Event, pc: seq<Pc>)

  predicate Init(s: State) {
    && !s.lockWord && !s.waiters && s.event == CREATED
    && forall t :: 0 <= t < |s.pc| ==> s.pc[t] == Idle
  }

  /** Only the wait on the event can block. */
  predicate Blocked(s: State, t: nat)
    requires t < |s.pc|
  {
    s.pc[t].WaitEvent? && !Released(s.event, s.pc[t].sig)
  }

  /** Test-and-set: the caller owns the mutex if the word was clear, else it goes on at `failed`. */
  function TestAndSet(s: State, t: nat, failed: Pc): State
    requires t < |s.pc|
  {
    if s.lockWord then s.(pc := s.pc[t := failed])
    else s.(lockWord := true, pc := s.pc[t := Critical])
  }

  /** The next step of thread `t`; `rounds` is SYNC_SPIN_ROUNDS. */
  function Next(s: State, t: nat, rounds: nat): State
    requires t < |s.pc|
    requires !Blocked(s, t)
  {
    match s.pc[t]
    case Idle => s.(pc := s.pc[t := EnterTas])
    case EnterTas => TestAndSet(s, t, SpinRead(0))
    case SpinRead(i) =>
      s.(pc := s.pc[t := if s.lockWord && i < rounds then SpinRead(i + 1) else SpinTas(i)])
    case SpinTas(i) => TestAndSet(s, t, if i + 1 < rounds then SpinRead(i + 1) else ReserveCell)
    case ReserveCell =>
      s.(event := OnReset(s.event), pc := s.pc[t := SetWaiters(s.event.signalCount)])
    case SetWaiters(sig) => s.(waiters := true, pc := s.pc[t := Retry(0, sig)])
    case Retry(k, sig) => TestAndSet(s, t, if k + 1 < 4 then Retry(k + 1, sig) else WaitEvent(sig))
    case WaitEvent(_) => s.(pc := s.pc[t := SpinRead(0)])
    case Critical => s.(lockWord := false, pc := s.pc[t := ReadWaiters])
    case ReadWaiters => s.(pc := s.pc[t := if s.waiters then ClearWaiters else Idle])
    case ClearWaiters => s.(waiters := false, pc := s.pc[t := SignalEvent])
    case SignalEvent => s.(event := OnSet(s.event), pc := s.pc[t := Idle])
  }

  // ---------- invariant ----------

  predicate Armed(p: Pc) { p.Retry? || p.WaitEvent? }

  /** Has failed a test-and-set made after storing 1 in waiters. */
  predicate FailedLate(p: Pc) { p.WaitEvent? || (p.Retry? && p.k > 0) }

  predicate HasCount(p: Pc) { p.SetWaiters? || Armed(p) }

  /** Will look at waiters again before it is done. */
  predicate WillCheck(p: Pc) { p.Critical? || p.ReadWaiters? || p.ClearWaiters? }

  predicate SomeSignaller(s: State) {
    exists u :: 0 <= u < |s.pc| && s.pc[u].SignalEvent?
  }

  predicate SomeChecker(s: State) {
    exists u :: 0 <= u < |s.pc| && WillCheck(s.pc[u])
  }

  /** A release that will set the event is still on its way. */
  predicate ReleasePending(s: State) {
    SomeSignaller(s) || (s.waiters && SomeChecker(s))
  }

  predicate Exclusive(s: State) {
    && (forall t, u :: 0 <= t < |s.pc| && 0 <= u < |s.pc| && s.pc[t].Critical? && s.pc[u].Critical? ==> t == u)
    && (s.lockWord <==> exists u :: 0 <= u < |s.pc| && s.pc[u].Critical?)
  }

  predicate CountsSane(s: State) {
    && s.event.signalCount >= 1
    && forall t :: 0 <= t < |s.pc| && HasCount(s.pc[t]) ==>
         && 1 <= s.pc[t].sig <= s.event.signalCount
         && (s.event.isSet ==> s.pc[t].sig < s.event.signalCount)
  }

  predicate NoLostWakeup(s: State) {
    forall t :: 0 <= t < |s.pc| && Armed(s.pc[t]) && s.pc[t].sig == s.event.signalCount ==>
      && (s.waiters || SomeSignaller(s))
      && (FailedLate(s.pc[t]) ==> ReleasePending(s))
  }

  predicate WaitersOwned(s: State) {
    s.waiters ==> exists u :: 0 <= u < |s.pc| && (s.pc[u].Retry? || WillCheck(s.pc[u]))
  }

  predicate Inv(s: State) {
    Exclusive(s) && CountsSane(s) && NoLostWakeup(s) && WaitersOwned(s)
  }

  lemma InitInv(s: State)
    requires Init(s)
    ensures Inv(s)
  {
  }

  /** Nobody enters or leaves the critical section. */
  lemma ExclusiveMove(s: State, s': State)
    requires Exclusive(s) && |s'.pc| == |s.pc| && s'.lockWord == s.lockWord
    requires forall u :: 0 <= u < |s.pc| ==> (s'.pc[u].Critical? <==> s.pc[u].Critical?)
    ensures Exclusive(s')
  {
    if s.lockWord {
      var u :| 0 <= u < |s.pc| && s.pc[u].Critical?;
      assert s'.pc[u].Critical?;
    }
  }

  lemma ExclusiveTestAndSet(s: State, t: nat, failed: Pc)
    requires t < |s.pc| && Exclusive(s) && !s.pc[t].Critical? && !failed.Critical?
    ensures Exclusive(TestAndSet(s, t, failed))
  {
    var s' := TestAndSet(s, t, failed);
    if s.lockWord {
      ExclusiveMove(s, s');
    } else {
      assert s'.pc[t].Critical?;
    }
  }

  lemma ExclusiveStep(s: State, t: nat, rounds: nat)
    requires t < |s.pc| && !Blocked(s, t) && Exclusive(s)
    ensures Exclusive(Next(s, t, rounds))
  {
    match s.pc[t]
    case EnterTas => ExclusiveTestAndSet(s, t, SpinRead(0));
    case SpinTas(i) => ExclusiveTestAndSet(s, t, if i + 1 < rounds then SpinRead(i + 1) else ReserveCell);
    case Retry(k, sig) => ExclusiveTestAndSet(s, t, if k + 1 < 4 then Retry(k + 1, sig) else WaitEvent(sig));
    case Critical =>
    case _ => ExclusiveMove(s, Next(s, t, rounds));
  }

  lemma CountsSaneStep(s: State, t: nat, rounds: nat)
    requires t < |s.pc| && !Blocked(s, t) && CountsSane(s)
    ensures CountsSane(Next(s, t, rounds))
    ensures s.event.signalCount <= Next(s, t, rounds).event.signalCount
  {
  }

  lemma WaitersOwnedStep(s: State, t: nat, rounds: nat)
    requires t < |s.pc| && !Blocked(s, t) && Exclusive(s) && WaitersOwned(s)
    ensures WaitersOwned(Next(s, t, rounds))
  {
    var s' := Next(s, t, rounds);
    if s'.waiters {
      assert s'.pc[t] == s'.pc[t];
      if s.waiters {
        var u :| 0 <= u < |s.pc| && (s.pc[u].Retry? || WillCheck(s.pc[u]));
        assert u != t ==> s'.pc[u] == s.pc[u];
      }
      if s.lockWord {
        var u :| 0 <= u < |s.pc| && s.pc[u].Critical?;
        assert u != t ==> s'.pc[u] == s.pc[u];
      }
    }
  }

  /** A pending release stays pending until the event is set. */
  lemma PendingStep(s: State, t: nat, rounds: nat)
    requires t < |s.pc| && !Blocked(s, t) && ReleasePending(s)
    requires !s.pc[t].SignalEvent?
    ensures ReleasePending(Next(s, t, rounds))
  {
    var s' := Next(s, t, rounds);
    assert s'.pc[t] == s'.pc[t];
    if SomeSignaller(s) {
      var u :| 0 <= u < |s.pc| && s.pc[u].SignalEvent?;
      assert s'.pc[u].SignalEvent?;
    } else {
      var u :| 0 <= u < |s.pc| && WillCheck(s.pc[u]);
      assert u != t ==> s'.pc[u] == s.pc[u];
    }
  }

  lemma MarkedStep(s: State, t: nat, rounds: nat)
    requires t < |s.pc| && !Blocked(s, t) && (s.waiters || SomeSignaller(s))
    requires !s.pc[t].SignalEvent?
    ensures var s' := Next(s, t, rounds); s'.waiters || SomeSignaller(s')
  {
    var s' := Next(s, t, rounds);
    assert s'.pc[t] == s'.pc[t];
    if SomeSignaller(s) {
      var u :| 0 <= u < |s.pc| && s.pc[u].SignalEvent?;
      assert s'.pc[u].SignalEvent?;
    }
  }

  lemma NoLostWakeupStep(s: State, t: nat, rounds: nat)
    requires t < |s.pc| && !Blocked(s, t) && Inv(s)
    ensures NoLostWakeup(Next(s, t, rounds))
  {
    var s' := Next(s, t, rounds);
    forall a | 0 <= a < |s'.pc| && Armed(s'.pc[a]) && s'.pc[a].sig == s'.event.signalCount
      ensures s'.waiters || SomeSignaller(s')
      ensures FailedLate(s'.pc[a]) ==> ReleasePending(s')
    {
      assert !s.pc[t].SignalEvent? by {
        if s.pc[t].SignalEvent? {
          assert HasCount(s.pc[a]);
        }
      }
      if s.pc[t].SetWaiters? {
        if a != t { if FailedLate(s.pc[a]) { PendingStep(s, t, rounds); } }
      } else {
        assert Armed(s.pc[a]) && s.pc[a].sig == s.event.signalCount;
        MarkedStep(s, t, rounds);
        if FailedLate(s.pc[a]) {
          PendingStep(s, t, rounds);
        } else if FailedLate(s'.pc[a]) {
          var u :| 0 <= u < |s.pc| && s.pc[u].Critical?;
          assert s'.pc[u].Critical?;
        }
      }
    }
  }

  lemma InvStep(s: State, t: nat, rounds: nat)
    requires t < |s.pc| && !Blocked(s, t) && Inv(s)
    ensures Inv(Next(s, t, rounds))
  {
    ExclusiveStep(s, t, rounds);
    CountsSaneStep(s, t, rounds);
    WaitersOwnedStep(s, t, rounds);
    NoLostWakeupStep(s, t, rounds);
  }

  // ---------- every run ----------

  /** One turn of the scheduler; a turn given to nobody, or to a blocked thread, changes nothing. */
  function Advance(s: State, t: int, rounds: nat): (s': State)
    ensures |s'.pc| == |s.pc|
  {
    if 0 <= t < |s.pc| && !Blocked(s, t) then Next(s, t, rounds) else s
  }

  function Reached(s: State, schedule: seq<int>, rounds: nat): State
  {
    if schedule == [] then s
    else Advance(Reached(s, schedule[..|schedule| - 1], rounds), schedule[|schedule| - 1], rounds)
  }

  lemma AdvanceInv(s: State, t: int, rounds: nat)
    requires Inv(s)
    ensures Inv(Advance(s, t, rounds))
  {
    if 0 <= t < |s.pc| && !Blocked(s, t) {
      InvStep(s, t, rounds);
    }
  }

  lemma {:induction false} ReachedInv(s: State, schedule: seq<int>, rounds: nat)
    requires Init(s)
    ensures Inv(Reached(s, schedule, rounds))
  {
    if schedule == [] {
      InitInv(s);
    } else {
      ReachedInv(s, schedule[..|schedule| - 1], rounds);
      AdvanceInv(Reached(s, schedule[..|schedule| - 1], rounds), schedule[|schedule| - 1], rounds);
    }
  }

  /** At most one thread owns the mutex, and the lock word tells whether one does. */
  lemma MutualExclusion(s: State, schedule: seq<int>, rounds: nat)
    requires Init(s)
    ensures var r := Reached(s, schedule, rounds);
      && (forall t, u :: 0 <= t < |r.pc| && 0 <= u < |r.pc| && r.pc[t] == Critical && r.pc[u] == Critical ==> t == u)
      && (r.lockWord <==> Critical in r.pc)
  {
    ReachedInv(s, schedule, rounds);
  }

  /**
   The assertions of `mutex_free`: a thread that won one of its last four attempts leaves
   waiters at 1, yet once nobody is in the critical section, in the last attempts or on
   the way out, both words are 0 again.
   */
  lemma CleanAtRest(s: State, schedule: seq<int>, rounds: nat)
    requires Init(s)
    requires var r := Reached(s, schedule, rounds);
      forall t :: 0 <= t < |r.pc| ==> !r.pc[t].Retry? && !WillCheck(r.pc[t])
    ensures var r := Reached(s, schedule, rounds); !r.lockWord && !r.waiters
  {
    ReachedInv(s, schedule, rounds);
  }

  /** LEMMA 1 as a state property: a thread asleep on the event has a release on its way. */
  lemma SleeperHasPendingRelease(s: State, schedule: seq<int>, rounds: nat, t: nat)
    requires Init(s) && t < |s.pc|
    requires var r := Reached(s, schedule, rounds); t < |r.pc| && Blocked(r, t)
    ensures ReleasePending(Reached(s, schedule, rounds))
  {
    ReachedInv(s, schedule, rounds);
  }

  // ---------- fair infinite runs ----------

  ghost predicate Behaviour(run: nat -> State, turn: nat -> int, rounds: nat) {
    && Init(run(0))
    && forall i: nat {:trigger turn(i)} :: run(i + 1) == Advance(run(i), turn(i), rounds)
  }

  /** Thread `t` gets the turn, or has nothing to do, or cannot move. */
  ghost predicate Attended(run: nat -> State, turn: nat -> int, t: nat, j: nat) {
    t < |run(j).pc| && (turn(j) == t || Blocked(run(j), t) || run(j).pc[t].Idle?)
  }

  ghost predicate AttendedFrom(run: nat -> State, turn: nat -> int, t: nat, i: nat) {
    exists j: nat :: i <= j && Attended(run, turn, t, j)
  }

  /** Nobody who is in the middle of an operation and could move is ignored for ever. */
  ghost predicate Fair(run: nat -> State, turn: nat -> int) {
    forall t: nat, i: nat :: t < |run(0).pc| ==> AttendedFrom(run, turn, t, i)
  }

  lemma {:induction false} Along(run: nat -> State, turn: nat -> int, rounds: nat, i: nat)
    requires Behaviour(run, turn, rounds)
    ensures Inv(run(i)) && |run(i).pc| == |run(0).pc|
  {
    if i == 0 {
      InitInv(run(0));
    } else {
      Along(run, turn, rounds, i - 1);
      var _ := turn(i - 1);
      AdvanceInv(run(i - 1), turn(i - 1), rounds);
    }
  }

  /** A saved count that was sane stays sane: it can only be overtaken. */
  lemma {:induction false} CountKept(run: nat -> State, turn: nat -> int, rounds: nat, i: nat, j: nat, sig: nat)
    requires Behaviour(run, turn, rounds) && i <= j
    requires sig <= run(i).event.signalCount
    requires run(i).event.isSet ==> sig < run(i).event.signalCount
    ensures run(i).event.signalCount <= run(j).event.signalCount
    ensures run(j).event.isSet ==> sig < run(j).event.signalCount
    decreases j - i
  {
    if i < j {
      CountKept(run, turn, rounds, i, j - 1, sig);
      var _ := turn(j - 1);
    }
  }

  /** The first turn that thread `u` gets from `i` on finds it where it was. */
  lemma {:induction false} FirstTurn(run: nat -> State, turn: nat -> int, rounds: nat, u: nat, i: nat, bound: nat)
    returns (j: nat)
    requires Behaviour(run, turn, rounds) && i <= bound
    requires u < |run(0).pc| && |run(i).pc| == |run(0).pc|
    requires !run(i).pc[u].Idle?
    requires run(i).pc[u].WaitEvent? ==> run(i).pc[u].sig < run(i).event.signalCount
    requires Attended(run, turn, u, bound)
    ensures i <= j && turn(j) == u
    ensures u < |run(j).pc| && run(j).pc[u] == run(i).pc[u] && !Blocked(run(j), u)
    decreases bound - i
  {
    if turn(i) == u {
      j := i;
    } else {
      assert i < bound;
      assert run(i + 1) == Advance(run(i), turn(i), rounds);
      assert run(i + 1).pc[u] == run(i).pc[u];
      assert run(i).event.signalCount <= run(i + 1).event.signalCount;
      j := FirstTurn(run, turn, rounds, u, i + 1, bound);
    }
  }

  lemma NextTurn(run: nat -> State, turn: nat -> int, rounds: nat, u: nat, i: nat)
    returns (j: nat)
    requires Behaviour(run, turn, rounds) && Fair(run, turn)
    requires u < |run(i).pc| && !run(i).pc[u].Idle?
    requires run(i).pc[u].WaitEvent? ==> run(i).pc[u].sig < run(i).event.signalCount
    ensures i <= j && turn(j) == u && u < |run(j).pc| && run(j).pc[u] == run(i).pc[u] && !Blocked(run(j), u)
    ensures run(j + 1) == Next(run(j), u, rounds)
  {
    Along(run, turn, rounds, i);
    assert AttendedFrom(run, turn, u, i);
    var b: nat :| i <= b && Attended(run, turn, u, b);
    j := FirstTurn(run, turn, rounds, u, i, b);
    assert run(j + 1) == Advance(run(j), turn(j), rounds);
  }

  /** While the count has not moved, the sleeper sleeps on, and a release stays on its way. */
  lemma {:induction false} StillAsleep(run: nat -> State, turn: nat -> int, rounds: nat, t: nat, sig: nat, i: nat, j: nat)
    requires Behaviour(run, turn, rounds) && i <= j
    requires t < |run(i).pc| && run(i).pc[t] == WaitEvent(sig)
    requires run(j).event.signalCount == sig
    ensures t < |run(j).pc| && run(j).pc[t] == WaitEvent(sig) && ReleasePending(run(j))
    decreases j - i
  {
    Along(run, turn, rounds, i);
    Along(run, turn, rounds, j);
    if i < j {
      Along(run, turn, rounds, j - 1);
      CountKept(run, turn, rounds, i, j - 1, sig);
      var _ := turn(j - 1);
      StillAsleep(run, turn, rounds, t, sig, i, j - 1);
    }
  }

  ghost predicate Asleep(run: nat -> State, t: nat, sig: nat, i: nat) {
    t < |run(i).pc| && run(i).pc[t] == WaitEvent(sig)
  }

  lemma FromSignal(run: nat -> State, turn: nat -> int, rounds: nat, t: nat, sig: nat, i: nat, u: nat, k: nat)
    returns (j: nat)
    requires Behaviour(run, turn, rounds) && Fair(run, turn) && Asleep(run, t, sig, i)
    requires i <= k && u < |run(k).pc| && run(k).pc[u].SignalEvent?
    ensures i <= j && sig < run(j).event.signalCount
  {
    Along(run, turn, rounds, i);
    j := NextTurn(run, turn, rounds, u, k);
    CountKept(run, turn, rounds, i, j, sig);
    j := j + 1;
  }

  lemma FromClear(run: nat -> State, turn: nat -> int, rounds: nat, t: nat, sig: nat, i: nat, u: nat, k: nat)
    returns (j: nat)
    requires Behaviour(run, turn, rounds) && Fair(run, turn) && Asleep(run, t, sig, i)
    requires i <= k && u < |run(k).pc| && run(k).pc[u].ClearWaiters?
    ensures i <= j && sig < run(j).event.signalCount
  {
    j := NextTurn(run, turn, rounds, u, k);
    j := FromSignal(run, turn, rounds, t, sig, i, u, j + 1);
  }

  /** If the count has not moved by `k`, some signaller is known, or waiters is still 1. */
  lemma AtOrSignalled(run: nat -> State, turn: nat -> int, rounds: nat, t: nat, sig: nat, i: nat, k: nat)
    returns (done: bool, j: nat)
    requires Behaviour(run, turn, rounds) && Fair(run, turn) && Asleep(run, t, sig, i) && i <= k
    ensures done ==> i <= j && sig < run(j).event.signalCount
    ensures !done ==> run(k).waiters && SomeChecker(run(k))
  {
    done, j := false, k;
    Along(run, turn, rounds, i);
    CountKept(run, turn, rounds, i, k, sig);
    if sig < run(k).event.signalCount {
      done := true;
    } else {
      StillAsleep(run, turn, rounds, t, sig, i, k);
      if SomeSignaller(run(k)) {
        var u :| 0 <= u < |run(k).pc| && run(k).pc[u].SignalEvent?;
        j := FromSignal(run, turn, rounds, t, sig, i, u, k);
        done := true;
      }
    }
  }

  lemma FromRead(run: nat -> State, turn: nat -> int, rounds: nat, t: nat, sig: nat, i: nat, u: nat, k: nat)
    returns (j: nat)
    requires Behaviour(run, turn, rounds) && Fair(run, turn) && Asleep(run, t, sig, i)
    requires i <= k && u < |run(k).pc| && run(k).pc[u].ReadWaiters?
    ensures i <= j && sig < run(j).event.signalCount
  {
    var k' := NextTurn(run, turn, rounds, u, k);
    var done, j' := AtOrSignalled(run, turn, rounds, t, sig, i, k');
    if done {
      j := j';
    } else {
      j := FromClear(run, turn, rounds, t, sig, i, u, k' + 1);
    }
  }

  lemma SetComes(run: nat -> State, turn: nat -> int, rounds: nat, t: nat, sig: nat, i: nat)
    returns (j: nat)
    requires Behaviour(run, turn, rounds) && Fair(run, turn) && Asleep(run, t, sig, i)
    ensures i <= j && sig < run(j).event.signalCount
  {
    var done;
    done, j := AtOrSignalled(run, turn, rounds, t, sig, i, i);
    if !done {
      var u :| 0 <= u < |run(i).pc| && WillCheck(run(i).pc[u]);
      match run(i).pc[u] {
        case ClearWaiters => j := FromClear(run, turn, rounds, t, sig, i, u, i);
        case ReadWaiters => j := FromRead(run, turn, rounds, t, sig, i, u, i);
        case Critical =>
          j := NextTurn(run, turn, rounds, u, i);
          j := FromRead(run, turn, rounds, t, sig, i, u, j + 1);
      }
    }
  }

  /**
   LEMMA 1: no infinite wait.  In every fair run, a thread that waits on the event of the
   mutex after its reset leaves the wait again, whatever the other threads do.
   */
  lemma NoInfiniteWait(run: nat -> State, turn: nat -> int, rounds: nat, t: nat, sig: nat, i: nat)
    returns (j: nat)
    requires Behaviour(run, turn, rounds) && Fair(run, turn)
    requires t < |run(i).pc| && run(i).pc[t] == WaitEvent(sig)
    ensures i < j && t < |run(j).pc| && run(j).pc[t] == SpinRead(0)
  {
    var k := SetComes(run, turn, rounds, t, sig, i);
    j := LeavesOnce(run, turn, rounds, t, sig, i, k);
  }

  /** From a sleeping state on, either the thread has left already, or it is still there. */
  lemma {:induction false} LeavesOnce(run: nat -> State, turn: nat -> int, rounds: nat, t: nat, sig: nat, i: nat, k: nat)
    returns (j: nat)
    requires Behaviour(run, turn, rounds) && Fair(run, turn) && Asleep(run, t, sig, i)
    requires i <= k && sig < run(k).event.signalCount
    ensures i < j && t < |run(j).pc| && run(j).pc[t] == SpinRead(0)
    decreases k - i
  {
    Along(run, turn, rounds, i);
    if sig < run(i).event.signalCount {
      j := NextTurn(run, turn, rounds, t, i);
      j := j + 1;
    } else {
      assert i < k;
      assert run(i + 1) == Advance(run(i), turn(i), rounds);
      j := LeavesOnce(run, turn, rounds, t, sig, i + 1, k);
    }
  }
}
