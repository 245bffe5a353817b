/**
 What a call of `mutex_enter` and `mutex_exit` amounts to, read off the lock word, the waiters
 field and the event over whole schedules: an enter returns as the owner, an exit gives the
 mutex back, and it sets the event exactly if it saw a waiter.
 */
module MutexRounds {
  import opened OsEvent
  import opened MutexProtocol

  /** What the turns of one thread have done so far. */
  datatype Tally = Tally(
    enters: nat,   // calls begun
    exits: nat,    // calls ended, exit included
    takes: nat,    // turns at which the lock word went from 0 to 1
    gives: nat,    // turns at which it went from 1 to 0
    seen: nat,     // turns of an exit that found waiters at 1
    sets: nat,     // turns of an exit after which the event was set
    spins: nat,    // looks and attempts that found the word at 1, since the spin began
    late: nat      // last attempts that found the word at 1, since waiters was set
  )

  const NOTHING := Tally(0, 0, 0, 0, 0, 0, 0, 0)

  function One(b: bool): nat {
    if b then 1 else 0
  }

  /** A turn of thread `t`, seen from outside. */
  function Observe(y: Tally, s: State, s': State, t: nat): Tally
    requires t < |s.pc| == |s'.pc|
  {
    var p, p' := s.pc[t], s'.pc[t];
    Tally(y.enters + One(p.Idle? && !p'.Idle?),
          y.exits + One(!p.Idle? && p'.Idle?),
          y.takes + One(!s.lockWord && s'.lockWord),
          y.gives + One(s.lockWord && !s'.lockWord),
          y.seen + One(p.ReadWaiters? && s.waiters),
          y.sets + One(p.SignalEvent? && s'.event.isSet),
          if p'.SpinRead? && p'.i == 0 then 0 else y.spins + One((p.SpinRead? || p.SpinTas?) && s.lockWord),
          if p'.Retry? && p'.k == 0 then 0 else y.late + One(p.Retry? && s.lockWord))
  }

  /** The tally after a turn of thread `u`. */
  function TallyAfter(y: Tally, s: State, u: int, rounds: nat, t: nat): Tally {
    if u == t && t < |s.pc| then Observe(y, s, Advance(s, t, rounds), t) else y
  }

  function TallyOf(s: State, schedule: seq<int>, rounds: nat, t: nat): Tally
  {
    if schedule == [] then NOTHING
    else
      var init := schedule[..|schedule| - 1];
      TallyAfter(TallyOf(s, init, rounds, t), Reached(s, init, rounds), schedule[|schedule| - 1], rounds, t)
  }

  /** On the way to the mutex. */
  predicate Trying(p: Pc) {
    p.EnterTas? || p.SpinRead? || p.SpinTas? || p.ReserveCell? || p.SetWaiters? || p.Retry? || p.WaitEvent?
  }

  /** What the tally of a thread must be at each place. */
  predicate Balanced(p: Pc, y: Tally) {
    && y.enters == y.exits + One(!p.Idle?)
    && y.enters == y.takes + One(Trying(p))
    && y.takes == y.gives + One(p.Critical?)
    && y.seen == y.sets + One(p.ClearWaiters? || p.SignalEvent?)
  }

  /** How much a thread has tried at each place. */
  predicate Tried(p: Pc, y: Tally, rounds: nat) {
    match p
    case SpinRead(i) => y.spins == i <= rounds
    case SpinTas(i) => i <= y.spins <= i + One(i == rounds) && i <= rounds
    case ReserveCell => rounds <= y.spins <= rounds + 2
    case SetWaiters(_) => rounds <= y.spins <= rounds + 2
    case Retry(k, _) => y.late == k < 4 && rounds <= y.spins <= rounds + 2
    case WaitEvent(_) => y.late == 4 && rounds <= y.spins <= rounds + 2
    case _ => true
  }

  lemma OthersStay(s: State, u: nat, rounds: nat, t: nat)
    requires u < |s.pc| && t < |s.pc| && u != t
    ensures Advance(s, u, rounds).pc[t] == s.pc[t]
  {
  }

  lemma BalancedStep(s: State, t: nat, rounds: nat, y: Tally)
    requires t < |s.pc| && Exclusive(s) && Balanced(s.pc[t], y)
    ensures var s' := Advance(s, t, rounds); Balanced(s'.pc[t], Observe(y, s, s', t))
  {
  }

  lemma TriedStep(s: State, t: nat, rounds: nat, y: Tally)
    requires t < |s.pc| && Tried(s.pc[t], y, rounds)
    ensures var s' := Advance(s, t, rounds); Tried(s'.pc[t], Observe(y, s, s', t), rounds)
  {
  }

  predicate Accounted(s: State, t: nat, y: Tally, rounds: nat) {
    t < |s.pc| && Balanced(s.pc[t], y) && Tried(s.pc[t], y, rounds)
  }

  lemma AccountedStep(s: State, u: int, rounds: nat, t: nat, y: Tally)
    requires Exclusive(s) && Accounted(s, t, y, rounds)
    ensures Accounted(Advance(s, u, rounds), t, TallyAfter(y, s, u, rounds, t), rounds)
  {
    if u == t {
      BalancedStep(s, t, rounds, y);
      TriedStep(s, t, rounds, y);
    } else if 0 <= u < |s.pc| {
      OthersStay(s, u, rounds, t);
    }
  }

  lemma {:induction false} TallyInv(s: State, schedule: seq<int>, rounds: nat, t: nat)
    requires Init(s) && t < |s.pc|
    ensures Accounted(Reached(s, schedule, rounds), t, TallyOf(s, schedule, rounds, t), rounds)
  {
    if schedule != [] {
      var init := schedule[..|schedule| - 1];
      TallyInv(s, init, rounds, t);
      ReachedInv(s, init, rounds);
      AccountedStep(Reached(s, init, rounds), schedule[|schedule| - 1], rounds, t, TallyOf(s, init, rounds, t));
    }
  }

  /**
   Enter and exit, over every schedule.  Whenever a thread is outside, each of its calls has
   taken the lock word from 0 to 1 exactly once and given it back exactly once, and the event
   has been set by exactly those of its exits that found waiters at 1.  In between the word
   was taken before it was given back; a thread that has not taken it is still trying.
   */
  lemma EveryCallOwnsOnce(s: State, schedule: seq<int>, rounds: nat, t: nat)
    requires Init(s) && t < |s.pc|
    ensures var r, y := Reached(s, schedule, rounds), TallyOf(s, schedule, rounds, t);
      && t < |r.pc|
      && (r.pc[t].Idle? ==> y.enters == y.exits == y.takes == y.gives && y.seen == y.sets)
      && (!r.pc[t].Idle? ==> y.enters == y.exits + 1 && y.gives <= y.takes <= y.enters && y.exits <= y.gives)
      && (y.takes == y.gives + 1 <==> r.pc[t].Critical?)
  {
    TallyInv(s, schedule, rounds, t);
  }

  /** The turn puts the event up. */
  predicate PutsUp(e: Event, e': Event) {
    (e'.isSet && !e.isSet) || e'.signalCount != e.signalCount
  }

  lemma SignalStep(s: State, t: nat, rounds: nat)
    requires t < |s.pc| && PutsUp(s.event, Advance(s, t, rounds).event)
    ensures s.pc[t].SignalEvent? && Advance(s, t, rounds).event.isSet && !s.event.isSet
  {
  }

  /** The event is set only by an exit that has found waiters at 1 and not yet answered it. */
  lemma OnlyExitsSignal(s: State, schedule: seq<int>, rounds: nat, t: nat)
    requires Init(s) && t < |s.pc|
    requires var r := Reached(s, schedule, rounds); t < |r.pc| && PutsUp(r.event, Advance(r, t, rounds).event)
    ensures var r, y := Reached(s, schedule, rounds), TallyOf(s, schedule, rounds, t);
      y.seen == y.sets + 1 && y.takes == y.gives && Advance(r, t, rounds).event.isSet && !r.event.isSet
  {
    TallyInv(s, schedule, rounds, t);
    SignalStep(Reached(s, schedule, rounds), t, rounds);
  }

  /**
   A thread goes to sleep only after it has found the word at 1 in at least `rounds` looks or
   attempts while spinning, and in four more attempts after it set waiters.
   */
  lemma SleepsOnlyAfterTrying(s: State, schedule: seq<int>, rounds: nat, t: nat)
    requires Init(s) && t < |s.pc|
    requires var r := Reached(s, schedule, rounds); t < |r.pc| && r.pc[t].WaitEvent?
    ensures var y := TallyOf(s, schedule, rounds, t); y.late == 4 && rounds <= y.spins <= rounds + 2
  {
    TallyInv(s, schedule, rounds, t);
  }

  /** What is left of an attempt: it shrinks with every turn of the thread until it owns the mutex or waits. */
  function Left(p: Pc, rounds: nat): nat {
    match p
    case EnterTas => 3 * rounds + 11
    case SpinRead(i) => if i <= rounds then 3 * (rounds - i) + 10 else 10
    case SpinTas(i) => if i <= rounds then 3 * (rounds - i) + 9 else 9
    case ReserveCell => 8
    case SetWaiters(_) => 7
    case Retry(k, _) => if k <= 4 then 6 - k else 1
    case _ => 0
  }

  /**
   A call does not spin for ever: every turn of a trying thread that does not wait brings it
   nearer to owning the mutex or to the wait, whatever the word does.
   */
  lemma AttemptsAreBounded(s: State, schedule: seq<int>, rounds: nat, t: nat)
    requires Init(s) && t < |s.pc|
    requires var r := Reached(s, schedule, rounds); t < |r.pc| && Trying(r.pc[t]) && !r.pc[t].WaitEvent?
    ensures var r := Reached(s, schedule, rounds); var p := Advance(r, t, rounds).pc[t];
      && Left(r.pc[t], rounds) <= 3 * rounds + 11
      && (p.Critical? || p.WaitEvent? || (Trying(p) && Left(p, rounds) < Left(r.pc[t], rounds)))
  {
    TallyInv(s, schedule, rounds, t);
  }

  // ---------- a thread by itself ----------

  /** `k` turns of thread `t` in a row. */
  function Turns(t: int, k: nat): seq<int> {
    seq(k, _ => t)
  }

  lemma TurnsPush(s: State, t: nat, k: nat, rounds: nat)
    ensures Reached(s, Turns(t, k + 1), rounds) == Advance(Reached(s, Turns(t, k), rounds), t, rounds)
  {
    assert Turns(t, k + 1)[..k] == Turns(t, k);
  }

  /** A free mutex is taken by the first test-and-set, and given back without touching the event. */
  lemma Uncontended(s: State, t: nat, rounds: nat)
    requires t < |s.pc| && s.pc[t].Idle? && !s.lockWord && !s.waiters
    ensures Reached(s, Turns(t, 2), rounds) == s.(lockWord := true, pc := s.pc[t := Critical])
    ensures Reached(s, Turns(t, 4), rounds) == s
  {
    assert Reached(s, Turns(t, 0), rounds) == s;
    TurnsPush(s, t, 0, rounds);
    TurnsPush(s, t, 1, rounds);
    TurnsPush(s, t, 2, rounds);
    TurnsPush(s, t, 3, rounds);
    assert s.pc[t := Idle] == s.pc;
  }

  /** While the word stays at 1 the spin only looks, once per round. */
  lemma {:induction false} SpinsByLooking(s: State, t: nat, rounds: nat, j: nat)
    requires t < |s.pc| && s.pc[t] == EnterTas && s.lockWord && j <= rounds
    ensures Reached(s, Turns(t, j + 1), rounds) == s.(pc := s.pc[t := SpinRead(j)])
  {
    TurnsPush(s, t, j, rounds);
    if j == 0 {
      assert Reached(s, Turns(t, 0), rounds) == s;
    } else {
      SpinsByLooking(s, t, rounds, j - 1);
    }
  }

  lemma AttemptAndReserve(s: State, t: nat, rounds: nat)
    requires t < |s.pc| && s.pc[t] == EnterTas && s.lockWord
    ensures Reached(s, Turns(t, rounds + 5), rounds) ==
      s.(waiters := true, event := OnReset(s.event), pc := s.pc[t := Retry(0, s.event.signalCount)])
  {
    SpinsByLooking(s, t, rounds, rounds);
    TurnsPush(s, t, rounds + 1, rounds);
    TurnsPush(s, t, rounds + 2, rounds);
    TurnsPush(s, t, rounds + 3, rounds);
    TurnsPush(s, t, rounds + 4, rounds);
  }

  /**
   While the word stays at 1 a call makes one attempt, `rounds` looks and one more, an attempt,
   resets the event and keeps its count, sets waiters, makes four attempts more, and sleeps.
   */
  lemma Contended(s: State, t: nat, rounds: nat)
    requires t < |s.pc| && s.pc[t] == EnterTas && s.lockWord
    ensures Reached(s, Turns(t, rounds + 9), rounds) ==
      s.(waiters := true, event := OnReset(s.event), pc := s.pc[t := WaitEvent(s.event.signalCount)])
    ensures Blocked(Reached(s, Turns(t, rounds + 9), rounds), t)
  {
    AttemptAndReserve(s, t, rounds);
    TurnsPush(s, t, rounds + 5, rounds);
    TurnsPush(s, t, rounds + 6, rounds);
    TurnsPush(s, t, rounds + 7, rounds);
    TurnsPush(s, t, rounds + 8, rounds);
  }
}
