/**
 Threads running guarded sections on a processor with transactional memory, under the
 lock functions of the repository: the plain exchange lock, the HLE exchange lock, RTM
 with retries and the exchange lock as fallback, and bare RTM.  Every event is one
 access to shared memory or one transactional instruction.
 */
module Elision {
  import opened Sections

  const MAX_RETRIES := 10000000

  // Status bits of an abort; the lock function looks at the lowest three.
  const XABORT_EXPLICIT := 1
  const XABORT_CONFLICT := 4

  /** The lock function used to enter a section. */
  datatype How = Exchange | Hle | Smart | Naive

  datatype Phase =
    | Idle
    | Begin(sec: Section, how: How, failures: nat)              // about to start a transaction
    | Test(sec: Section, failures: nat)                         // started, lock word not yet read
    | Speculate(sec: Section, how: How, failures: nat, tx: Tx)  // in the section, in a transaction
    | Acquire(sec: Section, how: How)                           // about to exchange the lock word
    | Spin(sec: Section, how: How)                              // reading the word until it is 0
    | Hold(sec: Section, how: How, trace: seq<int>, touched: set<Addr>)  // in the section, owning the lock
    | Fault(sec: Section, how: How)                             // unlocked in a way that does not match

  /** `locked` are the locks whose word is 1; `log` lists sections as they commit or release. */
  datatype State = State(mem: Mem, locked: set<int>, threads: seq<Phase>, log: seq<Completed>)

  /** What a choice of lock functions amounts to. */
  datatype Discipline =
    | Subscribed    // every elided section reads the lock word inside its transaction
    | ElisionOnly   // bare RTM, and nobody ever takes a lock
    | Mixed         // bare RTM next to functions that take the lock

  /** The lock functions in use. */
  datatype Config = Config(allowed: set<How>) {
    function Discipline(): Discipline {
      if Naive !in allowed then Subscribed else if allowed == {Naive} then ElisionOnly else Mixed
    }
  }

  datatype Event =
    | Enter(t: nat, sec: Section, how: How)
    | XBegin(t: nat)
    | ReadWord(t: nat)
    | Access(t: nat)
    | Abort(t: nat, code: nat)
    | TryExchange(t: nat)
    | SpinLoad(t: nat)
    | Unlock(t: nat)
    | PlainStore(t: nat, a: Addr, v: int)
    | GiveUp(t: nat)

  /** Where an aborted attempt continues, given the status code. */
  function AfterAbort(sec: Section, how: How, failures: nat, code: nat): Phase {
    match how
    case Smart =>
      if code % 8 > 0 && failures + 1 <= MAX_RETRIES then Begin(sec, Smart, failures + 1) else Acquire(sec, Smart)
    case Naive => Begin(sec, Naive, failures + 1)
    case Hle => Acquire(sec, Hle)
    case Exchange => Acquire(sec, Exchange)
  }

  /** A store to these words conflicts with a transaction that has loaded or stored one of them. */
  predicate Hit(ph: Phase, addrs: set<Addr>) {
    ph.Speculate? && !(Footprint(ph) !! addrs)
  }

  function Struck(ph: Phase, addrs: set<Addr>): Phase {
    if Hit(ph, addrs) then AfterAbort(ph.sec, ph.how, ph.failures, XABORT_CONFLICT) else ph
  }

  /** All the others, after thread `t` has made stores to `addrs` visible. */
  function Strike(threads: seq<Phase>, t: nat, addrs: set<Addr>): seq<Phase> {
    seq(|threads|, u requires 0 <= u < |threads| => if u == t then threads[u] else Struck(threads[u], addrs))
  }

  /** A section that has read the lock word inside its transaction. */
  predicate Subscriber(ph: Phase, lock: int) {
    ph.Speculate? && ph.how != Naive && ph.sec.lock == lock
  }

  function LockStruck(ph: Phase, lock: int): Phase {
    if Subscriber(ph, lock) then AfterAbort(ph.sec, ph.how, ph.failures, XABORT_CONFLICT) else ph
  }

  function StrikeLock(threads: seq<Phase>, t: nat, lock: int): seq<Phase> {
    seq(|threads|, u requires 0 <= u < |threads| => if u == t then threads[u] else LockStruck(threads[u], lock))
  }

  function StoreSection(a: Addr, v: int): Section {
    Section(0, trace => if trace == [] then Store(a, v) else Done)
  }

  /** The thread is inside its section. */
  predicate Live(ph: Phase) {
    ph.Speculate? || ph.Hold?
  }

  function TraceOf(ph: Phase): seq<int>
    requires Live(ph)
  {
    if ph.Hold? then ph.trace else ph.tx.trace
  }

  /** The words a thread has loaded or stored in the section it is in. */
  function Footprint(ph: Phase): set<Addr> {
    match ph
    case Speculate(_, _, _, tx) => tx.loaded + tx.stored.Keys
    case Hold(_, _, _, touched) => touched
    case _ => {}
  }

  /** The word is in use in a section under another lock. */
  predicate Foreign(ph: Phase, lock: int, a: Addr) {
    Live(ph) && ph.sec.lock != lock && a in Footprint(ph)
  }

  /**
   A lock guards the words its sections use: sections under different locks do not meet
   in a word.  Bare transactions are free to.
   */
  predicate InRegion(cfg: Config, s: State, t: nat)
    requires t < |s.threads| && Live(s.threads[t])
  {
    var ph := s.threads[t];
    var act := ph.sec.next(TraceOf(ph));
    cfg.Discipline() == ElisionOnly || act.Done? || !Met(s, t, ph.sec.lock, act.a)
  }

  predicate Met(s: State, t: nat, lock: int, a: Addr) {
    exists u :: 0 <= u < |s.threads| && u != t && Foreign(s.threads[u], lock, a)
  }

  /** Nobody who owns a lock has the word in use. */
  predicate Unused(s: State, a: Addr) {
    forall u :: 0 <= u < |s.threads| && s.threads[u].Hold? ==> a !in s.threads[u].touched
  }

  /** The thread has come to the end of its section. */
  predicate Ends(s: State, t: nat) {
    t < |s.threads| && Live(s.threads[t]) && s.threads[t].sec.next(TraceOf(s.threads[t])).Done?
  }

  /** How an unlock function ends: `_xend`, a plain store of 0, or one with the release prefix of HLE. */
  datatype Closing = Xend | StoreZero | PrefixedStoreZero

  /** The branch of the unlock function; only the one of RTM with fallback asks `_xtest`. */
  function ClosingOf(how: How, xtest: bool): Closing {
    match how
    case Smart => if xtest then Xend else StoreZero
    case Naive => Xend
    case Hle => PrefixedStoreZero
    case Exchange => StoreZero
  }

  predicate Enabled(cfg: Config, s: State, e: Event) {
    && e.t < |s.threads|
    && var ph := s.threads[e.t];
       match e
       case Enter(_, sec, how) => ph.Idle? && how in cfg.allowed
       case XBegin(_) => ph.Begin?
       case ReadWord(_) => ph.Test?
       case Access(t) => Live(ph) && !ph.sec.next(TraceOf(ph)).Done? && InRegion(cfg, s, t)
       case Abort(_, _) => ph.Begin? || ph.Test? || ph.Speculate?
       case TryExchange(_) => ph.Acquire?
       case SpinLoad(_) => ph.Spin?
       case Unlock(t) => Ends(s, t)
       case PlainStore(_, a, _) => ph.Idle? && Unused(s, a)
       case GiveUp(_) => ph.Begin? && ph.how == Naive
  }

  function Set(s: State, t: nat, ph: Phase): State
    requires t < |s.threads|
  {
    s.(threads := s.threads[t := ph])
  }

  function DoBegin(s: State, t: nat): State
    requires t < |s.threads| && s.threads[t].Begin?
  {
    var ph := s.threads[t];
    match ph.how
    case Smart => Set(s, t, Test(ph.sec, ph.failures))
    case Naive => Set(s, t, Speculate(ph.sec, Naive, ph.failures, EMPTY_TX))
    // the elided exchange starts the transaction and reads the word; seeing 1 it waits, which aborts
    case Hle =>
      Set(s, t, if ph.sec.lock in s.locked then Acquire(ph.sec, Hle) else Speculate(ph.sec, Hle, ph.failures, EMPTY_TX))
    case Exchange => Set(s, t, Acquire(ph.sec, Exchange))
  }

  function DoReadWord(s: State, t: nat): State
    requires t < |s.threads| && s.threads[t].Test?
  {
    var ph := s.threads[t];
    Set(s, t,
        if ph.sec.lock in s.locked then AfterAbort(ph.sec, Smart, ph.failures, XABORT_EXPLICIT)
        else Speculate(ph.sec, Smart, ph.failures, EMPTY_TX))
  }

  function DoAccess(s: State, t: nat): State
    requires t < |s.threads| && Live(s.threads[t])
  {
    var ph := s.threads[t];
    if ph.Speculate? then Set(s, t, ph.(tx := TxStep(ph.sec.next, s.mem, ph.tx)))
    else
      match ph.sec.next(ph.trace)
      case Load(a) => Set(s, t, ph.(trace := ph.trace + [Get(s.mem, a)], touched := ph.touched + {a}))
      case Store(a, v) =>
        var ph' := ph.(trace := ph.trace + [v], touched := ph.touched + {a});
        s.(mem := s.mem[a := v], threads := Strike(s.threads[t := ph'], t, {a}))
      case Done => s
  }

  function DoCommit(s: State, t: nat): State
    requires t < |s.threads| && s.threads[t].Speculate?
  {
    var ph := s.threads[t];
    s.(mem := s.mem + ph.tx.stored,
       threads := Strike(s.threads[t := Idle], t, ph.tx.stored.Keys),
       log := s.log + [Completed(t, ph.sec, ph.tx.trace)])
  }

  function DoAbort(s: State, t: nat, code: nat): State
    requires t < |s.threads| && (s.threads[t].Begin? || s.threads[t].Test? || s.threads[t].Speculate?)
  {
    var ph := s.threads[t];
    Set(s, t, AfterAbort(ph.sec, if ph.Test? then Smart else ph.how, ph.failures, code))
  }

  function DoExchange(s: State, t: nat): State
    requires t < |s.threads| && s.threads[t].Acquire?
  {
    var ph := s.threads[t];
    var ph' := if ph.sec.lock in s.locked then Spin(ph.sec, ph.how) else Hold(ph.sec, ph.how, [], {});
    s.(locked := s.locked + {ph.sec.lock}, threads := StrikeLock(s.threads[t := ph'], t, ph.sec.lock))
  }

  function DoRelease(s: State, t: nat): State
    requires t < |s.threads| && s.threads[t].Hold?
  {
    var ph := s.threads[t];
    s.(locked := s.locked - {ph.sec.lock},
       threads := StrikeLock(s.threads[t := Idle], t, ph.sec.lock),
       log := s.log + [Completed(t, ph.sec, ph.trace)])
  }

  /**
   `_xend` outside a transaction faults; a plain store inside one would leave the
   transaction open.  Both are kept as a fault of the thread.
   */
  function DoUnlock(s: State, t: nat): State
    requires t < |s.threads| && Live(s.threads[t])
  {
    var ph := s.threads[t];
    match ClosingOf(ph.how, ph.Speculate?)
    case Xend => if ph.Speculate? then DoCommit(s, t) else Set(s, t, Fault(ph.sec, ph.how))
    case StoreZero => if ph.Speculate? then Set(s, t, Fault(ph.sec, ph.how)) else DoRelease(s, t)
    case PrefixedStoreZero => if ph.Speculate? then DoCommit(s, t) else DoRelease(s, t)
  }

  function DoPlainStore(s: State, t: nat, a: Addr, v: int): State {
    s.(mem := s.mem[a := v], threads := Strike(s.threads, t, {a}),
       log := s.log + [Completed(t, StoreSection(a, v), [v])])
  }

  function Do(cfg: Config, s: State, e: Event): State
    requires Enabled(cfg, s, e)
  {
    var ph := s.threads[e.t];
    match e
    case Enter(t, sec, how) => Set(s, t, if how == Exchange then Acquire(sec, how) else Begin(sec, how, 0))
    case XBegin(t) => DoBegin(s, t)
    case ReadWord(t) => DoReadWord(s, t)
    case Access(t) => DoAccess(s, t)
    case Abort(t, code) => DoAbort(s, t, code)
    case TryExchange(t) => DoExchange(s, t)
    case SpinLoad(t) =>
      if ph.sec.lock in s.locked then s
      else Set(s, t, if ph.how == Hle then Begin(ph.sec, Hle, 0) else Acquire(ph.sec, ph.how))
    case Unlock(t) => DoUnlock(s, t)
    case PlainStore(t, a, v) => DoPlainStore(s, t, a, v)
    case GiveUp(t) => Set(s, t, Idle)
  }

  /** The state after a sequence of events; an event that is not enabled does not happen. */
  function After(cfg: Config, n: nat, init: Mem, events: seq<Event>): State
  {
    if events == [] then State(init, {}, seq(n, _ => Idle), [])
    else
      var s := After(cfg, n, init, events[..|events| - 1]);
      var e := events[|events| - 1];
      if Enabled(cfg, s, e) then Do(cfg, s, e) else s
  }
}
