/**
 Elision does happen: undisturbed, every lock function that elides runs any section that ends
 in a transaction and commits it without the lock word ever being 1; and each fallback runs it
 under the lock with the same result.
 */
module ElidedRuns {
  import opened Sections
  import opened Elision
  import opened Serializability

  /** Alone on this memory the section takes just `k` actions. */
  ghost predicate EndsAfter(p: Prog, m: Mem, k: nat) {
    p(Alone(p, m, k).trace).Done? && forall j :: 0 <= j < k ==> !AloneDone(p, m, j)
  }

  ghost predicate AloneDone(p: Prog, m: Mem, j: nat) {
    p(Alone(p, m, j).trace).Done?
  }

  /** No lock word is 1 at any moment of the run. */
  ghost predicate NeverLocked(cfg: Config, n: nat, init: Mem, events: seq<Event>)
  {
    After(cfg, n, init, events).locked == {} && (events == [] || NeverLocked(cfg, n, init, events[..|events| - 1]))
  }

  lemma NeverLockedPush(cfg: Config, n: nat, init: Mem, events: seq<Event>, e: Event)
    requires NeverLocked(cfg, n, init, events) && After(cfg, n, init, events + [e]).locked == {}
    ensures NeverLocked(cfg, n, init, events + [e])
  {
    assert (events + [e])[..|events|] == events;
  }

  /** One more event of a run with one thread that leaves no lock taken. */
  lemma Go(cfg: Config, init: Mem, events: seq<Event>, e: Event, s: State) returns (events': seq<Event>)
    requires NeverLocked(cfg, 1, init, events) && After(cfg, 1, init, events) == s && Enabled(cfg, s, e)
    requires Do(cfg, s, e).locked == {}
    ensures events' == events + [e] && NeverLocked(cfg, 1, init, events') && After(cfg, 1, init, events') == Do(cfg, s, e)
  {
    events' := events + [e];
    AfterPush(cfg, 1, init, events, e);
    NeverLockedPush(cfg, 1, init, events, e);
  }

  /** In the transaction, before the first action of the section. */
  lemma StartElided(cfg: Config, how: How, sec: Section, init: Mem) returns (events: seq<Event>)
    requires how in cfg.allowed && how != Exchange
    ensures NeverLocked(cfg, 1, init, events)
    ensures After(cfg, 1, init, events) == State(init, {}, [Speculate(sec, how, 0, EMPTY_TX)], [])
  {
    assert After(cfg, 1, init, []) == State(init, {}, [Idle], []);
    events := Go(cfg, init, [], Enter(0, sec, how), State(init, {}, [Idle], []));
    events := Go(cfg, init, events, XBegin(0), State(init, {}, [Begin(sec, how, 0)], []));
    if how == Smart {
      events := Go(cfg, init, events, ReadWord(0), State(init, {}, [Test(sec, 0)], []));
    }
  }

  lemma OneElidedAccess(cfg: Config, how: How, sec: Section, init: Mem, tx: Tx)
    requires !sec.next(tx.trace).Done?
    ensures var s := State(init, {}, [Speculate(sec, how, 0, tx)], []);
      && Enabled(cfg, s, Access(0))
      && Do(cfg, s, Access(0)) == State(init, {}, [Speculate(sec, how, 0, TxStep(sec.next, init, tx))], [])
  {
  }

  lemma {:induction false} RunElided(cfg: Config, how: How, sec: Section, init: Mem, k: nat, j: nat) returns (events: seq<Event>)
    requires how in cfg.allowed && how != Exchange && EndsAfter(sec.next, init, k) && j <= k
    ensures NeverLocked(cfg, 1, init, events)
    ensures After(cfg, 1, init, events) == State(init, {}, [Speculate(sec, how, 0, TxRun(sec.next, init, j))], [])
    decreases j
  {
    if j == 0 {
      events := StartElided(cfg, how, sec, init);
    } else {
      events := RunElided(cfg, how, sec, init, k, j - 1);
      var tx := TxRun(sec.next, init, j - 1);
      TxIsAlone(sec.next, init, j - 1);
      assert !AloneDone(sec.next, init, j - 1);
      OneElidedAccess(cfg, how, sec, init, tx);
      events := Go(cfg, init, events, Access(0), State(init, {}, [Speculate(sec, how, 0, tx)], []));
    }
  }

  /**
   Any section that ends is elided when nothing disturbs it: it commits with the result it has
   alone, and no lock word is ever 1.
   */
  lemma ElisionSucceeds(cfg: Config, how: How, sec: Section, init: Mem, k: nat) returns (events: seq<Event>)
    requires how in cfg.allowed && how != Exchange && EndsAfter(sec.next, init, k)
    ensures NeverLocked(cfg, 1, init, events)
    ensures var solo := Alone(sec.next, init, k);
      After(cfg, 1, init, events) == State(solo.mem, {}, [Idle], [Completed(0, sec, solo.trace)])
  {
    events := RunElided(cfg, how, sec, init, k, k);
    TxIsAlone(sec.next, init, k);
    var s := State(init, {}, [Speculate(sec, how, 0, TxRun(sec.next, init, k))], []);
    UnlockDoes(cfg, s, 0);
    events := Go(cfg, init, events, Unlock(0), s);
    assert After(cfg, 1, init, events).threads == [Idle];
  }

  // ---------- under the lock ----------

  lemma GoOn(cfg: Config, init: Mem, events: seq<Event>, e: Event, s: State) returns (events': seq<Event>)
    requires After(cfg, 1, init, events) == s && Enabled(cfg, s, e)
    ensures events' == events + [e] && After(cfg, 1, init, events') == Do(cfg, s, e)
  {
    events' := events + [e];
    AfterPush(cfg, 1, init, events, e);
  }

  /** An attempt that fails for good leads to the lock. */
  lemma StartLocked(cfg: Config, how: How, sec: Section, init: Mem) returns (events: seq<Event>)
    requires how in cfg.allowed && how != Naive
    ensures After(cfg, 1, init, events) == State(init, {sec.lock}, [Hold(sec, how, [], {})], [])
  {
    assert After(cfg, 1, init, []) == State(init, {}, [Idle], []);
    events := GoOn(cfg, init, [], Enter(0, sec, how), State(init, {}, [Idle], []));
    if how != Exchange {
      events := GoOn(cfg, init, events, Abort(0, 0), State(init, {}, [Begin(sec, how, 0)], []));
    }
    var s := State(init, {}, [Acquire(sec, how)], []);
    events := GoOn(cfg, init, events, TryExchange(0), s);
    assert {} + {sec.lock} == {sec.lock};
    assert Do(cfg, s, TryExchange(0)).threads == [Hold(sec, how, [], {})];
  }

  lemma OneLockedAccess(cfg: Config, how: How, sec: Section, solo: Solo, touched: set<Addr>, solo': Solo)
    requires !sec.next(solo.trace).Done?
    requires solo' == match sec.next(solo.trace)
      case Load(a) => Solo(solo.mem, solo.trace + [Get(solo.mem, a)])
      case Store(a, v) => Solo(solo.mem[a := v], solo.trace + [v])
      case Done => solo
    ensures var s, a := State(solo.mem, {sec.lock}, [Hold(sec, how, solo.trace, touched)], []), sec.next(solo.trace).a;
      && Enabled(cfg, s, Access(0))
      && Do(cfg, s, Access(0)) == State(solo'.mem, {sec.lock}, [Hold(sec, how, solo'.trace, touched + {a})], [])
  {
    var s, a := State(solo.mem, {sec.lock}, [Hold(sec, how, solo.trace, touched)], []), sec.next(solo.trace).a;
    assert Do(cfg, s, Access(0)).threads == [Hold(sec, how, solo'.trace, touched + {a})];
  }

  lemma {:induction false} RunLocked(cfg: Config, how: How, sec: Section, init: Mem, k: nat, j: nat)
    returns (events: seq<Event>, touched: set<Addr>)
    requires how in cfg.allowed && how != Naive && EndsAfter(sec.next, init, k) && j <= k
    ensures var solo := Alone(sec.next, init, j);
      After(cfg, 1, init, events) == State(solo.mem, {sec.lock}, [Hold(sec, how, solo.trace, touched)], [])
    decreases j
  {
    if j == 0 {
      touched := {};
      events := StartLocked(cfg, how, sec, init);
    } else {
      events, touched := RunLocked(cfg, how, sec, init, k, j - 1);
      var solo := Alone(sec.next, init, j - 1);
      assert !AloneDone(sec.next, init, j - 1);
      OneLockedAccess(cfg, how, sec, solo, touched, Alone(sec.next, init, j));
      events := GoOn(cfg, init, events, Access(0), State(solo.mem, {sec.lock}, [Hold(sec, how, solo.trace, touched)], []));
      touched := touched + {sec.next(solo.trace).a};
    }
  }

  /** The fallback, and the plain lock, give the same result under the lock and leave its word at 0. */
  lemma FallbackSucceeds(cfg: Config, how: How, sec: Section, init: Mem, k: nat) returns (events: seq<Event>)
    requires how in cfg.allowed && how != Naive && EndsAfter(sec.next, init, k)
    ensures var solo := Alone(sec.next, init, k);
      After(cfg, 1, init, events) == State(solo.mem, {}, [Idle], [Completed(0, sec, solo.trace)])
  {
    var touched;
    events, touched := RunLocked(cfg, how, sec, init, k, k);
    var solo := Alone(sec.next, init, k);
    var s := State(solo.mem, {sec.lock}, [Hold(sec, how, solo.trace, touched)], []);
    UnlockDoes(cfg, s, 0);
    events := GoOn(cfg, init, events, Unlock(0), s);
    assert {sec.lock} - {sec.lock} == {};
    assert After(cfg, 1, init, events).threads == [Idle];
  }
}
