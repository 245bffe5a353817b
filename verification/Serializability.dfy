/**
 Serializability of guarded sections: whatever mixture of elided and really locked
 executions a run contains, memory is as if the completed sections had run one by one
 in the order in which they committed or released.
 */
module Serializability {
  import opened Sections
  import opened Elision

  // ---------- invariant ----------

  /** Only lock functions that start transactions are in one, only those that take the lock own it. */
  predicate Paired(ph: Phase) {
    match ph
    case Begin(_, how, _) => how != Exchange
    case Speculate(_, how, _, _) => how != Exchange
    case Acquire(_, how) => how != Naive
    case Spin(_, how) => how != Naive
    case Hold(_, how, _, _) => how != Naive
    case Fault(_, _) => false
    case _ => true
  }

  ghost predicate PhaseOk(cfg: Config, ph: Phase) {
    Paired(ph) &&
    match cfg.Discipline()
    case Subscribed => ph.Idle? || ph.Test? || ph.how != Naive
    case ElisionOnly => ph.Idle? || ((ph.Begin? || ph.Speculate?) && ph.how == Naive)
    case Mixed => true
  }

  /** A live transaction is what its program would do on the memory of this very moment. */
  predicate SpecOk(mem: Mem, locked: set<int>, ph: Phase) {
    ph.Speculate? ==>
      && ph.tx == TxRun(ph.sec.next, mem, |ph.tx.trace|)
      && (ph.how != Naive ==> ph.sec.lock !in locked)
  }

  /** A lock owner has done part of its section; the words it touched show just that part. */
  ghost predicate HoldOk(base: Mem, mem: Mem, ph: Phase) {
    ph.Hold? ==>
      var tx := TxRun(ph.sec.next, base, |ph.trace|);
      && tx.trace == ph.trace && tx.loaded + tx.stored.Keys == ph.touched
      && forall a :: a in ph.touched ==> Get(mem, a) == Get(base + tx.stored, a)
  }

  predicate HoldersOk(s: State) {
    && (forall t :: 0 <= t < |s.threads| && s.threads[t].Hold? ==> s.threads[t].sec.lock in s.locked)
    && (forall t, u :: 0 <= t < u < |s.threads| && s.threads[t].Hold? && s.threads[u].Hold? ==>
          s.threads[t].sec.lock != s.threads[u].sec.lock)
  }

  predicate ApartPhases(ph: Phase, ph': Phase) {
    Live(ph) && Live(ph') && ph.sec.lock != ph'.sec.lock ==> Footprint(ph) !! Footprint(ph')
  }

  /** Sections under different locks have no word in common. */
  ghost predicate RegionsApart(s: State) {
    forall t, u :: 0 <= t < |s.threads| && 0 <= u < |s.threads| && t != u ==> ApartPhases(s.threads[t], s.threads[u])
  }

  /** Words that no owner uses are as the completed sections left them. */
  ghost predicate Settled(base: Mem, s: State) {
    forall a :: Unused(s, a) ==> Get(s.mem, a) == Get(base, a)
  }

  ghost predicate ThreadsOk(cfg: Config, base: Mem, s: State) {
    forall t :: 0 <= t < |s.threads| ==>
      PhaseOk(cfg, s.threads[t]) && SpecOk(s.mem, s.locked, s.threads[t]) && HoldOk(base, s.mem, s.threads[t])
  }

  ghost predicate LocksOk(cfg: Config, s: State) {
    && HoldersOk(s)
    && (cfg.Discipline() == ElisionOnly ==> s.locked == {})
    && (cfg.Discipline() == Subscribed ==> RegionsApart(s))
  }

  ghost predicate Inv(cfg: Config, init: Mem, s: State) {
    && LogExplained(init, s.log)
    && LocksOk(cfg, s)
    && Settled(Serial(init, s.log), s)
    && ThreadsOk(cfg, Serial(init, s.log), s)
  }

  // ---------- regions ----------

  /** No thread comes into its section or uses more words there; none changes its owner status. */
  ghost predicate Shrunk(ph: Phase, ph': Phase) {
    && (Live(ph') ==> Live(ph) && ph'.sec == ph.sec && Footprint(ph') <= Footprint(ph))
    && (ph'.Hold? ==> ph.Hold?)
  }

  lemma RegionsShrunk(s: State, s': State)
    requires RegionsApart(s) && |s'.threads| == |s.threads|
    requires forall u :: 0 <= u < |s.threads| ==> Shrunk(s.threads[u], s'.threads[u])
    ensures RegionsApart(s')
  {
    forall t, u | 0 <= t < |s.threads| && 0 <= u < |s.threads| && t != u
      ensures ApartPhases(s'.threads[t], s'.threads[u])
    {
      assert ApartPhases(s.threads[t], s.threads[u]);
    }
  }

  /** An access inside the region keeps the regions apart. */
  lemma RegionsAccess(cfg: Config, s: State, s': State, t: nat)
    requires cfg.Discipline() == Subscribed && RegionsApart(s) && Enabled(cfg, s, Access(t)) && |s'.threads| == |s.threads|
    requires forall u :: 0 <= u < |s.threads| && u != t ==> Shrunk(s.threads[u], s'.threads[u])
    requires var ph, ph' := s.threads[t], s'.threads[t];
      Live(ph') && ph'.sec == ph.sec && Footprint(ph') <= Footprint(ph) + {ph.sec.next(TraceOf(ph)).a}
    ensures RegionsApart(s')
  {
    var ph := s.threads[t];
    var a := ph.sec.next(TraceOf(ph)).a;
    forall v, u | 0 <= v < |s.threads| && 0 <= u < |s.threads| && v != u
      ensures ApartPhases(s'.threads[v], s'.threads[u])
    {
      assert ApartPhases(s.threads[v], s.threads[u]);
      assert u != t ==> !Foreign(s.threads[u], ph.sec.lock, a);
      assert v != t ==> !Foreign(s.threads[v], ph.sec.lock, a);
    }
  }

  /** Owners do not meet in a word. */
  lemma OwnersApart(cfg: Config, s: State, t: nat, u: nat)
    requires cfg.Discipline() == Subscribed && LocksOk(cfg, s) && t < |s.threads| && u < |s.threads| && t != u
    requires s.threads[u].Hold?
    requires s.threads[t].Hold? || (s.threads[t].Speculate? && s.threads[t].sec.lock !in s.locked)
    ensures Footprint(s.threads[t]) !! s.threads[u].touched
  {
    assert ApartPhases(s.threads[t], s.threads[u]);
  }

  /** What a transaction that may commit has touched, no owner uses. */
  lemma SpeculationUnused(cfg: Config, init: Mem, s: State, t: nat, a: Addr)
    requires cfg.Discipline() != Mixed && Inv(cfg, init, s) && t < |s.threads| && s.threads[t].Speculate?
    requires a in Footprint(s.threads[t])
    ensures Unused(s, a)
  {
    assert PhaseOk(cfg, s.threads[t]) && SpecOk(s.mem, s.locked, s.threads[t]);
    forall u | 0 <= u < |s.threads| && s.threads[u].Hold?
      ensures a !in s.threads[u].touched
    {
      OwnersApart(cfg, s, t, u);
    }
  }

  // ---------- events that touch nothing shared ----------

  lemma QuietMove(cfg: Config, init: Mem, s: State, t: nat, ph: Phase)
    requires Inv(cfg, init, s) && t < |s.threads| && !s.threads[t].Hold? && !ph.Hold?
    requires PhaseOk(cfg, ph) && SpecOk(s.mem, s.locked, ph)
    requires cfg.Discipline() == Subscribed ==> RegionsApart(Set(s, t, ph))
    ensures Inv(cfg, init, Set(s, t, ph))
  {
    var s' := Set(s, t, ph);
    forall a | Unused(s', a)
      ensures Unused(s, a)
    {
      forall u | 0 <= u < |s.threads| && s.threads[u].Hold?
        ensures a !in s.threads[u].touched
      {
        assert s'.threads[u] == s.threads[u];
      }
    }
  }

  lemma TxAccess(cfg: Config, init: Mem, s: State, t: nat)
    requires cfg.Discipline() != Mixed && Inv(cfg, init, s) && Enabled(cfg, s, Access(t)) && s.threads[t].Speculate?
    ensures Inv(cfg, init, Do(cfg, s, Access(t)))
  {
    var ph := s.threads[t];
    var tx' := TxStep(ph.sec.next, s.mem, ph.tx);
    var ph' := ph.(tx := tx');
    assert |tx'.trace| == |ph.tx.trace| + 1;
    assert PhaseOk(cfg, ph') && SpecOk(s.mem, s.locked, ph') by {
      assert PhaseOk(cfg, ph) && SpecOk(s.mem, s.locked, ph);
    }
    if cfg.Discipline() == Subscribed {
      RegionsAccess(cfg, s, Set(s, t, ph'), t);
    }
    QuietMove(cfg, init, s, t, ph');
  }

  ghost predicate Quiet(e: Event) {
    e.Enter? || e.XBegin? || e.ReadWord? || e.Abort? || e.SpinLoad? || e.GiveUp?
  }

  /** The phase a quiet event leads to is one the invariant allows. */
  lemma QuietPhase(cfg: Config, s: State, e: Event)
    requires cfg.Discipline() != Mixed && Enabled(cfg, s, e) && Quiet(e) && PhaseOk(cfg, s.threads[e.t])
    ensures var s' := Do(cfg, s, e); var ph := s'.threads[e.t];
      && s' == Set(s, e.t, ph) && !ph.Hold? && PhaseOk(cfg, ph) && SpecOk(s.mem, s.locked, ph)
      && Footprint(ph) == {}
  {
    match e
    case Enter(_, _, _) =>
    case XBegin(_) =>
    case ReadWord(_) =>
    case Abort(_, _) =>
    case SpinLoad(t) => assert s.threads[t := s.threads[t]] == s.threads;
    case GiveUp(_) =>
  }

  lemma RegionsQuiet(s: State, t: nat, ph: Phase)
    requires RegionsApart(s) && t < |s.threads| && Footprint(ph) == {}
    ensures RegionsApart(Set(s, t, ph))
  {
    var s' := Set(s, t, ph);
    forall v, u | 0 <= v < |s.threads| && 0 <= u < |s.threads| && v != u
      ensures ApartPhases(s'.threads[v], s'.threads[u])
    {
      assert ApartPhases(s.threads[v], s.threads[u]);
    }
  }

  lemma QuietEvents(cfg: Config, init: Mem, s: State, e: Event)
    requires cfg.Discipline() != Mixed && Inv(cfg, init, s) && Enabled(cfg, s, e) && Quiet(e)
    ensures Inv(cfg, init, Do(cfg, s, e))
  {
    QuietPhase(cfg, s, e);
    var ph := Do(cfg, s, e).threads[e.t];
    if cfg.Discipline() == Subscribed {
      RegionsQuiet(s, e.t, ph);
    }
    QuietMove(cfg, init, s, e.t, ph);
  }

  // ---------- stores becoming visible ----------

  /** A transaction that a store does not strike is not disturbed by it. */
  lemma Undisturbed(mem: Mem, mem': Mem, locked: set<int>, ph: Phase, addrs: set<Addr>)
    requires SpecOk(mem, locked, ph) && !Hit(ph, addrs)
    requires forall a :: a !in addrs ==> Get(mem', a) == Get(mem, a)
    ensures SpecOk(mem', locked, ph)
  {
    if ph.Speculate? {
      assert forall a :: a in ph.tx.loaded ==> a in Footprint(ph);
      TxLocal(ph.sec.next, mem, mem', |ph.tx.trace|);
    }
  }

  lemma StruckOk(cfg: Config, mem: Mem, mem': Mem, locked: set<int>, ph: Phase, addrs: set<Addr>)
    requires PhaseOk(cfg, ph) && SpecOk(mem, locked, ph) && cfg.Discipline() != Mixed
    requires forall a :: a !in addrs ==> Get(mem', a) == Get(mem, a)
    ensures PhaseOk(cfg, Struck(ph, addrs)) && SpecOk(mem', locked, Struck(ph, addrs))
    ensures Shrunk(ph, Struck(ph, addrs)) && (ph.Hold? ==> Struck(ph, addrs) == ph)
  {
    if !Hit(ph, addrs) {
      Undisturbed(mem, mem', locked, ph, addrs);
    }
  }

  /** An owner's part is not changed by stores to words it does not use. */
  lemma HoldKept(base: Mem, base': Mem, mem: Mem, mem': Mem, ph: Phase)
    requires HoldOk(base, mem, ph)
    requires ph.Hold? ==> forall a :: a in ph.touched ==> Get(mem', a) == Get(mem, a) && Get(base', a) == Get(base, a)
    ensures HoldOk(base', mem', ph)
  {
    if ph.Hold? {
      TxLocal(ph.sec.next, base, base', |ph.trace|);
    }
  }

  lemma HeldAccessOwn(base: Mem, mem: Mem, ph: Phase, ph': Phase, mem': Mem)
    requires ph.Hold? && HoldOk(base, mem, ph) && !ph.sec.next(ph.trace).Done?
    requires var a := ph.sec.next(ph.trace).a; a in ph.touched || Get(mem, a) == Get(base, a)
    requires match ph.sec.next(ph.trace)
      case Load(a) => mem' == mem && ph' == ph.(trace := ph.trace + [Get(mem, a)], touched := ph.touched + {a})
      case Store(a, v) => mem' == mem[a := v] && ph' == ph.(trace := ph.trace + [v], touched := ph.touched + {a})
      case Done => true
    ensures HoldOk(base, mem', ph')
  {
    var act := ph.sec.next(ph.trace);
    var tx := TxRun(ph.sec.next, base, |ph.trace|);
    var tx' := TxRun(ph.sec.next, base, |ph'.trace|);
    assert tx' == TxStep(ph.sec.next, base, tx);
    assert Get(mem, act.a) == Get(base + tx.stored, act.a);
    assert tx'.loaded + tx'.stored.Keys == ph'.touched;
  }

  /** Before an owner first uses a word, nobody else's part shows in it. */
  lemma HeldWord(cfg: Config, init: Mem, s: State, t: nat, a: Addr)
    requires cfg.Discipline() == Subscribed && Inv(cfg, init, s) && Enabled(cfg, s, Access(t)) && s.threads[t].Hold?
    requires a == s.threads[t].sec.next(s.threads[t].trace).a
    ensures forall u :: 0 <= u < |s.threads| && u != t && s.threads[u].Hold? ==> a !in s.threads[u].touched
    ensures a in s.threads[t].touched || Get(s.mem, a) == Get(Serial(init, s.log), a)
  {
    forall u | 0 <= u < |s.threads| && u != t && s.threads[u].Hold?
      ensures a !in s.threads[u].touched
    {
      assert !Foreign(s.threads[u], s.threads[t].sec.lock, a);
    }
  }

  lemma SettledByMore(base: Mem, s: State, s': State, a: Addr)
    requires Settled(base, s) && |s'.threads| == |s.threads|
    requires forall u :: 0 <= u < |s.threads| && s.threads[u].Hold? ==>
      s'.threads[u].Hold? && s.threads[u].touched <= s'.threads[u].touched
    requires forall b :: b != a ==> Get(s'.mem, b) == Get(s.mem, b)
    requires Get(s'.mem, a) == Get(s.mem, a) || !Unused(s', a)
    ensures Settled(base, s')
  {
    forall b | Unused(s', b)
      ensures Get(s'.mem, b) == Get(base, b)
    {
      assert Unused(s, b);
    }
  }

  lemma HeldLoad(cfg: Config, init: Mem, s: State, t: nat)
    requires cfg.Discipline() == Subscribed && Inv(cfg, init, s) && Enabled(cfg, s, Access(t))
    requires s.threads[t].Hold? && s.threads[t].sec.next(s.threads[t].trace).Load?
    ensures Inv(cfg, init, DoAccess(s, t))
  {
    var ph, base, s' := s.threads[t], Serial(init, s.log), DoAccess(s, t);
    var a := ph.sec.next(ph.trace).a;
    assert HoldOk(base, s.mem, ph);
    HeldWord(cfg, init, s, t, a);
    HeldAccessOwn(base, s.mem, ph, s'.threads[t], s'.mem);
    RegionsAccess(cfg, s, s', t);
    SettledByMore(base, s, s', a);
  }

  /** Another thread under a visible store to a word that no other owner uses. */
  lemma StoreOthers(cfg: Config, base: Mem, s: State, u: nat, a: Addr, mem': Mem)
    requires cfg.Discipline() != Mixed && ThreadsOk(cfg, base, s) && u < |s.threads|
    requires forall b :: b != a ==> Get(mem', b) == Get(s.mem, b)
    requires s.threads[u].Hold? ==> a !in s.threads[u].touched
    ensures var ph, ph' := s.threads[u], Struck(s.threads[u], {a});
      && PhaseOk(cfg, ph') && SpecOk(mem', s.locked, ph') && HoldOk(base, mem', ph')
      && Shrunk(ph, ph') && (ph.Hold? ==> ph' == ph)
  {
    assert PhaseOk(cfg, s.threads[u]) && SpecOk(s.mem, s.locked, s.threads[u]);
    StruckOk(cfg, s.mem, mem', s.locked, s.threads[u], {a});
    HoldKept(base, base, s.mem, mem', s.threads[u]);
  }

  lemma HeldStoreThreads(cfg: Config, init: Mem, s: State, t: nat)
    requires cfg.Discipline() == Subscribed && Inv(cfg, init, s) && Enabled(cfg, s, Access(t))
    requires s.threads[t].Hold? && s.threads[t].sec.next(s.threads[t].trace).Store?
    ensures var s' := DoAccess(s, t);
      && ThreadsOk(cfg, Serial(init, s.log), s') && |s'.threads| == |s.threads|
      && forall u :: 0 <= u < |s.threads| && u != t ==>
           Shrunk(s.threads[u], s'.threads[u]) && (s.threads[u].Hold? ==> s'.threads[u] == s.threads[u])
  {
    var ph, base, s' := s.threads[t], Serial(init, s.log), DoAccess(s, t);
    var a := ph.sec.next(ph.trace).a;
    assert HoldOk(base, s.mem, ph) && PhaseOk(cfg, ph);
    HeldWord(cfg, init, s, t, a);
    HeldAccessOwn(base, s.mem, ph, s'.threads[t], s'.mem);
    forall u | 0 <= u < |s'.threads| && u != t
      ensures PhaseOk(cfg, s'.threads[u]) && SpecOk(s'.mem, s'.locked, s'.threads[u])
      ensures HoldOk(base, s'.mem, s'.threads[u])
      ensures Shrunk(s.threads[u], s'.threads[u]) && (s.threads[u].Hold? ==> s'.threads[u] == s.threads[u])
    {
      StoreOthers(cfg, base, s, u, a, s'.mem);
    }
  }

  lemma HeldStoreSettled(base: Mem, s: State, t: nat)
    requires Settled(base, s) && t < |s.threads| && s.threads[t].Hold? && s.threads[t].sec.next(s.threads[t].trace).Store?
    ensures Settled(base, DoAccess(s, t))
  {
    var ph, s' := s.threads[t], DoAccess(s, t);
    var a := ph.sec.next(ph.trace).a;
    assert !Unused(s', a) by { assert a in s'.threads[t].touched; }
    SettledByMore(base, s, s', a);
  }

  lemma HeldStore(cfg: Config, init: Mem, s: State, t: nat)
    requires cfg.Discipline() == Subscribed && Inv(cfg, init, s) && Enabled(cfg, s, Access(t))
    requires s.threads[t].Hold? && s.threads[t].sec.next(s.threads[t].trace).Store?
    ensures Inv(cfg, init, DoAccess(s, t))
  {
    var s' := DoAccess(s, t);
    HeldStoreThreads(cfg, init, s, t);
    RegionsAccess(cfg, s, s', t);
    HeldStoreSettled(Serial(init, s.log), s, t);
  }

  // ---------- sections completing ----------

  /** A commit publishes what the section does alone on the memory the log has built. */
  lemma CommitIsSerial(cfg: Config, init: Mem, s: State, t: nat)
    requires cfg.Discipline() != Mixed && Inv(cfg, init, s) && Ends(s, t) && s.threads[t].Speculate?
    ensures var ph := s.threads[t]; var base := Serial(init, s.log);
      Alone(ph.sec.next, base, |ph.tx.trace|) == Solo(base + ph.tx.stored, ph.tx.trace)
    ensures forall a :: a in Footprint(s.threads[t]) ==> Unused(s, a)
  {
    var ph := s.threads[t];
    var base := Serial(init, s.log);
    var n := |ph.tx.trace|;
    assert SpecOk(s.mem, s.locked, ph);
    forall a | a in Footprint(ph)
      ensures Unused(s, a)
    {
      SpeculationUnused(cfg, init, s, t, a);
    }
    assert forall a :: a in ph.tx.loaded ==> a in Footprint(ph);
    TxLocal(ph.sec.next, s.mem, base, n);
    TxIsAlone(ph.sec.next, base, n);
  }

  lemma CommitThreads(cfg: Config, init: Mem, s: State, t: nat, base': Mem)
    requires cfg.Discipline() != Mixed && Inv(cfg, init, s) && Ends(s, t) && s.threads[t].Speculate?
    requires base' == Serial(init, s.log) + s.threads[t].tx.stored
    ensures ThreadsOk(cfg, base', DoCommit(s, t)) && LocksOk(cfg, DoCommit(s, t))
    ensures forall u :: 0 <= u < |s.threads| && s.threads[u].Hold? ==> DoCommit(s, t).threads[u] == s.threads[u]
  {
    CommitIsSerial(cfg, init, s, t);
    var ph, base, s' := s.threads[t], Serial(init, s.log), DoCommit(s, t);
    forall u | 0 <= u < |s'.threads|
      ensures PhaseOk(cfg, s'.threads[u]) && SpecOk(s'.mem, s'.locked, s'.threads[u])
      ensures HoldOk(base', s'.mem, s'.threads[u])
      ensures Shrunk(s.threads[u], s'.threads[u]) && (s.threads[u].Hold? ==> s'.threads[u] == s.threads[u])
    {
      if u != t {
        assert PhaseOk(cfg, s.threads[u]) && SpecOk(s.mem, s.locked, s.threads[u]);
        StruckOk(cfg, s.mem, s'.mem, s.locked, s.threads[u], ph.tx.stored.Keys);
        assert forall a :: a in ph.tx.stored ==> a in Footprint(ph);
        HoldKept(base, base', s.mem, s'.mem, s.threads[u]);
      }
    }
    if cfg.Discipline() == Subscribed {
      RegionsShrunk(s, s');
    }
  }

  lemma CommitSettled(cfg: Config, init: Mem, s: State, t: nat, base': Mem)
    requires cfg.Discipline() != Mixed && Inv(cfg, init, s) && Ends(s, t) && s.threads[t].Speculate?
    requires base' == Serial(init, s.log) + s.threads[t].tx.stored
    requires forall u :: 0 <= u < |s.threads| && s.threads[u].Hold? ==> DoCommit(s, t).threads[u] == s.threads[u]
    ensures Settled(base', DoCommit(s, t))
  {
    var base, tx, s' := Serial(init, s.log), s.threads[t].tx, DoCommit(s, t);
    forall a | Unused(s', a)
      ensures Get(s'.mem, a) == Get(base', a)
    {
      assert Unused(s, a);
      assert Get(s.mem, a) == Get(base, a);
    }
  }

  lemma CommitStep(cfg: Config, init: Mem, s: State, t: nat)
    requires cfg.Discipline() != Mixed && Inv(cfg, init, s) && Ends(s, t) && s.threads[t].Speculate?
    ensures Inv(cfg, init, DoCommit(s, t))
  {
    CommitIsSerial(cfg, init, s, t);
    var ph := s.threads[t];
    var c := Completed(t, ph.sec, ph.tx.trace);
    SerialPush(init, s.log, c);
    ExplainedPush(init, s.log, c);
    CommitThreads(cfg, init, s, t, Serial(init, s.log + [c]));
    CommitSettled(cfg, init, s, t, Serial(init, s.log + [c]));
  }

  lemma ExchangeRegions(s: State, t: nat)
    requires RegionsApart(s) && t < |s.threads| && s.threads[t].Acquire?
    ensures RegionsApart(DoExchange(s, t))
  {
    var s' := DoExchange(s, t);
    RegionsQuiet(s, t, s'.threads[t]);
    RegionsShrunk(Set(s, t, s'.threads[t]), s');
  }

  lemma ExchangeStep(cfg: Config, init: Mem, s: State, t: nat)
    requires cfg.Discipline() != Mixed && Inv(cfg, init, s) && Enabled(cfg, s, TryExchange(t))
    ensures Inv(cfg, init, DoExchange(s, t))
  {
    var ph, base, s' := s.threads[t], Serial(init, s.log), DoExchange(s, t);
    assert PhaseOk(cfg, ph);
    forall u | 0 <= u < |s'.threads|
      ensures PhaseOk(cfg, s'.threads[u]) && SpecOk(s'.mem, s'.locked, s'.threads[u])
      ensures HoldOk(base, s'.mem, s'.threads[u])
      ensures u != t && (s.threads[u].Hold? || s'.threads[u].Hold?) ==> s'.threads[u] == s.threads[u]
    {
      assert PhaseOk(cfg, s.threads[u]) && SpecOk(s.mem, s.locked, s.threads[u]);
      if u == t && s'.threads[t].Hold? {
        assert TxRun(ph.sec.next, base, 0) == EMPTY_TX;
      }
    }
    ExchangeRegions(s, t);
    SettledByMore(base, s, s', Head(0));
  }

  lemma ReleaseIsSerial(cfg: Config, init: Mem, s: State, t: nat)
    requires cfg.Discipline() != Mixed && Inv(cfg, init, s) && Ends(s, t) && s.threads[t].Hold?
    ensures var ph := s.threads[t]; var base := Serial(init, s.log);
      var tx := TxRun(ph.sec.next, base, |ph.trace|);
      && Alone(ph.sec.next, base, |ph.trace|) == Solo(base + tx.stored, ph.trace)
      && tx.stored.Keys <= ph.touched && cfg.Discipline() == Subscribed
      && (forall a :: a in ph.touched ==> Get(s.mem, a) == Get(base + tx.stored, a))
  {
    var ph := s.threads[t];
    var base := Serial(init, s.log);
    assert PhaseOk(cfg, ph) && HoldOk(base, s.mem, ph);
    TxIsAlone(ph.sec.next, base, |ph.trace|);
  }

  /** Another owner does not notice a release. */
  lemma ReleaseOwners(base: Mem, base': Mem, mem: Mem, mine: Phase, other: Phase)
    requires mine.Hold? && other.Hold? && HoldOk(base, mem, other) && mine.touched !! other.touched
    requires exists stored: Mem :: base' == base + stored && stored.Keys <= mine.touched
    ensures HoldOk(base', mem, other)
  {
    HoldKept(base, base', mem, mem, other);
  }

  lemma ReleasePhases(cfg: Config, s: State, t: nat, u: nat)
    requires cfg.Discipline() != Mixed && Ends(s, t) && s.threads[t].Hold? && u < |s.threads|
    requires PhaseOk(cfg, s.threads[u]) && SpecOk(s.mem, s.locked, s.threads[u])
    ensures var s' := DoRelease(s, t);
      && PhaseOk(cfg, s'.threads[u]) && SpecOk(s'.mem, s'.locked, s'.threads[u])
      && Shrunk(s.threads[u], s'.threads[u]) && (s'.threads[u].Hold? ==> u != t && s'.threads[u] == s.threads[u])
  {
  }

  lemma ReleaseThreads(cfg: Config, init: Mem, s: State, t: nat, base': Mem)
    requires cfg.Discipline() != Mixed && Inv(cfg, init, s) && Ends(s, t) && s.threads[t].Hold?
    requires base' == Serial(init, s.log) + TxRun(s.threads[t].sec.next, Serial(init, s.log), |s.threads[t].trace|).stored
    ensures ThreadsOk(cfg, base', DoRelease(s, t)) && LocksOk(cfg, DoRelease(s, t))
  {
    var base, s' := Serial(init, s.log), DoRelease(s, t);
    ReleaseIsSerial(cfg, init, s, t);
    forall u | 0 <= u < |s'.threads|
      ensures PhaseOk(cfg, s'.threads[u]) && SpecOk(s'.mem, s'.locked, s'.threads[u])
      ensures HoldOk(base', s'.mem, s'.threads[u])
      ensures Shrunk(s.threads[u], s'.threads[u]) && (s'.threads[u].Hold? ==> u != t && s'.threads[u] == s.threads[u])
    {
      ReleasePhases(cfg, s, t, u);
      if s'.threads[u].Hold? {
        OwnersApart(cfg, s, t, u);
        ReleaseOwners(base, base', s.mem, s.threads[t], s.threads[u]);
      }
    }
    RegionsShrunk(s, s');
  }

  lemma ReleaseSettled(cfg: Config, init: Mem, s: State, t: nat, base': Mem)
    requires cfg.Discipline() != Mixed && Inv(cfg, init, s) && Ends(s, t) && s.threads[t].Hold?
    requires base' == Serial(init, s.log) + TxRun(s.threads[t].sec.next, Serial(init, s.log), |s.threads[t].trace|).stored
    ensures Settled(base', DoRelease(s, t))
  {
    ReleaseIsSerial(cfg, init, s, t);
    var s' := DoRelease(s, t);
    forall a | Unused(s', a)
      ensures Get(s'.mem, a) == Get(base', a)
    {
      if a !in s.threads[t].touched {
        forall u | 0 <= u < |s.threads| && s.threads[u].Hold?
          ensures a !in s.threads[u].touched
        {
          assert u != t ==> s'.threads[u] == s.threads[u];
        }
        assert Unused(s, a);
      }
    }
  }

  lemma ReleaseStep(cfg: Config, init: Mem, s: State, t: nat)
    requires cfg.Discipline() != Mixed && Inv(cfg, init, s) && Ends(s, t) && s.threads[t].Hold?
    ensures Inv(cfg, init, DoRelease(s, t))
  {
    ReleaseIsSerial(cfg, init, s, t);
    var ph := s.threads[t];
    var c := Completed(t, ph.sec, ph.trace);
    SerialPush(init, s.log, c);
    ExplainedPush(init, s.log, c);
    ReleaseThreads(cfg, init, s, t, Serial(init, s.log + [c]));
    ReleaseSettled(cfg, init, s, t, Serial(init, s.log + [c]));
  }

  lemma StoreAlone(m: Mem, a: Addr, v: int)
    ensures var p := StoreSection(a, v).next; Alone(p, m, 1) == Solo(m[a := v], [v]) && p([v]).Done?
  {
    var p := StoreSection(a, v).next;
    assert Alone(p, m, 0) == Solo(m, []);
  }

  lemma PlainStoreThreads(cfg: Config, base: Mem, s: State, t: nat, a: Addr, v: int)
    requires cfg.Discipline() != Mixed && ThreadsOk(cfg, base, s) && LocksOk(cfg, s) && Settled(base, s)
    requires Enabled(cfg, s, PlainStore(t, a, v))
    ensures var s' := DoPlainStore(s, t, a, v);
      ThreadsOk(cfg, base[a := v], s') && LocksOk(cfg, s') && Settled(base[a := v], s')
  {
    var s' := DoPlainStore(s, t, a, v);
    forall u | 0 <= u < |s'.threads|
      ensures PhaseOk(cfg, s'.threads[u]) && SpecOk(s'.mem, s'.locked, s'.threads[u])
      ensures HoldOk(base[a := v], s'.mem, s'.threads[u])
      ensures Shrunk(s.threads[u], s'.threads[u]) && (s.threads[u].Hold? ==> s'.threads[u] == s.threads[u])
    {
      assert PhaseOk(cfg, s.threads[u]) && SpecOk(s.mem, s.locked, s.threads[u]);
      if u != t {
        StruckOk(cfg, s.mem, s'.mem, s.locked, s.threads[u], {a});
        HoldKept(base, base[a := v], s.mem, s'.mem, s.threads[u]);
      }
    }
    if cfg.Discipline() == Subscribed {
      RegionsShrunk(s, s');
    }
    forall b | Unused(s', b)
      ensures Get(s'.mem, b) == Get(base[a := v], b)
    {
      assert Unused(s, b);
    }
  }

  lemma PlainStoreStep(cfg: Config, init: Mem, s: State, t: nat, a: Addr, v: int)
    requires cfg.Discipline() != Mixed && Inv(cfg, init, s) && Enabled(cfg, s, PlainStore(t, a, v))
    ensures Inv(cfg, init, DoPlainStore(s, t, a, v))
  {
    var base, c := Serial(init, s.log), Completed(t, StoreSection(a, v), [v]);
    StoreAlone(base, a, v);
    SerialPush(init, s.log, c);
    ExplainedPush(init, s.log, c);
    PlainStoreThreads(cfg, base, s, t, a, v);
  }

  /** What an unlock does, in a state in which lock and unlock pair up. */
  lemma UnlockDoes(cfg: Config, s: State, t: nat)
    requires Ends(s, t) && Paired(s.threads[t])
    ensures var s', ph := Do(cfg, s, Unlock(t)), s.threads[t];
      && s' == (if ph.Speculate? then DoCommit(s, t) else DoRelease(s, t))
      && s'.log == s.log + [Completed(t, ph.sec, TraceOf(ph))]
      && |s'.threads| == |s.threads| && s'.threads[t] == Idle
  {
  }

  lemma UnlockStep(cfg: Config, init: Mem, s: State, t: nat)
    requires cfg.Discipline() != Mixed && Inv(cfg, init, s) && Ends(s, t)
    ensures Inv(cfg, init, Do(cfg, s, Unlock(t)))
  {
    assert PhaseOk(cfg, s.threads[t]);
    UnlockDoes(cfg, s, t);
    if s.threads[t].Speculate? {
      CommitStep(cfg, init, s, t);
    } else {
      ReleaseStep(cfg, init, s, t);
    }
  }

  lemma InvStep(cfg: Config, init: Mem, s: State, e: Event)
    requires cfg.Discipline() != Mixed && Inv(cfg, init, s) && Enabled(cfg, s, e)
    ensures Inv(cfg, init, Do(cfg, s, e))
  {
    match e
    case Access(t) =>
      if s.threads[t].Speculate? {
        TxAccess(cfg, init, s, t);
      } else if s.threads[t].sec.next(s.threads[t].trace).Load? {
        HeldLoad(cfg, init, s, t);
      } else {
        HeldStore(cfg, init, s, t);
      }
    case TryExchange(t) => ExchangeStep(cfg, init, s, t);
    case Unlock(t) => UnlockStep(cfg, init, s, t);
    case PlainStore(t, a, v) => PlainStoreStep(cfg, init, s, t, a, v);
    case _ => QuietEvents(cfg, init, s, e);
  }

  lemma {:induction false} RunInv(cfg: Config, n: nat, init: Mem, events: seq<Event>)
    requires cfg.Discipline() != Mixed
    ensures Inv(cfg, init, After(cfg, n, init, events))
  {
    if events != [] {
      var s := After(cfg, n, init, events[..|events| - 1]);
      RunInv(cfg, n, init, events[..|events| - 1]);
      if Enabled(cfg, s, events[|events| - 1]) {
        InvStep(cfg, init, s, events[|events| - 1]);
      }
    }
  }

  lemma AfterPush(cfg: Config, n: nat, init: Mem, events: seq<Event>, e: Event)
    requires Enabled(cfg, After(cfg, n, init, events), e)
    ensures After(cfg, n, init, events + [e]) == Do(cfg, After(cfg, n, init, events), e)
  {
    assert (events + [e])[..|events|] == events;
  }

  // ---------- theorems ----------

  /**
   Serializability.  After every run, each completed section saw exactly what it would
   have seen alone at its place in the order of commits and releases, and every word
   no lock owner has in use is what running the completed sections one by one leaves
   there; with all locks free that is every word.
   */
  lemma RunsSerialize(cfg: Config, n: nat, init: Mem, events: seq<Event>)
    requires cfg.Discipline() != Mixed
    ensures var s := After(cfg, n, init, events);
      && LogExplained(init, s.log)
      && (forall a :: Unused(s, a) ==> Get(s.mem, a) == Get(Serial(init, s.log), a))
      && (s.locked == {} ==> forall a :: Unused(s, a))
  {
    RunInv(cfg, n, init, events);
  }

  lemma ElidedLockFree(cfg: Config, init: Mem, s: State, t: nat)
    requires cfg.Discipline() == Subscribed && Inv(cfg, init, s) && t < |s.threads| && s.threads[t].Speculate?
    ensures var lock := s.threads[t].sec.lock;
      && lock !in s.locked && Paired(s.threads[t])
      && forall u :: 0 <= u < |s.threads| && s.threads[u].Hold? ==> s.threads[u].sec.lock != lock
  {
    assert PhaseOk(cfg, s.threads[t]) && SpecOk(s.mem, s.locked, s.threads[t]);
  }

  /**
   From its start to its commit an elided section runs with its lock word at 0 and nobody
   owning the lock, and the commit leaves the word at 0.
   */
  lemma NoCommitUnderOwner(cfg: Config, n: nat, init: Mem, events: seq<Event>, t: nat)
    requires cfg.Discipline() == Subscribed
    requires var s := After(cfg, n, init, events); t < |s.threads| && s.threads[t].Speculate?
    ensures var s := After(cfg, n, init, events); var lock := s.threads[t].sec.lock;
      && lock !in s.locked
      && (forall u :: 0 <= u < |s.threads| && s.threads[u].Hold? ==> s.threads[u].sec.lock != lock)
      && (Ends(s, t) ==> lock !in Do(cfg, s, Unlock(t)).locked)
  {
    var s := After(cfg, n, init, events);
    RunInv(cfg, n, init, events);
    ElidedLockFree(cfg, init, s, t);
    if Ends(s, t) {
      UnlockDoes(cfg, s, t);
    }
  }

  /** The words an event makes stores to that everybody sees. */
  function Published(s: State, e: Event): set<Addr>
    requires e.t < |s.threads|
  {
    var ph := s.threads[e.t];
    match e
    case PlainStore(_, a, _) => {a}
    case Access(_) => if ph.Hold? && ph.sec.next(ph.trace).Store? then {ph.sec.next(ph.trace).a} else {}
    case Unlock(_) => if ph.Speculate? then ph.tx.stored.Keys else {}
    case _ => {}
  }

  /** The lock words an event stores to: by an exchange, or by an unlock outside a transaction. */
  function LockWords(s: State, e: Event): set<int>
    requires e.t < |s.threads|
  {
    var ph := s.threads[e.t];
    match e
    case TryExchange(_) => if ph.Acquire? then {ph.sec.lock} else {}
    case Unlock(_) => if ph.Hold? then {ph.sec.lock} else {}
    case _ => {}
  }

  /** The event stores to a word that the transaction has loaded or stored, or to its lock word that it has read. */
  predicate Disturbs(s: State, e: Event, ph: Phase)
    requires e.t < |s.threads| && ph.Speculate?
  {
    || !(ph.tx.loaded !! Published(s, e)) || !(ph.tx.stored.Keys !! Published(s, e))
    || (ph.how != Naive && ph.sec.lock in LockWords(s, e))
  }

  lemma StrikeEnds(ph: Phase, addrs: set<Addr>)
    requires ph.Speculate?
    ensures if ph.tx.loaded !! addrs && ph.tx.stored.Keys !! addrs then Struck(ph, addrs) == ph else !Live(Struck(ph, addrs))
  {
  }

  /**
   A store that everybody sees ends every other transaction that has loaded or stored the word,
   or that has read the lock word stored to; nothing else disturbs a transaction of another thread.
   */
  lemma ConflictsAbort(cfg: Config, s: State, e: Event, u: nat)
    requires Enabled(cfg, s, e) && u < |s.threads| && u != e.t && s.threads[u].Speculate? && Paired(s.threads[e.t])
    ensures var s', ph := Do(cfg, s, e), s.threads[u];
      |s'.threads| == |s.threads| && if Disturbs(s, e, ph) then !Live(s'.threads[u]) else s'.threads[u] == ph
  {
    StrikeEnds(s.threads[u], Published(s, e));
    if e.Unlock? {
      UnlockDoes(cfg, s, e.t);
    }
  }

  /** Once the word is 0 a spinning thread tries again: HLE with elision, the others with the exchange. */
  lemma SpinEnds(cfg: Config, s: State, t: nat)
    requires t < |s.threads| && s.threads[t].Spin?
    ensures Enabled(cfg, s, SpinLoad(t))
    ensures var ph := s.threads[t];
      Do(cfg, s, SpinLoad(t)) ==
        if ph.sec.lock in s.locked then s
        else Set(s, t, if ph.how == Hle then Begin(ph.sec, Hle, 0) else Acquire(ph.sec, ph.how))
  {
  }

  // ---------- sections that keep to their words ----------

  /** Whatever it sees, the section accesses only words that its lock guards. */
  ghost predicate Confined(owner: Addr -> int, sec: Section) {
    forall trace :: !sec.next(trace).Done? ==> owner(sec.next(trace).a) == sec.lock
  }

  ghost predicate ConfinedPhase(owner: Addr -> int, ph: Phase) {
    && (!ph.Idle? ==> Confined(owner, ph.sec))
    && (Live(ph) ==> forall a :: a in Footprint(ph) ==> owner(a) == ph.sec.lock)
  }

  ghost predicate AllConfined(owner: Addr -> int, s: State) {
    forall t :: 0 <= t < |s.threads| ==> ConfinedPhase(owner, s.threads[t])
  }

  /** A thread that does not act stays as it is, or its transaction is struck and it starts over. */
  ghost predicate Kept(ph: Phase, ph': Phase) {
    ph' == ph || (ph.Speculate? && ph' == AfterAbort(ph.sec, ph.how, ph.failures, XABORT_CONFLICT))
  }

  lemma OthersKept(cfg: Config, s: State, e: Event, u: nat)
    requires Enabled(cfg, s, e) && u < |s.threads| && u != e.t
    ensures var s' := Do(cfg, s, e); |s'.threads| == |s.threads| && Kept(s.threads[u], s'.threads[u])
  {
  }

  /** The words an event may add to those its thread uses. */
  function Added(e: Event, ph: Phase): set<Addr> {
    if e.Access? && Live(ph) && !ph.sec.next(TraceOf(ph)).Done? then {ph.sec.next(TraceOf(ph)).a} else {}
  }

  /** An event keeps its thread in the section, and only an access adds to the words it uses. */
  ghost predicate Moved(e: Event, ph: Phase, ph': Phase) {
    && (!e.Enter? && !ph'.Idle? ==> !ph.Idle? && ph'.sec == ph.sec)
    && (e.Enter? && !ph'.Idle? ==> ph'.sec == e.sec)
    && (Live(ph') ==> Footprint(ph') <= Footprint(ph) + Added(e, ph))
  }

  lemma ActorMoved(cfg: Config, s: State, e: Event)
    requires Enabled(cfg, s, e)
    ensures var s' := Do(cfg, s, e); |s'.threads| == |s.threads| && Moved(e, s.threads[e.t], s'.threads[e.t])
  {
  }

  lemma ConfinedStep(cfg: Config, owner: Addr -> int, s: State, e: Event)
    requires AllConfined(owner, s) && Enabled(cfg, s, e) && (e.Enter? ==> Confined(owner, e.sec))
    ensures AllConfined(owner, Do(cfg, s, e))
  {
    var s' := Do(cfg, s, e);
    ActorMoved(cfg, s, e);
    forall u | 0 <= u < |s'.threads|
      ensures ConfinedPhase(owner, s'.threads[u])
    {
      assert ConfinedPhase(owner, s.threads[u]);
      if u != e.t {
        OthersKept(cfg, s, e, u);
      }
    }
  }

  lemma {:induction false} ConfinedRun(cfg: Config, owner: Addr -> int, n: nat, init: Mem, events: seq<Event>)
    requires forall i :: 0 <= i < |events| && events[i].Enter? ==> Confined(owner, events[i].sec)
    ensures AllConfined(owner, After(cfg, n, init, events))
  {
    if events != [] {
      var k := |events| - 1;
      ConfinedRun(cfg, owner, n, init, events[..k]);
      var s := After(cfg, n, init, events[..k]);
      if Enabled(cfg, s, events[k]) {
        ConfinedStep(cfg, owner, s, events[k]);
      }
    }
  }

  /**
   Sections that keep to the words of their lock always may go on: asking that sections
   under different locks do not meet in a word excludes none of their runs.
   */
  lemma ConfinedNeverMeet(cfg: Config, owner: Addr -> int, n: nat, init: Mem, events: seq<Event>, t: nat)
    requires forall i :: 0 <= i < |events| && events[i].Enter? ==> Confined(owner, events[i].sec)
    requires var s := After(cfg, n, init, events); t < |s.threads| && Live(s.threads[t])
    ensures InRegion(cfg, After(cfg, n, init, events), t)
  {
    ConfinedRun(cfg, owner, n, init, events);
    assert ConfinedPhase(owner, After(cfg, n, init, events).threads[t]);
  }

  // ---------- only what was entered completes ----------

  ghost predicate AllFrom(sections: iset<Section>, s: State) {
    && (forall t :: 0 <= t < |s.threads| && !s.threads[t].Idle? ==> s.threads[t].sec in sections)
    && (forall i :: 0 <= i < |s.log| ==> s.log[i].sec in sections)
  }

  lemma FromStep(cfg: Config, sections: iset<Section>, s: State, e: Event)
    requires AllFrom(sections, s) && Enabled(cfg, s, e) && !e.PlainStore? && (e.Enter? ==> e.sec in sections)
    ensures AllFrom(sections, Do(cfg, s, e))
  {
    var s' := Do(cfg, s, e);
    ActorMoved(cfg, s, e);
    forall u | 0 <= u < |s'.threads| && !s'.threads[u].Idle?
      ensures s'.threads[u].sec in sections
    {
      if u != e.t {
        OthersKept(cfg, s, e, u);
      }
    }
  }

  /** Threads only enter these sections, and make no stores outside. */
  ghost predicate Enters(events: seq<Event>, sections: iset<Section>) {
    forall i :: 0 <= i < |events| ==> !events[i].PlainStore? && (events[i].Enter? ==> events[i].sec in sections)
  }

  /** The log of a run lists only sections that were entered. */
  lemma {:induction false} LogFromEntries(cfg: Config, n: nat, init: Mem, events: seq<Event>, sections: iset<Section>)
    requires Enters(events, sections)
    ensures AllFrom(sections, After(cfg, n, init, events))
  {
    if events != [] {
      var k := |events| - 1;
      LogFromEntries(cfg, n, init, events[..k], sections);
      var s := After(cfg, n, init, events[..k]);
      if Enabled(cfg, s, events[k]) {
        FromStep(cfg, sections, s, events[k]);
      }
    }
  }

  // ---------- lock and unlock pair up ----------

  /** A lock word is 1 exactly while one thread owns the lock. */
  ghost predicate Owned(s: State) {
    HoldersOk(s) && forall k :: k in s.locked ==> HasHolder(s, k)
  }

  ghost predicate HasHolder(s: State, k: int) {
    exists t :: 0 <= t < |s.threads| && s.threads[t].Hold? && s.threads[t].sec.lock == k
  }

  ghost predicate SameOwners(s: State, s': State) {
    && s'.locked == s.locked && |s'.threads| == |s.threads|
    && forall u :: 0 <= u < |s.threads| ==>
         && (s'.threads[u].Hold? <==> s.threads[u].Hold?)
         && (s.threads[u].Hold? ==> s'.threads[u].sec == s.threads[u].sec)
  }

  lemma OwnedKept(s: State, s': State)
    requires Owned(s) && SameOwners(s, s')
    ensures Owned(s')
  {
    forall k | k in s'.locked
      ensures HasHolder(s', k)
    {
      assert HasHolder(s, k);
      var t :| 0 <= t < |s.threads| && s.threads[t].Hold? && s.threads[t].sec.lock == k;
      assert s'.threads[t].Hold? && s'.threads[t].sec.lock == k;
    }
  }

  lemma OwnedExchange(s: State, t: nat)
    requires Owned(s) && t < |s.threads| && s.threads[t].Acquire?
    ensures Owned(DoExchange(s, t))
  {
    var s', lock := DoExchange(s, t), s.threads[t].sec.lock;
    assert forall u :: 0 <= u < |s.threads| && u != t ==>
        s'.threads[u] == LockStruck(s.threads[u], lock) && (s'.threads[u].Hold? ==> s'.threads[u] == s.threads[u]);
    forall k | k in s'.locked
      ensures HasHolder(s', k)
    {
      if k in s.locked {
        assert HasHolder(s, k);
        var u :| 0 <= u < |s.threads| && s.threads[u].Hold? && s.threads[u].sec.lock == k;
        assert s'.threads[u].Hold? && s'.threads[u].sec.lock == k;
      } else {
        assert s'.threads[t].Hold? && s'.threads[t].sec.lock == k;
      }
    }
  }

  lemma OwnedRelease(s: State, t: nat)
    requires Owned(s) && t < |s.threads| && s.threads[t].Hold?
    ensures Owned(DoRelease(s, t))
  {
    var s', lock := DoRelease(s, t), s.threads[t].sec.lock;
    assert forall u :: 0 <= u < |s.threads| && u != t ==>
        s'.threads[u] == LockStruck(s.threads[u], lock) && (s'.threads[u].Hold? ==> s'.threads[u] == s.threads[u]);
    forall k | k in s'.locked
      ensures HasHolder(s', k)
    {
      assert HasHolder(s, k);
      var u :| 0 <= u < |s.threads| && s.threads[u].Hold? && s.threads[u].sec.lock == k;
      assert s'.threads[u].Hold? && s'.threads[u].sec.lock == k;
    }
  }

  lemma StrikeKeepsOwners(s: State, s': State, t: nat, addrs: set<Addr>, ph: Phase)
    requires t < |s.threads| && s'.locked == s.locked && s'.threads == Strike(s.threads[t := ph], t, addrs)
    requires (ph.Hold? <==> s.threads[t].Hold?) && (ph.Hold? ==> ph.sec == s.threads[t].sec)
    ensures SameOwners(s, s')
  {
  }

  lemma OwnersKept(cfg: Config, s: State, e: Event)
    requires Enabled(cfg, s, e) && !e.TryExchange? && !e.Unlock?
    ensures SameOwners(s, Do(cfg, s, e))
  {
    var ph := s.threads[e.t];
    match e
    case Access(t) =>
      if ph.Hold? && ph.sec.next(ph.trace).Store? {
        var act := ph.sec.next(ph.trace);
        StrikeKeepsOwners(s, DoAccess(s, t), t, {act.a}, ph.(trace := ph.trace + [act.v], touched := ph.touched + {act.a}));
      }
    case PlainStore(t, a, v) =>
      assert s.threads[t := Idle] == s.threads;
      StrikeKeepsOwners(s, DoPlainStore(s, t, a, v), t, {a}, Idle);
    case _ =>
  }

  lemma {:induction false} PairedRun(cfg: Config, n: nat, init: Mem, events: seq<Event>)
    ensures AllPaired(After(cfg, n, init, events))
  {
    if events != [] {
      var s := After(cfg, n, init, events[..|events| - 1]);
      PairedRun(cfg, n, init, events[..|events| - 1]);
      if Enabled(cfg, s, events[|events| - 1]) {
        PairedStep(cfg, s, events[|events| - 1]);
      }
    }
  }

  predicate AllPaired(s: State) {
    forall t :: 0 <= t < |s.threads| ==> Paired(s.threads[t])
  }

  lemma PairedActor(cfg: Config, s: State, e: Event)
    requires Enabled(cfg, s, e) && Paired(s.threads[e.t])
    ensures var s' := Do(cfg, s, e); |s'.threads| == |s.threads| && Paired(s'.threads[e.t])
  {
  }

  lemma PairedStep(cfg: Config, s: State, e: Event)
    requires AllPaired(s) && Enabled(cfg, s, e)
    ensures AllPaired(Do(cfg, s, e))
  {
    var s' := Do(cfg, s, e);
    PairedActor(cfg, s, e);
    forall u | 0 <= u < |s'.threads|
      ensures Paired(s'.threads[u])
    {
      if u != e.t {
        OthersKept(cfg, s, e, u);
      }
    }
  }

  lemma OwnedUnlock(s: State, t: nat)
    requires Owned(s) && t < |s.threads| && Live(s.threads[t]) && Paired(s.threads[t])
    ensures Owned(DoUnlock(s, t))
  {
    var ph := s.threads[t];
    if ph.Hold? {
      OwnedRelease(s, t);
    } else {
      StrikeKeepsOwners(s, DoCommit(s, t), t, ph.tx.stored.Keys, Idle);
      OwnedKept(s, DoCommit(s, t));
    }
  }

  lemma OwnedStep(cfg: Config, s: State, e: Event)
    requires Owned(s) && AllPaired(s) && Enabled(cfg, s, e)
    ensures Owned(Do(cfg, s, e))
  {
    match e
    case TryExchange(t) => OwnedExchange(s, t);
    case Unlock(t) => OwnedUnlock(s, t);
    case _ =>
      OwnersKept(cfg, s, e);
      OwnedKept(s, Do(cfg, s, e));
  }

  /** Whatever lock functions are combined, the word of a lock is 1 exactly while one thread owns it. */
  lemma {:induction false} LockWordHasOneOwner(cfg: Config, n: nat, init: Mem, events: seq<Event>)
    ensures Owned(After(cfg, n, init, events))
  {
    if events != [] {
      var s := After(cfg, n, init, events[..|events| - 1]);
      LockWordHasOneOwner(cfg, n, init, events[..|events| - 1]);
      PairedRun(cfg, n, init, events[..|events| - 1]);
      if Enabled(cfg, s, events[|events| - 1]) {
        OwnedStep(cfg, s, events[|events| - 1]);
      }
    }
  }

  /** The only thread that owns the lock. */
  predicate OnlyOwner(s: State, t: nat) {
    && t < |s.threads| && s.threads[t].Hold? && s.threads[t].sec.lock in s.locked
    && forall u :: 0 <= u < |s.threads| && u != t && s.threads[u].Hold? ==> s.threads[u].sec.lock != s.threads[t].sec.lock
  }

  /** The unlock of this thread matches how it entered its section. */
  ghost predicate UnlockMatches(cfg: Config, s: State, t: nat)
    requires Ends(s, t)
  {
    var ph := s.threads[t];
    if ph.Speculate? then ClosingOf(ph.how, true) != StoreZero && Do(cfg, s, Unlock(t)) == DoCommit(s, t)
    else ClosingOf(ph.how, false) != Xend && OnlyOwner(s, t) && Do(cfg, s, Unlock(t)) == DoRelease(s, t)
  }

  lemma UnlockPairs(cfg: Config, s: State, t: nat)
    requires Owned(s) && Ends(s, t) && Paired(s.threads[t])
    ensures UnlockMatches(cfg, s, t)
  {
    UnlockDoes(cfg, s, t);
  }

  /**
   Lock and unlock pair up in every run, whatever lock functions are combined: nobody faults;
   an unlock executes `_xend` only inside a transaction, which it commits, and a store to the
   lock word outside one only as the one owner of the lock, which it releases.
   */
  lemma UnlocksPair(cfg: Config, n: nat, init: Mem, events: seq<Event>, t: nat)
    requires t < |After(cfg, n, init, events).threads|
    ensures var s := After(cfg, n, init, events); !s.threads[t].Fault? && (Ends(s, t) ==> UnlockMatches(cfg, s, t))
  {
    var s := After(cfg, n, init, events);
    PairedRun(cfg, n, init, events);
    LockWordHasOneOwner(cfg, n, init, events);
    assert Paired(s.threads[t]);
    if Ends(s, t) {
      UnlockPairs(cfg, s, t);
    }
  }
}
