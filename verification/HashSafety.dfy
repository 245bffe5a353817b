/**
 What every run of threads on the hash map guarantees: deleting an item after its section
 touches nothing in use, nothing is ever held back, the answers are those of a set, and
 counting the elements at rest gives the size of that set.
 */
module HashSafety {
  import opened Sections
  import opened Elision
  import opened Serializability
  import opened HashPrograms
  import opened HashBuckets
  import opened HashSystem
  import opened HashRuns
  import opened HashCount

  // ---------- where sections are ----------

  /** A section in progress is where it would be on the memory that completed sections have built. */
  lemma LiveOnBase(cfg: Config, init: Mem, m: State, t: nat)
    requires cfg.Discipline() != Mixed && Inv(cfg, init, m) && t < |m.threads| && Live(m.threads[t])
    ensures var ph := m.threads[t];
      var tx := TxRun(ph.sec.next, Serial(init, m.log), |TraceOf(ph)|);
      tx.trace == TraceOf(ph) && tx.loaded + tx.stored.Keys == Footprint(ph)
  {
    var ph, base := m.threads[t], Serial(init, m.log);
    assert SpecOk(m.mem, m.locked, ph) && HoldOk(base, m.mem, ph);
    if ph.Speculate? {
      forall a | a in ph.tx.loaded
        ensures Get(m.mem, a) == Get(base, a)
      {
        assert a in Footprint(ph);
        SpeculationUnused(cfg, init, m, t, a);
      }
      TxLocal(ph.sec.next, m.mem, base, |ph.tx.trace|);
    }
  }

  /** The word a program goes to next is among those it will have touched. */
  lemma NextTouched(p: Prog, m: Mem, n: nat)
    requires !p(TxRun(p, m, n).trace).Done?
    ensures var tx, a := TxRun(p, m, n + 1), p(TxRun(p, m, n).trace).a; a in tx.loaded || a in tx.stored
  {
  }

  /** Everything a section has touched or is about to touch belongs to its bucket as it is linked now. */
  ghost predicate KeepsToBucket(s: Sys, t: nat)
    requires t < |s.m.threads| && Live(s.m.threads[t]) && |s.chains| > 0
  {
    var ph := s.m.threads[t];
    var act := ph.sec.next(TraceOf(ph));
    && 0 <= ph.sec.lock < |s.chains|
    && (forall a :: a in Footprint(ph) ==> InBucket(a, ph.sec.lock, s.chains[ph.sec.lock]))
    && (!act.Done? ==> InBucket(act.a, ph.sec.lock, s.chains[ph.sec.lock]))
  }

  lemma LiveInBucket(cfg: Config, init: Mem, pool: set<int>, s: Sys, t: nat)
    requires cfg.Discipline() != Mixed && SysInv(cfg, init, pool, s) && t < |s.m.threads| && Live(s.m.threads[t])
    ensures KeepsToBucket(s, t)
  {
    var ph, base := s.m.threads[t], Base(init, s);
    assert JobOk(|s.chains|, base, s.jobs[t], ph);
    var op, n := s.jobs[t].op, |TraceOf(ph)|;
    var h := Bucket(op.v, |s.chains|);
    assert BucketOk(base, |s.chains|, h, s.chains[h]);
    LiveOnBase(cfg, init, s.m, t);
    OpTouches(base, op, h, s.chains[h], n);
    if !ph.sec.next(TraceOf(ph)).Done? {
      NextTouched(ph.sec.next, base, n);
      OpTouches(base, op, h, s.chains[h], n + 1);
    }
  }

  // ---------- safe reclamation ----------

  predicate OfItem(a: Addr, x: int) {
    (a.Data? || a.Succ?) && a.node == x
  }

  /**
   Safe reclamation.  In every reachable state, no section in progress, elided or locked,
   has touched or is about to touch an item that is free or that a thread has in its hands:
   one still being built, or one unlinked and waiting to be deleted.
   */
  lemma SafeReclamation(cfg: Config, init: Mem, size: nat, pool: set<int>, s: Sys, t: nat, x: int)
    requires Reachable(cfg, init, size, pool, s)
    requires t < |s.m.threads| && Live(s.m.threads[t]) && x != 0 && (x in s.free || Held(s.jobs, x))
    ensures var ph := s.m.threads[t];
      && (forall a :: a in Footprint(ph) ==> !OfItem(a, x))
      && (var act := ph.sec.next(TraceOf(ph)); !act.Done? ==> !OfItem(act.a, x))
  {
    ReachableInv(cfg, init, size, pool, s);
    LiveInBucket(cfg, init, pool, s, t);
    assert Unlinked(s.chains, x);
  }

  // ---------- nothing is held back ----------

  /** Sections under different bucket locks never meet in a word. */
  lemma NeverMet(cfg: Config, init: Mem, pool: set<int>, s: Sys, t: nat)
    requires cfg.Discipline() != Mixed && SysInv(cfg, init, pool, s) && t < |s.m.threads| && Live(s.m.threads[t])
    ensures InRegion(cfg, s.m, t)
  {
    var ph := s.m.threads[t];
    LiveInBucket(cfg, init, pool, s, t);
    var act := ph.sec.next(TraceOf(ph));
    forall u | 0 <= u < |s.m.threads| && u != t && !act.Done?
      ensures !Foreign(s.m.threads[u], ph.sec.lock, act.a)
    {
      if Live(s.m.threads[u]) {
        LiveInBucket(cfg, init, pool, s, u);
      }
    }
  }

  /** A word of an item that is not linked is in no section's use. */
  lemma StoreUnused(cfg: Config, init: Mem, pool: set<int>, s: Sys, a: Addr)
    requires cfg.Discipline() != Mixed && SysInv(cfg, init, pool, s)
    requires (a.Data? || a.Succ?) && Unlinked(s.chains, a.node)
    ensures Unused(s.m, a)
  {
    forall u | 0 <= u < |s.m.threads| && s.m.threads[u].Hold?
      ensures a !in s.m.threads[u].touched
    {
      LiveInBucket(cfg, init, pool, s, u);
      assert Footprint(s.m.threads[u]) == s.m.threads[u].touched;
    }
  }

  lemma StoringGoes(cfg: Config, init: Mem, pool: set<int>, s: Sys, act: Act)
    requires cfg.Discipline() != Mixed && SysInv(cfg, init, pool, s) && Wants(cfg, s, act) && Storing(act)
    ensures CanAct(cfg, s, act)
  {
    assert JobOk(|s.chains|, Base(init, s), s.jobs[act.t], s.m.threads[act.t]);
    StoredItem(cfg, init, pool, s, act);
    StoreUnused(cfg, init, pool, s, EventOf(cfg, s, act).a);
  }

  predicate InSection(m: State, t: nat) {
    t < |m.threads| && Live(m.threads[t]) && !m.threads[t].sec.next(TraceOf(m.threads[t])).Done?
  }

  lemma AccessGoes(cfg: Config, init: Mem, pool: set<int>, s: Sys, t: nat)
    requires cfg.Discipline() != Mixed && SysInv(cfg, init, pool, s) && InSection(s.m, t)
    ensures CanAct(cfg, s, Inner(t, Access(t)))
  {
    assert JobOk(|s.chains|, Base(init, s), s.jobs[t], s.m.threads[t]);
    NeverMet(cfg, init, pool, s, t);
  }

  /**
   The conditions of the machine cost the map nothing: whatever a thread wants to store to
   an item it builds, or the allocator to a free one, it may store at once; and the next
   access of a section is always allowed.
   */
  lemma NothingHeldBack(cfg: Config, init: Mem, size: nat, pool: set<int>, s: Sys, act: Act)
    requires Reachable(cfg, init, size, pool, s)
    requires (Wants(cfg, s, act) && Storing(act)) || (InSection(s.m, act.t) && act == Inner(act.t, Access(act.t)))
    ensures CanAct(cfg, s, act)
  {
    ReachableInv(cfg, init, size, pool, s);
    if Storing(act) {
      StoringGoes(cfg, init, pool, s, act);
    } else {
      AccessGoes(cfg, init, pool, s, act.t);
    }
  }

  // ---------- the map is a set ----------

  /** With no lock held, memory itself is the map, not only what the completed sections have built. */
  lemma AtRest(cfg: Config, init: Mem, pool: set<int>, s: Sys)
    requires cfg.Discipline() != Mixed && SysInv(cfg, init, pool, s) && s.m.locked == {}
    ensures MapOk(s.m.mem, s.chains) && Represents(s.m.mem, s.chains, Replay(s.answers))
  {
    forall a
      ensures Get(s.m.mem, a) == Get(Base(init, s), a)
    {
      assert Unused(s.m, a);
    }
    MapKept(Base(init, s), s.m.mem, s.chains, Replay(s.answers));
  }

  /**
   The concurrent map refines a set.  In every reachable state the answers so far are those
   of the set operations one after the other in the order of completion; whenever no lock
   is held, memory holds exactly the values of that set, each once, in the bucket of its hash.
   */
  lemma MapRefinesSet(cfg: Config, init: Mem, size: nat, pool: set<int>, s: Sys)
    requires Reachable(cfg, init, size, pool, s)
    ensures AnswersOk(s.answers)
    ensures MapOk(Base(init, s), s.chains) && Represents(Base(init, s), s.chains, Replay(s.answers))
    ensures s.m.locked == {} ==> MapOk(s.m.mem, s.chains) && Represents(s.m.mem, s.chains, Replay(s.answers))
  {
    ReachableInv(cfg, init, size, pool, s);
    if s.m.locked == {} {
      AtRest(cfg, init, pool, s);
    }
  }

  /** The number of places an item is in. */
  ghost function Places(s: Sys, x: int): nat {
    (if x in s.free then 1 else 0) + (if Unlinked(s.chains, x) then 0 else 1) + (if Held(s.jobs, x) then 1 else 0)
  }

  /**
   Conservation of items: in every reachable state each item of the pool is free, linked or in
   hand, never two of these; no two threads hold the same; and nothing else is ever linked.
   So an item built for an insert is linked once or deleted once, and none is deleted twice.
   */
  lemma EveryItemInOnePlace(cfg: Config, init: Mem, size: nat, pool: set<int>, s: Sys, x: int)
    requires Reachable(cfg, init, size, pool, s) && x != 0
    ensures Places(s, x) == if x in pool then 1 else 0
    ensures forall t, u :: 0 <= t < u < |s.jobs| ==> !(Holding(s.jobs[t]) == x && Holding(s.jobs[u]) == x)
  {
    ReachableInv(cfg, init, size, pool, s);
    if Held(s.jobs, x) {
      var t :| 0 <= t < |s.jobs| && Holding(s.jobs[t]) == x;
      assert Unlinked(s.chains, Holding(s.jobs[t]));
    }
  }

  /** On its bucket, a complete insert leaves the value at the item found, or else at the new one. */
  lemma InsertPlace(base: Mem, size: nat, op: Op, h: int, c: seq<int>)
    requires op.Insert? && size > 0 && BucketOk(base, size, h, c) && Ready(base, op, c)
    ensures var item := Nth(c, Found(base, c, op.v));
      var returned := if item != 0 then item else op.node;
      returned in NewChain(base, op, c) && Get(base + OpStores(base, op, h, c), Data(returned)) == op.v
  {
    var k := Found(base, c, op.v);
    StoresAreLinks(base, op, h, c);
    if k < |c| {
      ChainPositive(base, Head(h), c, k);
    }
  }

  lemma InsertReady(cfg: Config, init: Mem, pool: set<int>, s: Sys, t: nat, h: int)
    requires SysInv(cfg, init, pool, s) && t < |s.jobs| && s.jobs[t].Doing? && s.jobs[t].op.Insert?
    requires h == Bucket(s.jobs[t].op.v, |s.chains|)
    ensures BucketOk(Base(init, s), |s.chains|, h, s.chains[h]) && Ready(Base(init, s), s.jobs[t].op, s.chains[h])
  {
    assert JobOk(|s.chains|, Base(init, s), s.jobs[t], s.m.threads[t]);
    assert Holding(s.jobs[t]) == s.jobs[t].op.node;
  }

  lemma InsertLinks(cfg: Config, init: Mem, pool: set<int>, s: Sys, t: nat, h: int, returned: int)
    requires cfg.Discipline() != Mixed && SysInv(cfg, init, pool, s) && CanAct(cfg, s, Complete(t)) && s.jobs[t].op.Insert?
    requires h == Bucket(s.jobs[t].op.v, |s.chains|)
    requires var op := s.jobs[t].op; var item := ItemOf(op, h, TraceOf(s.m.threads[t]));
      returned == if item != 0 then item else op.node
    ensures var s' := DoAct(cfg, init, s, Complete(t));
      returned in s'.chains[h] && Get(Base(init, s'), Data(returned)) == s.jobs[t].op.v
  {
    InsertReady(cfg, init, pool, s, t, h);
    CompleteStores(cfg, init, pool, s, t, s.jobs[t].op, h);
    InsertPlace(Base(init, s), |s.chains|, s.jobs[t].op, h, s.chains[h]);
  }

  /** The pointer an insert returns is a linked item that holds the value. */
  lemma InsertReturnsLinked(cfg: Config, init: Mem, size: nat, pool: set<int>, s: Sys, t: nat)
    requires Reachable(cfg, init, size, pool, s)
    requires CanAct(cfg, s, Complete(t)) && s.jobs[t].op.Insert?
    ensures var s', op, h := DoAct(cfg, init, s, Complete(t)), s.jobs[t].op, Bucket(s.jobs[t].op.v, |s.chains|);
      var item := ItemOf(op, h, TraceOf(s.m.threads[t]));
      var returned := if item != 0 then item else op.node;
      returned in s'.chains[h] && Get(Base(init, s'), Data(returned)) == op.v
  {
    ReachableInv(cfg, init, size, pool, s);
    var op, h := s.jobs[t].op, Bucket(s.jobs[t].op.v, |s.chains|);
    var item := ItemOf(op, h, TraceOf(s.m.threads[t]));
    InsertLinks(cfg, init, pool, s, t, h, if item != 0 then item else op.node);
  }

  /** The next act of a thread that is entering or inside a section. */
  function NextInSection(s: Sys, t: nat): Act
    requires t < |s.m.threads|
  {
    var ph := s.m.threads[t];
    match ph
    case Begin(_, _, _) => Inner(t, XBegin(t))
    case Test(_, _) => Inner(t, ReadWord(t))
    case Acquire(_, _) => Inner(t, TryExchange(t))
    case Spin(_, _) => Inner(t, SpinLoad(t))
    case _ => if Live(ph) && ph.sec.next(TraceOf(ph)).Done? then Complete(t) else Inner(t, Access(t))
  }

  lemma SectionGoes(cfg: Config, init: Mem, pool: set<int>, s: Sys, t: nat)
    requires cfg.Discipline() != Mixed && SysInv(cfg, init, pool, s) && t < |s.jobs| && s.jobs[t].Doing?
    ensures CanAct(cfg, s, NextInSection(s, t))
  {
    assert JobOk(|s.chains|, Base(init, s), s.jobs[t], s.m.threads[t]);
    if InSection(s.m, t) {
      AccessGoes(cfg, init, pool, s, t);
    }
  }

  function NextAct(s: Sys, t: nat, how: How): Act
    requires t < |s.jobs| && |s.jobs| == |s.m.threads|
  {
    match s.jobs[t]
    case Rest => Start(t, Contains(0), how)
    case Fill(_, _) => SetData(t)
    case Clear(_, _) => SetSucc(t)
    case Link(_, _) => Attempt(t, how)
    case Doing(_) => NextInSection(s, t)
    case Deleting(_) => Delete(t)
  }

  /** The thread reads a lock word that is 1, and will read it again. */
  predicate Spinning(s: Sys, t: nat) {
    t < |s.m.threads| && s.m.threads[t].Spin? && s.m.threads[t].sec.lock in s.m.locked
  }

  /** The step of a thread that has a section to get through changes where it stands. */
  lemma SectionMoves(cfg: Config, init: Mem, s: Sys, t: nat)
    requires t < |s.jobs| == |s.m.threads| && s.jobs[t].Doing? && CanAct(cfg, s, NextInSection(s, t)) && !Spinning(s, t)
    requires Paired(s.m.threads[t])
    ensures DoAct(cfg, init, s, NextInSection(s, t)) != s
  {
    var act := NextInSection(s, t);
    var s' := DoAct(cfg, init, s, act);
    if act.Complete? {
      assert !s'.jobs[t].Doing?;
    } else {
      assert s'.m.threads[t] != s.m.threads[t];
    }
  }

  /** Somebody owns the lock, and its next act changes the state. */
  ghost predicate OwnerMoves(cfg: Config, init: Mem, s: Sys, lock: int) {
    exists u: nat :: OnlyOwner(s.m, u) && s.m.threads[u].sec.lock == lock && Moves(cfg, init, s, NextInSection(s, u))
  }

  ghost predicate Moves(cfg: Config, init: Mem, s: Sys, act: Act) {
    CanAct(cfg, s, act) && DoAct(cfg, init, s, act) != s
  }

  lemma SpinnerHasOwner(cfg: Config, init: Mem, pool: set<int>, s: Sys, t: nat)
    requires cfg.Discipline() != Mixed && SysInv(cfg, init, pool, s) && Owned(s.m) && Spinning(s, t)
    ensures OwnerMoves(cfg, init, s, s.m.threads[t].sec.lock)
  {
    var lock := s.m.threads[t].sec.lock;
    assert HasHolder(s.m, lock);
    var u: nat :| u < |s.m.threads| && s.m.threads[u].Hold? && s.m.threads[u].sec.lock == lock;
    assert JobOk(|s.chains|, Base(init, s), s.jobs[u], s.m.threads[u]) && PhaseOk(cfg, s.m.threads[u]);
    SectionGoes(cfg, init, pool, s, u);
    SectionMoves(cfg, init, s, u);
    assert OnlyOwner(s.m, u);
  }

  lemma OutsideMoves(cfg: Config, init: Mem, s: Sys, t: nat, how: How)
    requires t < |s.jobs| && |s.jobs| == |s.m.threads| && !s.jobs[t].Doing? && CanAct(cfg, s, NextAct(s, t, how))
    ensures DoAct(cfg, init, s, NextAct(s, t, how)) != s
  {
    assert DoAct(cfg, init, s, NextAct(s, t, how)).jobs[t] != s.jobs[t];
  }

  /**
   No thread is ever stuck.  Each has an act it can do now, and the act changes the state;
   only a thread that spins on a taken lock may leave it as it is, and then exactly one
   thread owns that lock and has an act that changes the state.
   */
  lemma NeverStuck(cfg: Config, init: Mem, size: nat, pool: set<int>, s: Sys, t: nat, how: How)
    requires Reachable(cfg, init, size, pool, s) && how in cfg.allowed && t < |s.jobs|
    ensures |s.jobs| == |s.m.threads| && NextAct(s, t, how).t == t && CanAct(cfg, s, NextAct(s, t, how))
    ensures if Spinning(s, t) then OwnerMoves(cfg, init, s, s.m.threads[t].sec.lock)
            else DoAct(cfg, init, s, NextAct(s, t, how)) != s
  {
    ReachableInv(cfg, init, size, pool, s);
    ReachableOwned(cfg, init, size, pool, s);
    NextGoes(cfg, init, pool, s, t, how);
    if Spinning(s, t) {
      SpinnerHasOwner(cfg, init, pool, s, t);
    } else if s.jobs[t].Doing? {
      assert PhaseOk(cfg, s.m.threads[t]);
      SectionMoves(cfg, init, s, t);
    } else {
      OutsideMoves(cfg, init, s, t, how);
    }
  }

  lemma NextGoes(cfg: Config, init: Mem, pool: set<int>, s: Sys, t: nat, how: How)
    requires cfg.Discipline() != Mixed && SysInv(cfg, init, pool, s) && how in cfg.allowed && t < |s.jobs|
    ensures CanAct(cfg, s, NextAct(s, t, how)) && NextAct(s, t, how).t == t
  {
    assert JobOk(|s.chains|, Base(init, s), s.jobs[t], s.m.threads[t]);
    var act := NextAct(s, t, how);
    if s.jobs[t].Doing? {
      SectionGoes(cfg, init, pool, s, t);
    } else if Storing(act) {
      StoringGoes(cfg, init, pool, s, act);
    }
  }

  /** A thread at rest may make any call with a value that is not negative, an insert with any free item. */
  lemma AnyCallCanStart(cfg: Config, init: Mem, size: nat, pool: set<int>, s: Sys, t: nat, v: nat, how: How, node: int)
    requires Reachable(cfg, init, size, pool, s) && t < |s.jobs| && s.jobs[t].Rest? && how in cfg.allowed
    ensures CanAct(cfg, s, Start(t, Remove(v), how)) && CanAct(cfg, s, Start(t, Contains(v), how))
    ensures node in s.free ==> CanAct(cfg, s, New(t, v, node))
  {
    ReachableInv(cfg, init, size, pool, s);
    assert JobOk(|s.chains|, Base(init, s), s.jobs[t], s.m.threads[t]);
  }

  // ---------- counting at rest ----------

  /** In every reachable state with no lock held, counting the elements gives the size of the set. */
  method CountAtRest(ghost cfg: Config, ghost init: Mem, size: nat, ghost pool: set<int>, s: Sys) returns (count: nat)
    requires Reachable(cfg, init, size, pool, s) && s.m.locked == {}
    ensures count == |Replay(s.answers)|
  {
    ReachableInv(cfg, init, size, pool, s);
    ReachableOwned(cfg, init, size, pool, s);
    AtRest(cfg, init, pool, s);
    count := CountElements(s.m.mem, size, s.chains, Replay(s.answers));
  }
}
