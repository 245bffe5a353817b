/**
 Every run of threads on the hash map: the map is a set whose operations take effect one at
 a time, no item is lost or in two places, and no section ever touches an item that is free
 or in the hands of another thread.
 */
module HashRuns {
  import opened Sections
  import opened Elision
  import opened Serializability
  import opened HashPrograms
  import opened HashBuckets
  import opened HashSystem

  // ---------- items moving between places ----------

  lemma HeldChange(jobs: seq<Job>, t: nat, job: Job, x: int)
    requires t < |jobs|
    ensures Held(jobs[t := job], x) ==> Held(jobs, x) || Holding(job) == x
    ensures Holding(job) == x ==> Held(jobs[t := job], x)
    ensures Held(jobs, x) && Holding(jobs[t]) != x ==> Held(jobs[t := job], x)
  {
    var jobs' := jobs[t := job];
    if Held(jobs', x) {
      var u :| 0 <= u < |jobs'| && Holding(jobs'[u]) == x;
      assert u != t ==> Holding(jobs[u]) == x;
    }
    if Holding(job) == x {
      assert Holding(jobs'[t]) == x;
    }
    if Held(jobs, x) && Holding(jobs[t]) != x {
      var u :| 0 <= u < |jobs| && Holding(jobs[u]) == x;
      assert Holding(jobs'[u]) == x;
    }
  }

  /** What thread `t` holds, nobody else does. */
  lemma HeldOnce(jobs: seq<Job>, t: nat, job: Job)
    requires t < |jobs| && Holding(jobs[t]) != 0 && Holding(job) != Holding(jobs[t])
    requires forall v, u :: 0 <= v < u < |jobs| && Holding(jobs[v]) != 0 ==> Holding(jobs[v]) != Holding(jobs[u])
    ensures !Held(jobs[t := job], Holding(jobs[t]))
  {
    var x, jobs' := Holding(jobs[t]), jobs[t := job];
    forall u | 0 <= u < |jobs'|
      ensures Holding(jobs'[u]) != x
    {
      if u < t { assert Holding(jobs[u]) != 0 ==> Holding(jobs[u]) != Holding(jobs[t]); }
      if t < u { assert Holding(jobs[t]) != Holding(jobs[u]); }
    }
  }

  lemma ItemsSame(pool: set<int>, free: set<int>, jobs: seq<Job>, chains: seq<seq<int>>, t: nat, job: Job)
    requires ItemsOk(pool, free, jobs, chains) && t < |jobs| && Holding(job) == Holding(jobs[t])
    ensures ItemsOk(pool, free, jobs[t := job], chains)
  {
    forall x
      ensures Held(jobs[t := job], x) <==> Held(jobs, x)
    {
      HeldChange(jobs, t, job, x);
      assert Holding(jobs[t]) == x ==> Held(jobs, x);
    }
  }

  lemma ItemsNew(pool: set<int>, free: set<int>, jobs: seq<Job>, chains: seq<seq<int>>, t: nat, job: Job)
    requires ItemsOk(pool, free, jobs, chains) && t < |jobs| && Holding(jobs[t]) == 0
    requires Holding(job) != 0 && Holding(job) in free
    ensures ItemsOk(pool, free - {Holding(job)}, jobs[t := job], chains)
  {
    var jobs', node := jobs[t := job], Holding(job);
    forall x
      ensures x != 0 ==> (Held(jobs', x) <==> Held(jobs, x) || x == node)
    {
      HeldChange(jobs, t, job, x);
    }
    forall u | 0 <= u < |jobs| && u != t
      ensures Holding(jobs'[u]) != node
    {
      assert !Held(jobs, node);
    }
  }

  lemma ItemsDelete(pool: set<int>, free: set<int>, jobs: seq<Job>, chains: seq<seq<int>>, t: nat)
    requires ItemsOk(pool, free, jobs, chains) && t < |jobs| && Holding(jobs[t]) != 0
    ensures ItemsOk(pool, free + {Holding(jobs[t])}, jobs[t := Rest], chains)
  {
    var jobs', node := jobs[t := Rest], Holding(jobs[t]);
    HeldOnce(jobs, t, Rest);
    assert Held(jobs, node);
    forall x
      ensures x != 0 && x != node ==> (Held(jobs', x) <==> Held(jobs, x))
    {
      HeldChange(jobs, t, Rest, x);
    }
  }

  /** Which items are linked after an operation. */
  lemma UnlinkedAfter(m: Mem, chains: seq<seq<int>>, op: Op, h: int, x: int)
    requires MapOk(m, chains) && 0 <= h < |chains|
    ensures var c := chains[h]; var k := Found(m, c, op.v);
      !Unlinked(chains[h := NewChain(m, op, c)], x) <==>
        match op
        case Insert(_, node) => !Unlinked(chains, x) || (k == |c| && x == node)
        case Remove(_) => !Unlinked(chains, x) && !(k < |c| && x == c[k])
        case Contains(_) => !Unlinked(chains, x)
  {
    var c := chains[h];
    var k, chains' := Found(m, c, op.v), chains[h := NewChain(m, op, c)];
    assert BucketOk(m, |chains|, h, c);
    NewChainMembers(m, op, c, x);
    if !Unlinked(chains, x) {
      var g :| 0 <= g < |chains| && x in chains[g];
      assert g != h ==> x in chains'[g];
      assert g == h && x in chains'[h] ==> !Unlinked(chains', x);
    }
    if !Unlinked(chains', x) {
      var g :| 0 <= g < |chains'| && x in chains'[g];
      assert g != h ==> x in chains[g];
    }
    if op.Insert? && k == |c| && x == op.node {
      assert x in chains'[h];
    }
  }

  /** A completed insert linked its item or still has it to delete. */
  lemma ItemsInsert(pool: set<int>, s: Sys, m: Mem, t: nat, h: int, job: Job)
    requires ItemsOk(pool, s.free, s.jobs, s.chains) && MapOk(m, s.chains) && 0 <= h < |s.chains|
    requires t < |s.jobs| && s.jobs[t].Doing? && s.jobs[t].op.Insert? && s.jobs[t].op.node != 0
    requires var c := s.chains[h]; var k := Found(m, c, s.jobs[t].op.v);
      job == if k < |c| then Deleting(s.jobs[t].op.node) else Rest
    ensures ItemsOk(pool, s.free, s.jobs[t := job], s.chains[h := NewChain(m, s.jobs[t].op, s.chains[h])])
  {
    var op, c := s.jobs[t].op, s.chains[h];
    var chains', jobs' := s.chains[h := NewChain(m, op, c)], s.jobs[t := job];
    forall x
      ensures !Unlinked(chains', x) <==> !Unlinked(s.chains, x) || (job == Rest && x == op.node)
    {
      UnlinkedAfter(m, s.chains, op, h, x);
    }
    if job == Rest {
      HeldOnce(s.jobs, t, Rest);
      assert Held(s.jobs, op.node);
      forall x
        ensures x != 0 && x != op.node ==> (Held(jobs', x) <==> Held(s.jobs, x))
      {
        HeldChange(s.jobs, t, Rest, x);
      }
      forall u | 0 <= u < |jobs'| && Holding(jobs'[u]) != 0
        ensures Unlinked(chains', Holding(jobs'[u]))
      {
        assert Holding(jobs'[u]) != op.node;
      }
    } else {
      ItemsSame(pool, s.free, s.jobs, s.chains, t, job);
    }
  }

  /** A completed remove has the item it unlinked to delete. */
  lemma ItemsRemove(pool: set<int>, s: Sys, m: Mem, t: nat, h: int)
    requires ItemsOk(pool, s.free, s.jobs, s.chains) && MapOk(m, s.chains) && 0 <= h < |s.chains|
    requires t < |s.jobs| && s.jobs[t].Doing? && s.jobs[t].op.Remove?
    requires var c := s.chains[h]; var k := Found(m, c, s.jobs[t].op.v); k < |c| && c[k] != 0
    ensures var c := s.chains[h]; var k := Found(m, c, s.jobs[t].op.v);
      ItemsOk(pool, s.free, s.jobs[t := Deleting(c[k])], s.chains[h := NewChain(m, s.jobs[t].op, c)])
  {
    var op, c := s.jobs[t].op, s.chains[h];
    var x := c[Found(m, c, op.v)];
    var chains', jobs' := s.chains[h := NewChain(m, op, c)], s.jobs[t := Deleting(x)];
    assert !Unlinked(s.chains, x);
    forall y
      ensures Unlinked(chains', y) <==> Unlinked(s.chains, y) || y == x
      ensures y != 0 ==> (Held(jobs', y) <==> Held(s.jobs, y) || y == x)
    {
      UnlinkedAfter(m, s.chains, op, h, y);
      HeldChange(s.jobs, t, Deleting(x), y);
    }
    forall u | 0 <= u < |jobs'| && u != t
      ensures Holding(jobs'[u]) != x
    {
      assert Holding(s.jobs[u]) != 0 ==> Unlinked(s.chains, Holding(s.jobs[u]));
    }
  }

  lemma ItemsComplete(pool: set<int>, s: Sys, m: Mem, t: nat, h: int, item: int)
    requires ItemsOk(pool, s.free, s.jobs, s.chains) && MapOk(m, s.chains) && 0 <= h < |s.chains|
    requires t < |s.jobs| && s.jobs[t].Doing? && (s.jobs[t].op.Insert? ==> s.jobs[t].op.node != 0)
    requires item == Nth(s.chains[h], Found(m, s.chains[h], s.jobs[t].op.v))
    ensures ItemsOk(pool, s.free, s.jobs[t := Leftover(s.jobs[t].op, item)],
                    s.chains[h := NewChain(m, s.jobs[t].op, s.chains[h])])
  {
    var op, c := s.jobs[t].op, s.chains[h];
    var k := Found(m, c, op.v);
    assert BucketOk(m, |s.chains|, h, c);
    if k < |c| {
      ChainPositive(m, Head(h), c, k);
    }
    if op.Insert? {
      ItemsInsert(pool, s, m, t, h, Leftover(op, item));
    } else if op.Remove? && k < |c| {
      ItemsRemove(pool, s, m, t, h);
    } else {
      assert s.chains[h := c] == s.chains;
      ItemsSame(pool, s.free, s.jobs, s.chains, t, Rest);
    }
  }

  // ---------- jobs ----------

  predicate SameItem(m: Mem, m': Mem, node: int) {
    Get(m', Data(node)) == Get(m, Data(node)) && Get(m', Succ(node)) == Get(m, Succ(node))
  }

  lemma OtherJob(size: nat, base: Mem, base': Mem, job: Job, ph: Phase, ph': Phase)
    requires size > 0 && JobOk(size, base, job, ph) && Kept(ph, ph')
    requires Holding(job) != 0 ==> SameItem(base, base', Holding(job))
    ensures JobOk(size, base', job, ph')
  {
  }

  /** The other threads keep their jobs as long as nobody writes to the items they hold. */
  lemma JobsStep(cfg: Config, init: Mem, s: Sys, act: Act, base: Mem, base': Mem)
    requires JobsOk(base, s) && CanAct(cfg, s, act) && !Silent(act)
    requires forall u :: 0 <= u < |s.jobs| && u != act.t && Holding(s.jobs[u]) != 0 ==>
      SameItem(base, base', Holding(s.jobs[u]))
    requires JobOk(|s.chains|, base', NextJob(s, act), Do(cfg, s.m, EventOf(cfg, s, act)).threads[act.t])
    ensures JobsOk(base', DoAct(cfg, init, s, act))
  {
    var e := EventOf(cfg, s, act);
    ActorMoved(cfg, s.m, e);
    var s' := DoAct(cfg, init, s, act);
    forall u | 0 <= u < |s.jobs|
      ensures JobOk(|s.chains|, base', s'.jobs[u], s'.m.threads[u])
    {
      if u != act.t {
        OthersKept(cfg, s.m, e, u);
        OtherJob(|s.chains|, base, base', s.jobs[u], s.m.threads[u], s'.m.threads[u]);
      }
    }
  }

  // ---------- acts that complete nothing ----------

  lemma InnerStays(cfg: Config, m: State, e: Event)
    requires Enabled(cfg, m, e) && (InnerEvent(e) || e.Enter?)
    ensures var m' := Do(cfg, m, e);
      && m'.log == m.log && |m'.threads| == |m.threads| && !m'.threads[e.t].Idle?
      && m'.threads[e.t].sec == if e.Enter? then e.sec else m.threads[e.t].sec
  {
  }

  lemma SilentStep(cfg: Config, init: Mem, pool: set<int>, s: Sys, act: Act)
    requires SysInv(cfg, init, pool, s) && CanAct(cfg, s, act) && Silent(act)
    ensures SysInv(cfg, init, pool, DoAct(cfg, init, s, act))
  {
    assert JobOk(|s.chains|, Base(init, s), s.jobs[act.t], s.m.threads[act.t]);
    if act.New? {
      ItemsNew(pool, s.free, s.jobs, s.chains, act.t, NextJob(s, act));
    } else {
      ItemsDelete(pool, s.free, s.jobs, s.chains, act.t);
    }
  }

  predicate Entering(act: Act) {
    act.Attempt? || act.Start? || act.Inner?
  }

  lemma EnteringStep(cfg: Config, init: Mem, pool: set<int>, s: Sys, act: Act)
    requires cfg.Discipline() != Mixed && SysInv(cfg, init, pool, s) && CanAct(cfg, s, act) && Entering(act)
    ensures SysInv(cfg, init, pool, DoAct(cfg, init, s, act))
  {
    var base, e := Base(init, s), EventOf(cfg, s, act);
    assert JobOk(|s.chains|, base, s.jobs[act.t], s.m.threads[act.t]);
    InvStep(cfg, init, s.m, e);
    InnerStays(cfg, s.m, e);
    JobsStep(cfg, init, s, act, base, base);
    ItemsSame(pool, s.free, s.jobs, s.chains, act.t, NextJob(s, act));
  }

  // ---------- stores to items not linked ----------

  predicate Storing(act: Act) {
    act.SetData? || act.SetSucc? || act.Scribble?
  }

  /** The item written to is linked nowhere and nobody else has it. */
  lemma StoredItem(cfg: Config, init: Mem, pool: set<int>, s: Sys, act: Act)
    requires SysInv(cfg, init, pool, s) && Wants(cfg, s, act) && Storing(act)
    ensures var a := EventOf(cfg, s, act).a;
      && (a.Data? || a.Succ?) && a.node > 0 && Unlinked(s.chains, a.node)
      && (act.Scribble? ==> Holding(s.jobs[act.t]) != a.node)
      && forall u :: 0 <= u < |s.jobs| && u != act.t ==> Holding(s.jobs[u]) != a.node
  {
    assert JobOk(|s.chains|, Base(init, s), s.jobs[act.t], s.m.threads[act.t]);
    var x := EventOf(cfg, s, act).a.node;
    if act.Scribble? {
      assert !Held(s.jobs, x);
    } else {
      forall u | 0 <= u < |s.jobs| && u != act.t
        ensures Holding(s.jobs[u]) != x
      {
        assert Holding(s.jobs[act.t]) == x;
      }
    }
  }

  lemma StorePhase(cfg: Config, m: State, t: nat, a: Addr, v: int)
    requires Enabled(cfg, m, PlainStore(t, a, v))
    ensures var m' := Do(cfg, m, PlainStore(t, a, v)); |m'.threads| == |m.threads| && m'.threads[t] == m.threads[t]
  {
  }

  lemma StoreBase(cfg: Config, init: Mem, m: State, t: nat, a: Addr, v: int)
    requires Enabled(cfg, m, PlainStore(t, a, v))
    ensures Serial(init, Do(cfg, m, PlainStore(t, a, v)).log) == Serial(init, m.log)[a := v]
  {
    var c := Completed(t, StoreSection(a, v), [v]);
    SerialPush(init, m.log, c);
    StoreAlone(Serial(init, m.log), a, v);
  }

  lemma StoringMap(base: Mem, s: Sys, a: Addr, v: int)
    requires MapOk(base, s.chains) && Represents(base, s.chains, Replay(s.answers))
    requires (a.Data? || a.Succ?) && Unlinked(s.chains, a.node)
    ensures MapOk(base[a := v], s.chains) && Represents(base[a := v], s.chains, Replay(s.answers))
  {
    MapKept(base, base[a := v], s.chains, Replay(s.answers));
  }

  /** The job of a thread that has stored to an item it holds, or to a free one. */
  lemma StoringJob(cfg: Config, s: Sys, act: Act, base: Mem)
    requires JobsOk(base, s) && Wants(cfg, s, act) && Storing(act)
    ensures var e := EventOf(cfg, s, act);
      && e == PlainStore(act.t, e.a, e.v) && Holding(NextJob(s, act)) == Holding(s.jobs[act.t])
      && (Holding(s.jobs[act.t]) != e.a.node || !act.Scribble? ==>
          JobOk(|s.chains|, base[e.a := e.v], NextJob(s, act), s.m.threads[act.t]))
  {
    assert JobOk(|s.chains|, base, s.jobs[act.t], s.m.threads[act.t]);
  }

  lemma StoringJobs(cfg: Config, init: Mem, s: Sys, act: Act, base: Mem)
    requires JobsOk(base, s) && CanAct(cfg, s, act) && Storing(act)
    requires var a := EventOf(cfg, s, act).a;
      && (a.Data? || a.Succ?) && (act.Scribble? ==> Holding(s.jobs[act.t]) != a.node)
      && forall u :: 0 <= u < |s.jobs| && u != act.t ==> Holding(s.jobs[u]) != a.node
    ensures var s', e := DoAct(cfg, init, s, act), EventOf(cfg, s, act); JobsOk(base[e.a := e.v], s')
  {
    var e := EventOf(cfg, s, act);
    StoringJob(cfg, s, act, base);
    StorePhase(cfg, s.m, act.t, e.a, e.v);
    JobsStep(cfg, init, s, act, base, base[e.a := e.v]);
  }

  lemma StoringStep(cfg: Config, init: Mem, pool: set<int>, s: Sys, act: Act)
    requires cfg.Discipline() != Mixed && SysInv(cfg, init, pool, s) && CanAct(cfg, s, act) && Storing(act)
    ensures SysInv(cfg, init, pool, DoAct(cfg, init, s, act))
  {
    var e, base := EventOf(cfg, s, act), Base(init, s);
    StoringJob(cfg, s, act, base);
    InvStep(cfg, init, s.m, e);
    StoredItem(cfg, init, pool, s, act);
    StoringJobs(cfg, init, s, act, base);
    StoreBase(cfg, init, s.m, act.t, e.a, e.v);
    StoringMap(base, s, e.a, e.v);
    ItemsSame(pool, s.free, s.jobs, s.chains, act.t, NextJob(s, act));
  }

  // ---------- sections completing ----------

  lemma LastExplained(init: Mem, log: seq<Completed>, c: Completed)
    requires LogExplained(init, log + [c])
    ensures Explains(Serial(init, log), c)
    ensures Serial(init, log + [c]) == Alone(c.sec.next, Serial(init, log), |c.trace|).mem
  {
    assert ExplainedAt(init, log + [c], |log|);
    assert (log + [c])[..|log|] == log;
    SerialPush(init, log, c);
  }

  lemma CompleteEvent(cfg: Config, init: Mem, s: Sys, t: nat)
    requires cfg.Discipline() != Mixed && Inv(cfg, init, s.m) && CanAct(cfg, s, Complete(t))
    ensures var ph, m' := s.m.threads[t], Do(cfg, s.m, Unlock(t));
      var c := Completed(t, ph.sec, TraceOf(ph));
      && Inv(cfg, init, m') && m'.log == s.m.log + [c] && |m'.threads| == |s.m.threads| && m'.threads[t] == Idle
      && Explains(Base(init, s), c)
      && Serial(init, m'.log) == Alone(c.sec.next, Base(init, s), |c.trace|).mem
  {
    var ph := s.m.threads[t];
    assert PhaseOk(cfg, ph);
    UnlockDoes(cfg, s.m, t);
    UnlockStep(cfg, init, s.m, t);
    LastExplained(init, s.m.log, Completed(t, ph.sec, TraceOf(ph)));
  }

  /** The memory a completed section leaves, and what it reports. */
  lemma CompleteStores(cfg: Config, init: Mem, pool: set<int>, s: Sys, t: nat, op: Op, h: int)
    requires cfg.Discipline() != Mixed && SysInv(cfg, init, pool, s) && CanAct(cfg, s, Complete(t))
    requires op == s.jobs[t].op && h == Bucket(op.v, |s.chains|)
    ensures var base := Base(init, s);
      Serial(init, Do(cfg, s.m, Unlock(t)).log) == base + OpStores(base, op, h, s.chains[h])
    ensures var item := ItemOf(op, h, TraceOf(s.m.threads[t]));
      && item == Nth(s.chains[h], Found(Base(init, s), s.chains[h], op.v))
      && (item != 0 <==> op.v in Replay(s.answers))
  {
    var base := Base(init, s);
    assert JobOk(|s.chains|, base, s.jobs[t], s.m.threads[t]);
    CompleteEvent(cfg, init, s, t);
    CompletedOp(base, s.chains, Replay(s.answers), op, h, Completed(t, s.m.threads[t].sec, TraceOf(s.m.threads[t])));
  }

  /** A section that completes is the set operation. */
  lemma CompleteMap(cfg: Config, init: Mem, pool: set<int>, s: Sys, t: nat, op: Op, h: int)
    requires SysInv(cfg, init, pool, s) && t < |s.jobs| && s.jobs[t].Doing?
    requires op == s.jobs[t].op && h == Bucket(op.v, |s.chains|)
    ensures var base, chains' := Base(init, s), s.chains[h := NewChain(Base(init, s), op, s.chains[h])];
      var base' := base + OpStores(base, op, h, s.chains[h]);
      MapOk(base', chains') && Represents(base', chains', NewSet(Replay(s.answers), op))
  {
    var base := Base(init, s);
    assert JobOk(|s.chains|, base, s.jobs[t], s.m.threads[t]);
    if op.Insert? {
      assert Holding(s.jobs[t]) == op.node;
    }
    MapAfter(base, s.chains, Replay(s.answers), op, h);
  }

  /** Links are written in linked items only. */
  lemma HeldItemsKept(base: Mem, s: Sys, op: Op, h: int, pool: set<int>)
    requires ItemsOk(pool, s.free, s.jobs, s.chains) && 0 <= h < |s.chains|
    ensures forall u :: 0 <= u < |s.jobs| && Holding(s.jobs[u]) != 0 ==>
      SameItem(base, base + OpStores(base, op, h, s.chains[h]), Holding(s.jobs[u]))
  {
    StoresAreLinks(base, op, h, s.chains[h]);
    forall u | 0 <= u < |s.jobs| && Holding(s.jobs[u]) != 0
      ensures SameItem(base, base + OpStores(base, op, h, s.chains[h]), Holding(s.jobs[u]))
    {
      assert Unlinked(s.chains, Holding(s.jobs[u]));
    }
  }

  /** What is left to do after the section is in order. */
  lemma LeftoverOk(size: nat, base: Mem, base': Mem, job: Job, ph: Phase, h: int, c: seq<int>, ph': Phase)
    requires size > 0 && job.Doing? && JobOk(size, base, job, ph) && BucketOk(base, size, h, c) && ph'.Idle?
    ensures JobOk(size, base', Leftover(job.op, Nth(c, Found(base, c, job.op.v))), ph')
  {
    var k := Found(base, c, job.op.v);
    if k < |c| {
      ChainPositive(base, Head(h), c, k);
    }
  }

  lemma CompleteJobs(cfg: Config, init: Mem, pool: set<int>, s: Sys, t: nat, op: Op, h: int, base': Mem)
    requires cfg.Discipline() != Mixed && SysInv(cfg, init, pool, s) && CanAct(cfg, s, Complete(t))
    requires op == s.jobs[t].op && h == Bucket(op.v, |s.chains|)
    requires base' == Base(init, s) + OpStores(Base(init, s), op, h, s.chains[h])
    ensures JobsOk(base', DoAct(cfg, init, s, Complete(t)))
  {
    var base := Base(init, s);
    assert JobOk(|s.chains|, base, s.jobs[t], s.m.threads[t]) && BucketOk(base, |s.chains|, h, s.chains[h]);
    CompleteStores(cfg, init, pool, s, t, op, h);
    CompleteEvent(cfg, init, s, t);
    HeldItemsKept(base, s, op, h, pool);
    LeftoverOk(|s.chains|, base, base', s.jobs[t], s.m.threads[t], h, s.chains[h], Do(cfg, s.m, Unlock(t)).threads[t]);
    JobsStep(cfg, init, s, Complete(t), base, base');
  }

  lemma CompleteStep(cfg: Config, init: Mem, pool: set<int>, s: Sys, t: nat)
    requires cfg.Discipline() != Mixed && SysInv(cfg, init, pool, s) && CanAct(cfg, s, Complete(t))
    ensures SysInv(cfg, init, pool, DoAct(cfg, init, s, Complete(t)))
  {
    var base, op, h := Base(init, s), s.jobs[t].op, Bucket(s.jobs[t].op.v, |s.chains|);
    var item := ItemOf(op, h, TraceOf(s.m.threads[t]));
    assert JobOk(|s.chains|, base, s.jobs[t], s.m.threads[t]);
    CompleteEvent(cfg, init, s, t);
    CompleteStores(cfg, init, pool, s, t, op, h);
    CompleteMap(cfg, init, pool, s, t, op, h);
    CompleteJobs(cfg, init, pool, s, t, op, h, base + OpStores(base, op, h, s.chains[h]));
    AnswersPush(s.answers, Answer(t, op, item != 0));
    ItemsComplete(pool, s, base, t, h, item);
  }

  // ---------- every run ----------

  lemma SysStep(cfg: Config, init: Mem, pool: set<int>, s: Sys, act: Act)
    requires cfg.Discipline() != Mixed && SysInv(cfg, init, pool, s) && CanAct(cfg, s, act)
    ensures SysInv(cfg, init, pool, DoAct(cfg, init, s, act))
  {
    if Silent(act) {
      SilentStep(cfg, init, pool, s, act);
    } else if Entering(act) {
      EnteringStep(cfg, init, pool, s, act);
    } else if Storing(act) {
      StoringStep(cfg, init, pool, s, act);
    } else {
      CompleteStep(cfg, init, pool, s, act.t);
    }
  }

  /** An empty map of at least one bucket, and a pool of items. */
  predicate Fresh(init: Mem, size: nat, pool: set<int>) {
    && size > 0 && (forall h :: 0 <= h < size ==> Get(init, Head(h)) == 0)
    && (forall x :: x in pool ==> x > 0)
  }

  lemma FreshInv(cfg: Config, init: Mem, n: nat, size: nat, pool: set<int>)
    requires Fresh(init, size, pool)
    ensures SysInv(cfg, init, pool, Run(cfg, init, n, size, pool, []))
  {
    var s := Run(cfg, init, n, size, pool, []);
    assert After(cfg, n, init, []) == s.m;
    forall h | 0 <= h < size
      ensures BucketOk(init, size, h, s.chains[h])
    {
    }
  }

  lemma {:induction false} RunKeeps(cfg: Config, init: Mem, n: nat, size: nat, pool: set<int>, acts: seq<Act>)
    requires cfg.Discipline() != Mixed && Fresh(init, size, pool)
    ensures SysInv(cfg, init, pool, Run(cfg, init, n, size, pool, acts))
  {
    if acts == [] {
      FreshInv(cfg, init, n, size, pool);
    } else {
      var s := Run(cfg, init, n, size, pool, acts[..|acts| - 1]);
      RunKeeps(cfg, init, n, size, pool, acts[..|acts| - 1]);
      if CanAct(cfg, s, acts[|acts| - 1]) {
        SysStep(cfg, init, pool, s, acts[|acts| - 1]);
      }
    }
  }

  /** A state of some run of some number of threads, from an empty map. */
  ghost predicate Reachable(cfg: Config, init: Mem, size: nat, pool: set<int>, s: Sys) {
    cfg.Discipline() != Mixed && Fresh(init, size, pool) && SomeRun(cfg, init, size, pool, s)
  }

  ghost predicate SomeRun(cfg: Config, init: Mem, size: nat, pool: set<int>, s: Sys) {
    exists n: nat, acts: seq<Act> :: s == Run(cfg, init, n, size, pool, acts)
  }

  lemma ReachableInv(cfg: Config, init: Mem, size: nat, pool: set<int>, s: Sys)
    requires Reachable(cfg, init, size, pool, s)
    ensures SysInv(cfg, init, pool, s)
  {
    var n: nat, acts: seq<Act> :| s == Run(cfg, init, n, size, pool, acts);
    RunKeeps(cfg, init, n, size, pool, acts);
  }

  lemma {:induction false} RunOwned(cfg: Config, init: Mem, n: nat, size: nat, pool: set<int>, acts: seq<Act>)
    ensures var s := Run(cfg, init, n, size, pool, acts); Owned(s.m) && AllPaired(s.m) && |s.chains| == size
  {
    if acts != [] {
      var s, act := Run(cfg, init, n, size, pool, acts[..|acts| - 1]), acts[|acts| - 1];
      RunOwned(cfg, init, n, size, pool, acts[..|acts| - 1]);
      if CanAct(cfg, s, act) && !Silent(act) {
        OwnedStep(cfg, s.m, EventOf(cfg, s, act));
        PairedStep(cfg, s.m, EventOf(cfg, s, act));
      }
    }
  }

  lemma ReachableOwned(cfg: Config, init: Mem, size: nat, pool: set<int>, s: Sys)
    requires Reachable(cfg, init, size, pool, s)
    ensures Owned(s.m) && |s.chains| == size
  {
    var n: nat, acts: seq<Act> :| s == Run(cfg, init, n, size, pool, acts);
    RunOwned(cfg, init, n, size, pool, acts);
  }
}
