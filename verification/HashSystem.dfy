/**
 Threads using the hash map: an insert builds its item before it enters the section of the
 bucket, a section runs elided or under the lock of the bucket, and an item that was not
 linked or has been unlinked is deleted after the section.  The same steps serve the map
 with one lock per bucket and the map on bare transactions.
 */
module HashSystem {
  import opened Sections
  import opened Elision
  import opened Serializability
  import opened HashPrograms
  import opened HashBuckets

  /** What a thread is about. */
  datatype Job =
    | Rest
    | Fill(v: int, node: int)     // item allocated, nothing written yet
    | Clear(v: int, node: int)    // value written
    | Link(v: int, node: int)     // successor written too: the item is built
    | Doing(op: Op)               // in the lock function or in the section
    | Deleting(node: int)         // section over, one item to delete

  /** The answer an operation gave: had it found the value? */
  datatype Answer = Answer(thread: nat, op: Op, found: bool)

  /** `chains` lists the items linked in each bucket; `answers` is in order of completion. */
  datatype Sys = Sys(m: State, jobs: seq<Job>, free: set<int>, chains: seq<seq<int>>, answers: seq<Answer>)

  datatype Act =
    | New(t: nat, v: int, node: int)
    | SetData(t: nat)
    | SetSucc(t: nat)
    | Attempt(t: nat, how: How)
    | Start(t: nat, op: Op, how: How)
    | Inner(t: nat, e: Event)
    | Complete(t: nat)
    | Delete(t: nat)
    | Scribble(t: nat, a: Addr, v: int)   // the allocator uses the memory of a free item

  /** Events between entering a section and its end. */
  predicate InnerEvent(e: Event) {
    e.XBegin? || e.ReadWord? || e.Access? || e.Abort? || e.TryExchange? || e.SpinLoad?
  }

  predicate OfFree(s: Sys, a: Addr) {
    (a.Data? || a.Succ?) && a.node in s.free
  }

  /** What the client asks for, before the machine is asked. */
  predicate Wants(cfg: Config, s: Sys, act: Act) {
    && |s.chains| > 0 && |s.jobs| == |s.m.threads| && act.t < |s.jobs|
    && var job := s.jobs[act.t];
       match act
       case New(_, v, node) => job.Rest? && node in s.free && v >= 0
       case SetData(_) => job.Fill?
       case SetSucc(_) => job.Clear?
       case Attempt(_, how) => job.Link? && how in cfg.allowed
       case Start(_, op, how) => job.Rest? && !op.Insert? && op.v >= 0 && how in cfg.allowed
       case Inner(t, e) => job.Doing? && InnerEvent(e) && e.t == t
       case Complete(t) => job.Doing? && Live(s.m.threads[t])
       case Delete(_) => job.Deleting?
       case Scribble(_, a, _) => (job.Rest? || job.Deleting?) && OfFree(s, a)
  }

  predicate Silent(act: Act) {
    act.New? || act.Delete?
  }

  /** The event of the machine that an act is. */
  function EventOf(cfg: Config, s: Sys, act: Act): Event
    requires Wants(cfg, s, act) && !Silent(act)
  {
    var job := s.jobs[act.t];
    match act
    case SetData(t) => PlainStore(t, Data(job.node), job.v)
    case SetSucc(t) => PlainStore(t, Succ(job.node), 0)
    case Attempt(t, how) => Enter(t, SectionOf(Insert(job.v, job.node), |s.chains|), how)
    case Start(t, op, how) => Enter(t, SectionOf(op, |s.chains|), how)
    case Inner(_, e) => e
    case Complete(t) => Unlock(t)
    case Scribble(t, a, v) => PlainStore(t, a, v)
  }

  predicate CanAct(cfg: Config, s: Sys, act: Act) {
    Wants(cfg, s, act) && (Silent(act) || Enabled(cfg, s.m, EventOf(cfg, s, act)))
  }

  /** What is left to do after a section: an item not linked, or one unlinked. */
  function Leftover(op: Op, item: int): Job {
    if item == 0 then Rest
    else
      match op
      case Insert(_, node) => Deleting(node)
      case Remove(_) => Deleting(item)
      case Contains(_) => Rest
  }

  function NextJob(s: Sys, act: Act): Job
    requires |s.chains| > 0 && act.t < |s.jobs| && |s.jobs| == |s.m.threads|
  {
    var job := s.jobs[act.t];
    match act
    case New(_, v, node) => Fill(v, node)
    case SetData(_) => if job.Fill? then Clear(job.v, job.node) else job
    case SetSucc(_) => if job.Clear? then Link(job.v, job.node) else job
    case Attempt(_, _) => if job.Link? then Doing(Insert(job.v, job.node)) else job
    case Start(_, op, _) => Doing(op)
    case Inner(_, _) => job
    case Complete(t) =>
      if job.Doing? && Live(s.m.threads[t])
      then Leftover(job.op, ItemOf(job.op, Bucket(job.op.v, |s.chains|), TraceOf(s.m.threads[t])))
      else job
    case Delete(_) => Rest
    case Scribble(_, _, _) => job
  }

  /** Memory as the completed sections have built it. */
  function Base(init: Mem, s: Sys): Mem {
    Serial(init, s.m.log)
  }

  function DoAct(cfg: Config, init: Mem, s: Sys, act: Act): Sys
    requires CanAct(cfg, s, act)
  {
    var job := s.jobs[act.t];
    var jobs' := s.jobs[act.t := NextJob(s, act)];
    var m' := if Silent(act) then s.m else Do(cfg, s.m, EventOf(cfg, s, act));
    match act
    case New(_, _, node) => s.(jobs := jobs', free := s.free - {node})
    case Delete(_) => s.(jobs := jobs', free := s.free + {job.node})
    case Complete(t) =>
      var op, h := job.op, Bucket(job.op.v, |s.chains|);
      Sys(m', jobs', s.free, s.chains[h := NewChain(Base(init, s), op, s.chains[h])],
          s.answers + [Answer(t, op, ItemOf(op, h, TraceOf(s.m.threads[t])) != 0)])
    case _ => s.(m := m', jobs := jobs')
  }

  /** The state after a sequence of acts on an empty map; an act that cannot happen does not. */
  function Run(cfg: Config, init: Mem, n: nat, size: nat, pool: set<int>, acts: seq<Act>): Sys
  {
    if acts == [] then Sys(State(init, {}, seq(n, _ => Idle), []), seq(n, _ => Rest), pool, seq(size, _ => []), [])
    else
      var s := Run(cfg, init, n, size, pool, acts[..|acts| - 1]);
      var act := acts[|acts| - 1];
      if CanAct(cfg, s, act) then DoAct(cfg, init, s, act) else s
  }

  // ---------- the set ----------

  /** The set after the operations, one after the other. */
  function Replay(answers: seq<Answer>): set<int>
  {
    if answers == [] then {} else NewSet(Replay(answers[..|answers| - 1]), answers[|answers| - 1].op)
  }

  /** Each operation answered as the set does at its turn. */
  predicate AnswersOk(answers: seq<Answer>) {
    forall i {:trigger AnswerAt(answers, i)} :: 0 <= i < |answers| ==> AnswerAt(answers, i)
  }

  predicate AnswerAt(answers: seq<Answer>, i: nat)
    requires i < |answers|
  {
    answers[i].found <==> answers[i].op.v in Replay(answers[..i])
  }

  lemma AnswersPush(answers: seq<Answer>, a: Answer)
    requires AnswersOk(answers) && (a.found <==> a.op.v in Replay(answers))
    ensures AnswersOk(answers + [a]) && Replay(answers + [a]) == NewSet(Replay(answers), a.op)
  {
    var answers' := answers + [a];
    assert answers'[..|answers|] == answers;
    forall i | 0 <= i < |answers'|
      ensures AnswerAt(answers', i)
    {
      if i < |answers| {
        assert answers'[..i] == answers[..i];
        assert AnswerAt(answers, i);
      }
    }
  }

  // ---------- where items are ----------

  /** The item a thread has in its hands, or 0. */
  function Holding(job: Job): int {
    match job
    case Fill(_, node) => node
    case Clear(_, node) => node
    case Link(_, node) => node
    case Doing(op) => if op.Insert? then op.node else 0
    case Deleting(node) => node
    case Rest => 0
  }

  predicate Held(jobs: seq<Job>, x: int) {
    exists t :: 0 <= t < |jobs| && Holding(jobs[t]) == x
  }

  /** Every item of the pool is free, linked, or in the hands of one thread: in exactly one of these places. */
  ghost predicate ItemsOk(pool: set<int>, free: set<int>, jobs: seq<Job>, chains: seq<seq<int>>) {
    && (forall x :: x in pool ==> x > 0)
    && (forall x :: x in pool <==> x in free || !Unlinked(chains, x) || (x != 0 && Held(jobs, x)))
    && (forall x :: x in free ==> Unlinked(chains, x) && !Held(jobs, x))
    && (forall t :: 0 <= t < |jobs| && Holding(jobs[t]) != 0 ==> Unlinked(chains, Holding(jobs[t])))
    && (forall t, u :: 0 <= t < u < |jobs| && Holding(jobs[t]) != 0 ==> Holding(jobs[t]) != Holding(jobs[u]))
  }

  // ---------- invariant ----------

  /** The item holds the value and leads nowhere. */
  predicate Built(m: Mem, node: int, v: int) {
    Get(m, Data(node)) == v && Get(m, Succ(node)) == 0
  }

  ghost predicate JobOk(size: nat, base: Mem, job: Job, ph: Phase)
    requires size > 0
  {
    match job
    case Rest => ph.Idle?
    case Fill(v, node) => ph.Idle? && v >= 0 && node > 0
    case Clear(v, node) => ph.Idle? && v >= 0 && node > 0 && Get(base, Data(node)) == v
    case Link(v, node) => ph.Idle? && v >= 0 && node > 0 && Built(base, node, v)
    case Doing(op) =>
      && !ph.Idle? && ph.sec == SectionOf(op, size) && op.v >= 0
      && (op.Insert? ==> op.node > 0 && Built(base, op.node, op.v))
    case Deleting(node) => ph.Idle? && node > 0
  }

  ghost predicate JobsOk(base: Mem, s: Sys) {
    && |s.chains| > 0 && |s.jobs| == |s.m.threads|
    && forall t :: 0 <= t < |s.jobs| ==> JobOk(|s.chains|, base, s.jobs[t], s.m.threads[t])
  }

  ghost predicate SysInv(cfg: Config, init: Mem, pool: set<int>, s: Sys) {
    && Inv(cfg, init, s.m)
    && JobsOk(Base(init, s), s)
    && MapOk(Base(init, s), s.chains)
    && Represents(Base(init, s), s.chains, Replay(s.answers))
    && AnswersOk(s.answers)
    && ItemsOk(pool, s.free, s.jobs, s.chains)
  }
}
