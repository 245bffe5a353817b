/**
 What the callers of the hash map asked for, read off their calls alone, and that the map did
 just that: every thread's requests are answered in its own order, with the answers of a set,
 and at rest memory holds the set that the answered requests make.
 */
module HashOrder {
  import opened Sections
  import opened Elision
  import opened HashPrograms
  import opened HashBuckets
  import opened HashSystem
  import opened HashRuns
  import opened HashSafety

  /** A call, as its caller sees it. */
  datatype Request = ToInsert(v: int) | ToRemove(v: int) | ToFind(v: int)

  function RequestOf(op: Op): Request {
    match op
    case Insert(v, _) => ToInsert(v)
    case Remove(v) => ToRemove(v)
    case Contains(v) => ToFind(v)
  }

  /** The call an act begins, if it begins one. */
  function Asked(act: Act): seq<Request> {
    match act
    case New(_, v, _) => [ToInsert(v)]
    case Start(_, op, _) => [RequestOf(op)]
    case _ => []
  }

  /** The calls of thread `t` in a run, in order. */
  ghost function Requested(cfg: Config, init: Mem, n: nat, size: nat, pool: set<int>, acts: seq<Act>, t: nat): seq<Request>
  {
    if acts == [] then []
    else
      var before, act := acts[..|acts| - 1], acts[|acts| - 1];
      Requested(cfg, init, n, size, pool, before, t) +
      if act.t == t && CanAct(cfg, Run(cfg, init, n, size, pool, before), act) then Asked(act) else []
  }

  /** The calls of thread `t` that have been answered, in order. */
  function Answered(answers: seq<Answer>, t: nat): seq<Request>
  {
    if answers == [] then []
    else
      var k := |answers| - 1;
      Answered(answers[..k], t) + if answers[k].thread == t then [RequestOf(answers[k].op)] else []
  }

  /** The call a thread is about. */
  function About(job: Job): seq<Request> {
    match job
    case Fill(v, _) => [ToInsert(v)]
    case Clear(v, _) => [ToInsert(v)]
    case Link(v, _) => [ToInsert(v)]
    case Doing(op) => [RequestOf(op)]
    case _ => []
  }

  function AboutAt(s: Sys, t: nat): seq<Request> {
    if t < |s.jobs| then About(s.jobs[t]) else []
  }

  // ---------- program order ----------

  lemma AnsweredPush(answers: seq<Answer>, a: Answer, t: nat)
    ensures Answered(answers + [a], t) == Answered(answers, t) + if a.thread == t then [RequestOf(a.op)] else []
  {
    assert (answers + [a])[..|answers|] == answers;
  }

  /** One more answer, to the call its thread was about. */
  predicate Answers(s: Sys, s': Sys, t: nat, a: Answer) {
    && t < |s.jobs| == |s'.jobs| && s'.answers == s.answers + [a]
    && a.thread == t && s.jobs[t] == Doing(a.op) && About(s'.jobs[t]) == []
    && forall u :: 0 <= u < |s.jobs| && u != t ==> s'.jobs[u] == s.jobs[u]
  }

  lemma CompleteAnswers(cfg: Config, init: Mem, s: Sys, t: nat) returns (a: Answer)
    requires CanAct(cfg, s, Complete(t))
    ensures Answers(s, DoAct(cfg, init, s, Complete(t)), t, a)
  {
    var op := s.jobs[t].op;
    a := Answer(t, op, ItemOf(op, Bucket(op.v, |s.chains|), TraceOf(s.m.threads[t])) != 0);
  }

  /** No answer; the thread goes on with its call, or begins one. */
  predicate Continues(s: Sys, s': Sys, act: Act) {
    && act.t < |s.jobs| == |s'.jobs| && s'.answers == s.answers
    && About(s'.jobs[act.t]) == About(s.jobs[act.t]) + Asked(act)
    && forall u :: 0 <= u < |s.jobs| && u != act.t ==> s'.jobs[u] == s.jobs[u]
  }

  lemma ActContinues(cfg: Config, init: Mem, s: Sys, act: Act)
    requires CanAct(cfg, s, act) && !act.Complete?
    ensures Continues(s, DoAct(cfg, init, s, act), act)
  {
  }

  /** In order so far, with these calls asked by thread `t`. */
  predicate InOrderSoFar(s: Sys, t: nat, asked: seq<Request>) {
    Answered(s.answers, t) + AboutAt(s, t) == asked
  }

  lemma AnswersInOrder(s: Sys, s': Sys, u: nat, a: Answer, t: nat, asked: seq<Request>)
    requires Answers(s, s', u, a) && InOrderSoFar(s, t, asked)
    ensures InOrderSoFar(s', t, asked)
  {
    AnsweredPush(s.answers, a, t);
    if t == u {
      assert Answered(s'.answers, t) + [] == Answered(s'.answers, t);
    }
  }

  lemma ContinuesInOrder(s: Sys, s': Sys, act: Act, t: nat, asked: seq<Request>)
    requires Continues(s, s', act) && InOrderSoFar(s, t, asked)
    ensures InOrderSoFar(s', t, asked + if act.t == t then Asked(act) else [])
  {
    if act.t == t {
      assert Answered(s.answers, t) + (About(s.jobs[t]) + Asked(act)) == asked + Asked(act);
    }
  }

  /**
   Program order of the map: what a thread has been answered, and then the call it is about,
   are the calls it has made, in order.
   */
  lemma {:induction false} AnsweredInOrder(cfg: Config, init: Mem, n: nat, size: nat, pool: set<int>, acts: seq<Act>, t: nat)
    ensures var s := Run(cfg, init, n, size, pool, acts);
      Answered(s.answers, t) + AboutAt(s, t) == Requested(cfg, init, n, size, pool, acts, t)
  {
    if acts != [] {
      var before, act := acts[..|acts| - 1], acts[|acts| - 1];
      var s, asked := Run(cfg, init, n, size, pool, before), Requested(cfg, init, n, size, pool, before, t);
      AnsweredInOrder(cfg, init, n, size, pool, before, t);
      if CanAct(cfg, s, act) {
        OrderKept(cfg, init, s, act, t, asked);
      }
    }
  }

  lemma OrderKept(cfg: Config, init: Mem, s: Sys, act: Act, t: nat, asked: seq<Request>)
    requires CanAct(cfg, s, act) && InOrderSoFar(s, t, asked)
    ensures InOrderSoFar(DoAct(cfg, init, s, act), t, asked + if act.t == t then Asked(act) else [])
  {
    if act.Complete? {
      var a := CompleteAnswers(cfg, init, s, act.t);
      AnswersInOrder(s, DoAct(cfg, init, s, act), act.t, a, t, asked);
      assert asked + [] == asked;
    } else {
      ActContinues(cfg, init, s, act);
      ContinuesInOrder(s, DoAct(cfg, init, s, act), act, t, asked);
    }
  }

  // ---------- the set ----------

  /** The set that the calls make, one after the other. */
  function SetOf(requests: seq<Request>): set<int>
  {
    if requests == [] then {}
    else
      var before, last := SetOf(requests[..|requests| - 1]), requests[|requests| - 1];
      match last
      case ToInsert(v) => before + {v}
      case ToRemove(v) => before - {v}
      case ToFind(_) => before
  }

  /** The answered calls of all threads, in the order of completion. */
  function InOrder(answers: seq<Answer>): seq<Request> {
    seq(|answers|, i requires 0 <= i < |answers| => RequestOf(answers[i].op))
  }

  /** Each call found its value exactly if the calls before it had left it in the set. */
  ghost predicate AnsweredAsSet(answers: seq<Answer>) {
    forall i :: 0 <= i < |answers| ==> (answers[i].found <==> RequestOf(answers[i].op).v in SetOf(InOrder(answers)[..i]))
  }

  lemma {:induction false} ReplayIsSet(answers: seq<Answer>)
    ensures Replay(answers) == SetOf(InOrder(answers))
  {
    if answers != [] {
      var k := |answers| - 1;
      ReplayIsSet(answers[..k]);
      assert InOrder(answers)[..k] == InOrder(answers[..k]);
    }
  }

  lemma AnswersAreSets(answers: seq<Answer>)
    requires AnswersOk(answers)
    ensures AnsweredAsSet(answers)
  {
    forall i | 0 <= i < |answers|
      ensures answers[i].found <==> RequestOf(answers[i].op).v in SetOf(InOrder(answers)[..i])
    {
      assert AnswerAt(answers, i);
      ReplayIsSet(answers[..i]);
      assert InOrder(answers)[..i] == InOrder(answers[..i]);
    }
  }

  /** Memory holds exactly these values, each in the list of the bucket `v % size` and in one item only. */
  ghost predicate HoldsExactly(m: Mem, size: nat, chains: seq<seq<int>>, values: set<int>) {
    && |chains| == size > 0
    && (forall h :: 0 <= h < size ==> ChainFrom(m, Head(h), chains[h]))
    && (forall h, i :: 0 <= h < size && 0 <= i < |chains[h]| ==>
          var v := Get(m, Data(chains[h][i])); v in values && v >= 0 && v % size == h)
    && (forall h, i, j :: 0 <= h < size && 0 <= i < j < |chains[h]| ==>
          Get(m, Data(chains[h][i])) != Get(m, Data(chains[h][j])))
    && (forall v :: v in values ==> v >= 0 && Listed(m, chains[v % size], v))
  }

  predicate Listed(m: Mem, c: seq<int>, v: int) {
    exists i :: 0 <= i < |c| && Get(m, Data(c[i])) == v
  }

  lemma PlaceOf(m: Mem, chains: seq<seq<int>>, values: set<int>, h: nat, i: nat)
    requires MapOk(m, chains) && Represents(m, chains, values) && h < |chains| && i < |chains[h]|
    ensures var v := Get(m, Data(chains[h][i])); v in values && v >= 0 && v % |chains| == h
  {
    var c := chains[h];
    var v := Get(m, Data(c[i]));
    assert BucketOk(m, |chains|, h, c) && c[i] in c;
    assert Has(m, chains[Bucket(v, |chains|)], v);
    assert v in values <==> v >= 0 && Has(m, chains[Bucket(v, |chains|)], v);
  }

  lemma HeldExactly(m: Mem, chains: seq<seq<int>>, values: set<int>)
    requires MapOk(m, chains) && Represents(m, chains, values)
    ensures HoldsExactly(m, |chains|, chains, values)
  {
    forall h | 0 <= h < |chains|
      ensures BucketOk(m, |chains|, h, chains[h])
    {
    }
    forall h, i | 0 <= h < |chains| && 0 <= i < |chains[h]|
      ensures var v := Get(m, Data(chains[h][i])); v in values && v >= 0 && v % |chains| == h
    {
      PlaceOf(m, chains, values, h, i);
    }
    forall v | v in values
      ensures v >= 0 && Listed(m, chains[v % |chains|], v)
    {
      assert Has(m, chains[Bucket(v, |chains|)], v);
    }
  }

  /**
   The map does what it is asked.  In every run of any number of threads, each thread's calls
   are answered in its own order; each call finds its value exactly if the calls completed
   before it have left it in the set; and whenever no lock is held, memory holds exactly the
   values that the completed calls make, each once, in the bucket `v % size`.
   */
  lemma MapServesRequests(cfg: Config, init: Mem, n: nat, size: nat, pool: set<int>, acts: seq<Act>)
    requires cfg.Discipline() != Mixed && Fresh(init, size, pool)
    ensures var s := Run(cfg, init, n, size, pool, acts);
      && (forall t: nat :: Answered(s.answers, t) + AboutAt(s, t) == Requested(cfg, init, n, size, pool, acts, t))
      && AnsweredAsSet(s.answers)
      && (s.m.locked == {} ==> HoldsExactly(s.m.mem, size, s.chains, SetOf(InOrder(s.answers))))
  {
    var s := Run(cfg, init, n, size, pool, acts);
    assert SomeRun(cfg, init, size, pool, s);
    forall t: nat
      ensures Answered(s.answers, t) + AboutAt(s, t) == Requested(cfg, init, n, size, pool, acts, t)
    {
      AnsweredInOrder(cfg, init, n, size, pool, acts, t);
    }
    MapRefinesSet(cfg, init, size, pool, s);
    AnswersAreSets(s.answers);
    ReplayIsSet(s.answers);
    ReachableOwned(cfg, init, size, pool, s);
    if s.m.locked == {} {
      HeldExactly(s.m.mem, s.chains, Replay(s.answers));
    }
  }
}
