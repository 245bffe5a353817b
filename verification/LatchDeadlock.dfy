/**
 Threads that latch and wait under the latching order.  A latch is a mutex or an
 rw-lock; a thread asks for a latch only if the order accepts it at that moment, waits
 while somebody holds it in a conflicting mode, and releases only while not waiting.
 */
module LatchDeadlock {
  import opened LatchRules
  import opened LevelArray

  datatype Mode = S | X

  datatype Want = None | Want(latch: Latch, mode: Mode)

  datatype Thread = Thread(x: set<Latch>, s: set<Latch>, want: Want) {
    predicate Holds(l: Latch) { l in x || l in s }
  }

  /** What stays fixed during a run: the level of each latch, and the server switches. */
  datatype World = World(levelOf: map<Latch, nat>, env: Env)

  function Level(w: World, l: Latch): nat {
    if l in w.levelOf then w.levelOf[l] else SYNC_NO_ORDER_CHECK
  }

  /** There is at most one latch of the level. */
  predicate Single(w: World, level: nat) {
    forall a, b :: a in w.levelOf && b in w.levelOf && w.levelOf[a] == level && w.levelOf[b] == level ==> a == b
  }

  /** The gates that really are gates in this world. */
  function UniqueGates(w: World): set<nat> {
    set g | g in GATE_LEVELS && Single(w, g)
  }

  function HeldLevels(w: World, t: Thread): set<nat> {
    set l | l in t.x + t.s :: Level(w, l)
  }

  predicate Conflicts(t: Thread, l: Latch, mode: Mode) {
    l in t.x || (mode == X && l in t.s)
  }

  datatype Event =
    | Request(t: nat, latch: Latch, mode: Mode)
    | Grant(t: nat)
    | Release(t: nat, latch: Latch)

  predicate CanGrant(sys: seq<Thread>, t: nat)
    requires t < |sys|
  {
    && sys[t].want.Want?
    && forall u :: 0 <= u < |sys| ==> !Conflicts(sys[u], sys[t].want.latch, sys[t].want.mode)
  }

  predicate Enabled(w: World, sys: seq<Thread>, e: Event) {
    && e.t < |sys|
    && var me := sys[e.t];
       match e
       case Request(_, l, mode) =>
         && me.want.None? && l in w.levelOf && !me.Holds(l)
         && Accepts(HeldLevels(w, me), Level(w, l), w.env)
         && (Level(w, l) in GATE_LEVELS ==> mode == X)
       case Grant(t) => CanGrant(sys, t)
       case Release(_, l) => me.want.None? && me.Holds(l)
  }

  function Do(sys: seq<Thread>, e: Event): seq<Thread>
    requires e.t < |sys|
    requires e.Grant? ==> sys[e.t].want.Want?
  {
    var me := sys[e.t];
    match e
    case Request(t, l, mode) => sys[t := me.(want := Want(l, mode))]
    case Grant(t) =>
      if me.want.mode == X then sys[t := me.(x := me.x + {me.want.latch}, want := None)]
      else sys[t := me.(s := me.s + {me.want.latch}, want := None)]
    case Release(t, l) => sys[t := me.(x := me.x - {l}, s := me.s - {l})]
  }

  /** The state after a sequence of events; an event that is not enabled does not happen. */
  function After(w: World, n: nat, events: seq<Event>): seq<Thread>
  {
    if events == [] then seq(n, _ => Thread({}, {}, None))
    else
      var before := After(w, n, events[..|events| - 1]);
      var e := events[|events| - 1];
      if Enabled(w, before, e) then Do(before, e) else before
  }

  // ---------- invariant ----------

  /** What the waiter was allowed to ask for, it may still ask for: it holds what it held. */
  predicate WaitOk(w: World, t: Thread) {
    t.want.Want? ==>
      && t.want.latch in w.levelOf && !t.Holds(t.want.latch)
      && Accepts(HeldLevels(w, t), Level(w, t.want.latch), w.env)
      && (Level(w, t.want.latch) in GATE_LEVELS ==> t.want.mode == X)
  }

  predicate GatesExclusive(w: World, t: Thread) {
    && (forall l :: l in t.x + t.s ==> l in w.levelOf)
    && (forall l :: l in t.s ==> Level(w, l) !in GATE_LEVELS)
  }

  predicate Exclusion(sys: seq<Thread>) {
    forall t, u, l :: 0 <= t < |sys| && 0 <= u < |sys| && l in sys[t].x && sys[u].Holds(l) ==> t == u
  }

  predicate Inv(w: World, sys: seq<Thread>) {
    && (forall t :: 0 <= t < |sys| ==> WaitOk(w, sys[t]) && GatesExclusive(w, sys[t]))
    && Exclusion(sys)
  }

  lemma ExclusionStep(w: World, sys: seq<Thread>, e: Event)
    requires Exclusion(sys) && Enabled(w, sys, e)
    ensures Exclusion(Do(sys, e))
  {
    var sys' := Do(sys, e);
    forall t, u, l | 0 <= t < |sys'| && 0 <= u < |sys'| && l in sys'[t].x && sys'[u].Holds(l)
      ensures t == u
    {
      if e.Grant? && l == sys[e.t].want.latch {
        assert !Conflicts(sys[t], l, sys[e.t].want.mode) && !Conflicts(sys[u], l, sys[e.t].want.mode);
      } else {
        assert l in sys[t].x && sys[u].Holds(l);
      }
    }
  }

  lemma InvStep(w: World, sys: seq<Thread>, e: Event)
    requires Inv(w, sys) && Enabled(w, sys, e)
    ensures Inv(w, Do(sys, e))
  {
    ExclusionStep(w, sys, e);
    var sys' := Do(sys, e);
    forall t | 0 <= t < |sys'|
      ensures WaitOk(w, sys'[t]) && GatesExclusive(w, sys'[t])
    {
      assert WaitOk(w, sys[t]) && GatesExclusive(w, sys[t]);
    }
  }

  lemma {:induction false} RunInv(w: World, n: nat, events: seq<Event>)
    ensures Inv(w, After(w, n, events))
  {
    if events != [] {
      var init := events[..|events| - 1];
      RunInv(w, n, init);
      if Enabled(w, After(w, n, init), events[|events| - 1]) {
        InvStep(w, After(w, n, init), events[|events| - 1]);
      }
    }
  }

  // ---------- deadlock ----------

  predicate BlockedBy(sys: seq<Thread>, t: nat, u: nat)
    requires t < |sys| && u < |sys|
  {
    sys[t].want.Want? && Conflicts(sys[u], sys[t].want.latch, sys[t].want.mode)
  }

  predicate BlockedWithin(sys: seq<Thread>, t: nat, group: set<nat>) {
    t < |sys| && exists u :: u in group && u < |sys| && BlockedBy(sys, t, u)
  }

  /** Every thread of the set waits for a latch that a thread of the set holds. */
  predicate Deadlocked(sys: seq<Thread>, group: set<nat>) {
    group != {} && forall t :: t in group ==> BlockedWithin(sys, t, group)
  }

  predicate WaitsOrdered(w: World, sys: seq<Thread>, group: set<nat>) {
    forall t :: t in group && t < |sys| && sys[t].want.Want? ==>
      Ordered(Level(w, sys[t].want.latch), UniqueGates(w), w.env)
  }

  function WantLevel(w: World, t: Thread): nat {
    if t.want.Want? then Level(w, t.want.latch) else 0
  }

  lemma {:induction false} LowestWaiter(w: World, sys: seq<Thread>, group: set<nat>) returns (t: nat)
    requires group != {} && forall u :: u in group ==> u < |sys|
    ensures t in group
    ensures forall u :: u in group ==> WantLevel(w, sys[t]) <= WantLevel(w, sys[u])
    decreases |group|
  {
    var first :| first in group;
    var rest := group - {first};
    t := first;
    if rest != {} {
      var m := LowestWaiter(w, sys, rest);
      if WantLevel(w, sys[m]) < WantLevel(w, sys[t]) {
        t := m;
      }
    }
    forall u | u in group
      ensures WantLevel(w, sys[t]) <= WantLevel(w, sys[u])
    {
      assert u != first ==> u in rest;
    }
  }

  /** One hop along the wait-for relation never climbs, and stays level only with a gate in hand. */
  lemma HopDescends(w: World, sys: seq<Thread>, t: nat, u: nat)
    requires t < |sys| && u < |sys| && BlockedBy(sys, t, u) && sys[u].want.Want?
    requires WaitOk(w, sys[u])
    requires Ordered(Level(w, sys[u].want.latch), UniqueGates(w), w.env)
    ensures WantLevel(w, sys[u]) <= WantLevel(w, sys[t])
    ensures WantLevel(w, sys[u]) == WantLevel(w, sys[t]) ==>
      var rule := RuleOf(WantLevel(w, sys[u]), w.env);
      rule.Gated? && rule.gate in UniqueGates(w) && rule.gate in HeldLevels(w, sys[u])
  {
    var l := sys[t].want.latch;
    assert l in sys[u].x + sys[u].s;
    assert Level(w, l) in HeldLevels(w, sys[u]);
    OrderedMeansDescending(HeldLevels(w, sys[u]), Level(w, sys[u].want.latch), UniqueGates(w), w.env);
  }

  lemma GateHoldersEqual(w: World, sys: seq<Thread>, u: nat, v: nat, gate: nat)
    requires Inv(w, sys) && u < |sys| && v < |sys| && gate in UniqueGates(w)
    requires gate in HeldLevels(w, sys[u]) && gate in HeldLevels(w, sys[v])
    ensures u == v
  {
    var a :| a in sys[u].x + sys[u].s && Level(w, a) == gate;
    var b :| b in sys[v].x + sys[v].s && Level(w, b) == gate;
    assert GatesExclusive(w, sys[u]) && GatesExclusive(w, sys[v]);
    assert a in w.levelOf && b in w.levelOf;
    assert a == b;
    assert a in sys[u].x && sys[v].Holds(a);
  }

  /** Two level hops in a row end at a thread that waits for what it holds. */
  lemma NoLevelHops(w: World, sys: seq<Thread>, t: nat, u: nat, v: nat)
    requires Inv(w, sys) && t < |sys| && u < |sys| && v < |sys|
    requires BlockedBy(sys, t, u) && BlockedBy(sys, u, v) && sys[v].want.Want?
    requires Ordered(Level(w, sys[u].want.latch), UniqueGates(w), w.env)
    requires Ordered(Level(w, sys[v].want.latch), UniqueGates(w), w.env)
    ensures WantLevel(w, sys[v]) < WantLevel(w, sys[t])
  {
    assert WaitOk(w, sys[u]) && WaitOk(w, sys[v]);
    HopDescends(w, sys, t, u);
    HopDescends(w, sys, u, v);
    if WantLevel(w, sys[v]) == WantLevel(w, sys[t]) {
      GateHoldersEqual(w, sys, u, v, RuleOf(WantLevel(w, sys[u]), w.env).gate);
    }
  }

  /**
   No deadlock under the order: in every run, a set of threads that wait for one another
   contains one that waits for a latch of a level which the table does not order.
   */
  lemma NoDeadlock(w: World, n: nat, events: seq<Event>, group: set<nat>)
    requires WaitsOrdered(w, After(w, n, events), group)
    ensures !Deadlocked(After(w, n, events), group)
  {
    var sys := After(w, n, events);
    RunInv(w, n, events);
    if Deadlocked(sys, group) {
      forall t | t in group ensures t < |sys| { assert BlockedWithin(sys, t, group); }
      var t := LowestWaiter(w, sys, group);
      assert BlockedWithin(sys, t, group);
      var u :| u in group && u < |sys| && BlockedBy(sys, t, u);
      assert BlockedWithin(sys, u, group);
      var v :| v in group && v < |sys| && BlockedBy(sys, u, v);
      assert BlockedWithin(sys, v, group);
      NoLevelHops(w, sys, t, u, v);
      assert false;
    }
  }

  predicate AllWaitsOrdered(w: World, sys: seq<Thread>) {
    forall t :: 0 <= t < |sys| && sys[t].want.Want? ==>
      Ordered(Level(w, sys[t].want.latch), UniqueGates(w), w.env)
  }

  /** Somebody can always move: a waiter's wait can be ended, or a thread that is not waiting is in the way. */
  lemma SomeThreadCanRun(w: World, n: nat, events: seq<Event>, t: nat) returns (u: nat)
    requires AllWaitsOrdered(w, After(w, n, events))
    requires t < |After(w, n, events)| && After(w, n, events)[t].want.Want?
    ensures var sys := After(w, n, events);
      && u < |sys|
      && (CanGrant(sys, u) || (sys[u].want.None? && exists v :: 0 <= v < |sys| && BlockedBy(sys, v, u)))
  {
    var sys := After(w, n, events);
    var stuck := set i: nat | i < |sys| && sys[i].want.Want? && !CanGrant(sys, i);
    if t !in stuck {
      u := t;
    } else {
      NoDeadlock(w, n, events, stuck);
      var v: nat :| v in stuck && !BlockedWithin(sys, v, stuck);
      u :| 0 <= u < |sys| && Conflicts(sys[u], sys[v].want.latch, sys[v].want.mode);
      assert BlockedBy(sys, v, u);
      assert u !in stuck;
    }
  }

  // ---------- the other direction ----------

  lemma AfterExtend(w: World, n: nat, events: seq<Event>, e: Event)
    requires Enabled(w, After(w, n, events), e)
    ensures After(w, n, events + [e]) == Do(After(w, n, events), e)
  {
    assert (events + [e])[..|events|] == events;
  }

  lemma EmptyHands(w: World)
    ensures HeldLevels(w, Thread({}, {}, None)) == {}
  {
  }

  lemma OneInHand(w: World, l: Latch)
    ensures HeldLevels(w, Thread({l}, {}, None)) == {Level(w, l)}
  {
    assert l in {l} + {};
  }

  /** A thread takes one more latch that nobody holds. */
  lemma Take(w: World, events: seq<Event>, t: nat, held: set<Latch>, l: Latch) returns (events': seq<Event>)
    requires var sys := After(w, 2, events);
      && t < |sys| && sys[t] == Thread(held, {}, None)
      && forall u :: 0 <= u < |sys| ==> !sys[u].Holds(l)
    requires l in w.levelOf && Accepts(HeldLevels(w, Thread(held, {}, None)), Level(w, l), w.env)
    ensures After(w, 2, events') == After(w, 2, events)[t := Thread(held + {l}, {}, None)]
    ensures events' == events + [Request(t, l, X), Grant(t)]
  {
    var sys := After(w, 2, events);
    AfterExtend(w, 2, events, Request(t, l, X));
    var mid := Do(sys, Request(t, l, X));
    assert CanGrant(mid, t);
    AfterExtend(w, 2, events + [Request(t, l, X)], Grant(t));
    events' := events + [Request(t, l, X)] + [Grant(t)];
    assert events' == events + [Request(t, l, X), Grant(t)];
  }

  /** Two threads that each ask for a latch of the other are deadlocked. */
  lemma CrossRequests(w: World, events: seq<Event>, h0: set<Latch>, h1: set<Latch>, a: Latch, b: Latch)
    returns (events': seq<Event>)
    requires After(w, 2, events) == [Thread(h0, {}, None), Thread(h1, {}, None)]
    requires a in h0 && b in h1 && a !in h1 && b !in h0 && a in w.levelOf && b in w.levelOf
    requires Accepts(HeldLevels(w, Thread(h0, {}, None)), Level(w, b), w.env)
    requires Accepts(HeldLevels(w, Thread(h1, {}, None)), Level(w, a), w.env)
    ensures Deadlocked(After(w, 2, events'), {0, 1})
    ensures events' == events + [Request(0, b, X), Request(1, a, X)]
  {
    AfterExtend(w, 2, events, Request(0, b, X));
    events' := events + [Request(0, b, X)];
    AfterExtend(w, 2, events', Request(1, a, X));
    events' := events' + [Request(1, a, X)];
    var sys := After(w, 2, events');
    assert BlockedBy(sys, 0, 1) && BlockedBy(sys, 1, 0);
    assert 0 in {0, 1} && 1 in {0, 1};
    assert events' == events + [Request(0, b, X), Request(1, a, X)];
  }

  /**
   Conversely, a level that accepts a second latch of its own next to the first lets two
   threads deadlock on two latches of that level, each request accepted when it is made.
   */
  lemma SelfAcceptingLevelDeadlocks(w: World, a: Latch, b: Latch) returns (events: seq<Event>)
    requires a in w.levelOf && b in w.levelOf && a != b && Level(w, a) == Level(w, b)
    requires Accepts({}, Level(w, a), w.env) && Accepts({Level(w, a)}, Level(w, a), w.env)
    ensures Deadlocked(After(w, 2, events), {0, 1})
    ensures events == [Request(0, a, X), Grant(0), Request(1, b, X), Grant(1), Request(0, b, X), Request(1, a, X)]
  {
    EmptyHands(w);
    OneInHand(w, a);
    OneInHand(w, b);
    assert After(w, 2, []) == [Thread({}, {}, None), Thread({}, {}, None)];
    events := Take(w, [], 0, {}, a);
    assert {} + {a} == {a} && {} + {b} == {b};
    events := Take(w, events, 1, {}, b);
    events := CrossRequests(w, events, {a}, {b}, a, b);
  }

  lemma TwoInHand(w: World, g: Latch, l: Latch)
    ensures HeldLevels(w, Thread({g, l}, {}, None)) == {Level(w, g), Level(w, l)}
  {
    assert g in {g, l} + {} && l in {g, l} + {};
  }

  lemma TakeGate(w: World, events: seq<Event>, t: nat, g: Latch, a: Latch) returns (events': seq<Event>)
    requires var sys := After(w, 2, events);
      && t < |sys| && sys[t] == Thread({}, {}, None)
      && forall u :: 0 <= u < |sys| ==> !sys[u].Holds(g) && !sys[u].Holds(a)
    requires g in w.levelOf && a in w.levelOf && g != a
    requires RuleOf(Level(w, a), w.env).Gated? && Level(w, g) == RuleOf(Level(w, a), w.env).gate
    ensures After(w, 2, events') == After(w, 2, events)[t := Thread({g, a}, {}, None)]
    ensures events' == events + [Request(t, g, X), Grant(t), Request(t, a, X), Grant(t)]
  {
    GateAdmits(Level(w, a), w.env);
    EmptyHands(w);
    OneInHand(w, g);
    assert {} + {g} == {g} && {g} + {a} == {g, a};
    events' := Take(w, events, t, {}, g);
    events' := Take(w, events', t, {g}, a);
  }

  /**
   A gate that is not unique is no gate: if there are two latches of the gate level, two
   threads, each with its own gate latch and a latch of the gated level in hand, ask for the
   latch of the other.  Every request is accepted when it is made, and they deadlock.
   */
  lemma NonUniqueGateDeadlocks(w: World, g: Latch, h: Latch, a: Latch, b: Latch) returns (events: seq<Event>)
    requires g in w.levelOf && h in w.levelOf && a in w.levelOf && b in w.levelOf && g != h && a != b
    requires RuleOf(Level(w, a), w.env).Gated? && Level(w, b) == Level(w, a)
    requires Level(w, g) == Level(w, h) == RuleOf(Level(w, a), w.env).gate
    ensures Deadlocked(After(w, 2, events), {0, 1})
    ensures events == [Request(0, g, X), Grant(0), Request(0, a, X), Grant(0), Request(1, h, X), Grant(1),
                       Request(1, b, X), Grant(1), Request(0, b, X), Request(1, a, X)]
  {
    GateAdmits(Level(w, a), w.env);
    TwoInHand(w, g, a);
    TwoInHand(w, h, b);
    assert After(w, 2, []) == [Thread({}, {}, None), Thread({}, {}, None)];
    events := TakeGate(w, [], 0, g, a);
    events := TakeGate(w, events, 1, h, b);
    events := CrossRequests(w, events, {g, a}, {h, b}, a, b);
  }

  /** The buffer pools: with two of them, two blocks can be latched crosswise. */
  lemma TwoBufferPoolsDeadlock(env: Env) returns (events: seq<Event>)
    ensures var w := World(map[1 := SYNC_BUF_POOL, 2 := SYNC_BUF_POOL, 3 := SYNC_BUF_BLOCK, 4 := SYNC_BUF_BLOCK], env);
      Deadlocked(After(w, 2, events), {0, 1})
  {
    var w := World(map[1 := SYNC_BUF_POOL, 2 := SYNC_BUF_POOL, 3 := SYNC_BUF_BLOCK, 4 := SYNC_BUF_BLOCK], env);
    events := NonUniqueGateDeadlocks(w, 1, 2, 3, 4);
  }

  // ---------- the exact condition ----------

  predicate EndsInDeadlock(w: World, n: nat, events: seq<Event>, group: set<nat>) {
    Deadlocked(After(w, n, events), group)
  }

  ghost predicate DeadlockFree(w: World) {
    forall n: nat, events: seq<Event>, group: set<nat> :: !EndsInDeadlock(w, n, events, group)
  }

  /** The latches of one level, together with any latches of its gate. */
  predicate LevelWithGate(w: World, level: nat) {
    forall l :: l in w.levelOf ==>
      w.levelOf[l] == level || (RuleOf(level, w.env).Gated? && w.levelOf[l] == RuleOf(level, w.env).gate)
  }

  ghost predicate AllOrdered(w: World) {
    forall l :: l in w.levelOf ==> Ordered(w.levelOf[l], UniqueGates(w), w.env)
  }

  lemma OrderedWorld(w: World)
    requires AllOrdered(w)
    ensures DeadlockFree(w)
  {
    forall n: nat, events: seq<Event>, group: set<nat>
      ensures !EndsInDeadlock(w, n, events, group)
    {
      RunInv(w, n, events);
      var sys := After(w, n, events);
      forall t | t in group && t < |sys| && sys[t].want.Want?
        ensures Ordered(Level(w, sys[t].want.latch), UniqueGates(w), w.env)
      {
        assert WaitOk(w, sys[t]);
      }
      NoDeadlock(w, n, events, group);
    }
  }

  /** A level that needs another one first is never latched where there is no other. */
  lemma {:induction false} NobodyLatches(w: World, level: nat, n: nat, events: seq<Event>)
    requires LevelWithGate(w, level) && !Accepts({}, level, w.env)
    ensures forall t :: 0 <= t < |After(w, n, events)| ==> After(w, n, events)[t] == Thread({}, {}, None)
  {
    if events != [] {
      NobodyLatches(w, level, n, events[..|events| - 1]);
      EmptyHands(w);
    }
  }

  lemma UnreachableLevel(w: World, level: nat)
    requires LevelWithGate(w, level) && !Accepts({}, level, w.env)
    ensures DeadlockFree(w)
  {
    forall n: nat, events: seq<Event>, group: set<nat>
      ensures !EndsInDeadlock(w, n, events, group)
    {
      NobodyLatches(w, level, n, events);
      var sys := After(w, n, events);
      assert forall t :: t in group ==> !BlockedWithin(sys, t, group);
    }
  }

  /** A world with two latches of a level that is not ordered there ends in deadlock. */
  lemma UnorderedWorld(w: World, a: Latch, b: Latch)
    requires a in w.levelOf && b in w.levelOf && a != b && w.levelOf[a] == w.levelOf[b]
    requires Accepts({}, w.levelOf[a], w.env) && !Ordered(w.levelOf[a], UniqueGates(w), w.env)
    ensures !DeadlockFree(w)
  {
    var level := w.levelOf[a];
    OrderedIffSelfRefusing(level, w.env);
    var events;
    if Accepts({level}, level, w.env) {
      events := SelfAcceptingLevelDeadlocks(w, a, b);
    } else {
      GateAdmits(level, w.env);
      var gate := RuleOf(level, w.env).gate;
      assert !Single(w, gate);
      var g, h :| g in w.levelOf && h in w.levelOf && w.levelOf[g] == gate && w.levelOf[h] == gate && g != h;
      events := NonUniqueGateDeadlocks(w, g, h, a, b);
    }
    assert EndsInDeadlock(w, 2, events, {0, 1});
  }

  /**
   The exact condition, level by level: with at least two latches of a level, and any number
   of latches of its gate level, no run deadlocks if and only if the level is ordered with
   exactly the gates that are unique in this world, or cannot be latched here at all because
   the table asks for another level first.
   */
  lemma OrderedIffNoDeadlock(w: World, a: Latch, b: Latch)
    requires a in w.levelOf && b in w.levelOf && a != b && w.levelOf[a] == w.levelOf[b]
    requires LevelWithGate(w, w.levelOf[a])
    ensures DeadlockFree(w) <==>
      Ordered(w.levelOf[a], UniqueGates(w), w.env) || !Accepts({}, w.levelOf[a], w.env)
  {
    if Ordered(w.levelOf[a], UniqueGates(w), w.env) {
      if RuleOf(w.levelOf[a], w.env).Gated? {
        GateAdmits(w.levelOf[a], w.env);
      }
      OrderedWorld(w);
    } else if !Accepts({}, w.levelOf[a], w.env) {
      UnreachableLevel(w, w.levelOf[a]);
    } else {
      UnorderedWorld(w, a, b);
    }
  }

  /** Every level here can be latched with empty hands, and one that is not ordered has several latches. */
  ghost predicate Contended(w: World) {
    forall l :: l in w.levelOf ==>
      && Accepts({}, w.levelOf[l], w.env)
      && (Ordered(w.levelOf[l], UniqueGates(w), w.env) || !Single(w, w.levelOf[l]))
  }

  /** For worlds of many levels: no run deadlocks if and only if every level is ordered. */
  lemma AllOrderedIffNoDeadlock(w: World)
    requires Contended(w)
    ensures DeadlockFree(w) <==> AllOrdered(w)
  {
    if AllOrdered(w) {
      OrderedWorld(w);
    } else {
      var l :| l in w.levelOf && !Ordered(w.levelOf[l], UniqueGates(w), w.env);
      var a, b :| a in w.levelOf && b in w.levelOf && w.levelOf[a] == w.levelOf[l] && w.levelOf[b] == w.levelOf[l] && a != b;
      UnorderedWorld(w, a, b);
    }
  }
}
