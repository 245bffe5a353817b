/**
 What the latch events mean for the threads, and that under the latching order every waiter
 can be served: from any state with ordered waits, letting threads release and granting what
 can be granted serves them all.
 */
module LatchProgress {
  import opened LatchRules
  import opened LevelArray
  import opened LatchDeadlock

  // ---------- the events ----------

  /** Readers share a latch, a writer has it alone: when a wait can end. */
  lemma GrantIffCompatible(sys: seq<Thread>, t: nat)
    requires t < |sys| && sys[t].want.Want?
    ensures CanGrant(sys, t) <==>
      forall u :: 0 <= u < |sys| ==>
        sys[t].want.latch !in sys[u].x && (sys[t].want.mode == X ==> sys[t].want.latch !in sys[u].s)
  {
    assert forall u :: 0 <= u < |sys| ==>
        (Conflicts(sys[u], sys[t].want.latch, sys[t].want.mode) <==>
         sys[t].want.latch in sys[u].x || (sys[t].want.mode == X && sys[t].want.latch in sys[u].s));
  }

  /** A grant ends the wait, and in every reachable state the latch is then held as it was asked for. */
  lemma GrantGives(w: World, n: nat, events: seq<Event>, t: nat)
    requires Enabled(w, After(w, n, events), Grant(t))
    ensures var sys, sys' := After(w, n, events), After(w, n, events + [Grant(t)]);
      var l, mode := sys[t].want.latch, sys[t].want.mode;
      && |sys'| == |sys| && sys'[t].want.None?
      && (if mode == X then l in sys'[t].x else l in sys'[t].s)
      && (forall u :: 0 <= u < |sys| && u != t ==>
            sys'[u] == sys[u] && l !in sys'[u].x && (mode == X ==> !sys'[u].Holds(l)))
      && (forall k :: k != l ==> (k in sys'[t].x <==> k in sys[t].x) && (k in sys'[t].s <==> k in sys[t].s))
  {
    AfterExtend(w, n, events, Grant(t));
    GrantIffCompatible(After(w, n, events), t);
  }

  /** A release gives exactly this latch back. */
  lemma ReleaseGivesBack(w: World, n: nat, events: seq<Event>, t: nat, l: Latch)
    requires Enabled(w, After(w, n, events), Release(t, l))
    ensures var sys, sys' := After(w, n, events), After(w, n, events + [Release(t, l)]);
      && |sys'| == |sys| && !sys'[t].Holds(l) && sys'[t].want == sys[t].want
      && (forall u :: 0 <= u < |sys| && u != t ==> sys'[u] == sys[u])
      && (forall k :: k != l ==> (k in sys'[t].x <==> k in sys[t].x) && (k in sys'[t].s <==> k in sys[t].s))
  {
    AfterExtend(w, n, events, Release(t, l));
  }

  // ---------- sums over the threads ----------

  function Waits(t: Thread): nat {
    if t.want.Want? then 1 else 0
  }

  function InHand(t: Thread): nat {
    |t.x| + |t.s|
  }

  function Sum(sys: seq<Thread>, f: Thread -> nat): nat
  {
    if sys == [] then 0 else Sum(sys[..|sys| - 1], f) + f(sys[|sys| - 1])
  }

  lemma {:induction false} SumUpdate(sys: seq<Thread>, t: nat, th: Thread, f: Thread -> nat)
    requires t < |sys|
    ensures Sum(sys[t := th], f) + f(sys[t]) == Sum(sys, f) + f(th)
  {
    var k := |sys| - 1;
    if t == k {
      assert sys[t := th][..k] == sys[..k];
    } else {
      SumUpdate(sys[..k], t, th, f);
      assert sys[t := th][..k] == sys[..k][t := th];
    }
  }

  lemma GrantCounts(sys: seq<Thread>, t: nat)
    requires t < |sys| && sys[t].want.Want?
    ensures Sum(Do(sys, Grant(t)), Waits) + 1 == Sum(sys, Waits)
  {
    SumUpdate(sys, t, Do(sys, Grant(t))[t], Waits);
  }

  lemma Smaller(s: set<Latch>, l: Latch)
    ensures |s - {l}| <= |s| && (l in s ==> |s - {l}| < |s|)
  {
    if l in s {
      assert s == s - {l} + {l};
    } else {
      assert s == s - {l};
    }
  }

  lemma ReleaseCounts(sys: seq<Thread>, t: nat, l: Latch)
    requires t < |sys| && sys[t].want.None? && sys[t].Holds(l)
    ensures Sum(Do(sys, Release(t, l)), Waits) == Sum(sys, Waits)
    ensures Sum(Do(sys, Release(t, l)), InHand) < Sum(sys, InHand)
  {
    var me := sys[t];
    var me' := me.(x := me.x - {l}, s := me.s - {l});
    Smaller(me.x, l);
    Smaller(me.s, l);
    SumUpdate(sys, t, me', Waits);
    SumUpdate(sys, t, me', InHand);
  }

  // ---------- everybody is served ----------

  /** What serves the waiters of a state: grants and releases only, and a grant for each of them. */
  ghost predicate Serves(w: World, n: nat, events: seq<Event>, more: seq<Event>) {
    var sys, sys' := After(w, n, events), After(w, n, events + more);
    && |sys'| == |sys|
    && (forall e :: e in more ==> e.Grant? || e.Release?)
    && (forall t :: 0 <= t < |sys| ==> sys'[t].want.None? && (sys[t].want.Want? ==> Grant(t) in more))
  }

  lemma ServesOn(w: World, n: nat, events: seq<Event>, e: Event, more: seq<Event>)
    requires Enabled(w, After(w, n, events), e) && (e.Grant? || e.Release?) && Serves(w, n, events + [e], more)
    ensures Serves(w, n, events, [e] + more)
  {
    AfterExtend(w, n, events, e);
    assert events + ([e] + more) == events + [e] + more;
    forall t | 0 <= t < |After(w, n, events)| && After(w, n, events)[t].want.Want?
      ensures Grant(t) in [e] + more
    {
      if e != Grant(t) {
        assert After(w, n, events + [e])[t].want.Want?;
      }
    }
  }

  /** The next event that brings the waiters nearer to their latches. */
  lemma NextToServe(w: World, n: nat, events: seq<Event>, t: nat) returns (e: Event)
    requires AllWaitsOrdered(w, After(w, n, events))
    requires t < |After(w, n, events)| && After(w, n, events)[t].want.Want?
    ensures Enabled(w, After(w, n, events), e) && (e.Grant? || e.Release?)
    ensures AllWaitsOrdered(w, Do(After(w, n, events), e))
    ensures var sys, sys' := After(w, n, events), Do(After(w, n, events), e);
      || Sum(sys', Waits) < Sum(sys, Waits)
      || (Sum(sys', Waits) == Sum(sys, Waits) && Sum(sys', InHand) < Sum(sys, InHand))
  {
    var sys := After(w, n, events);
    var u := SomeThreadCanRun(w, n, events, t);
    if CanGrant(sys, u) {
      e := Grant(u);
      GrantCounts(sys, u);
    } else {
      var v :| 0 <= v < |sys| && BlockedBy(sys, v, u);
      e := Release(u, sys[v].want.latch);
      ReleaseCounts(sys, u, sys[v].want.latch);
    }
  }

  /**
   Every waiter can be served.  From every reachable state whose waits are at ordered levels
   there is a continuation of grants and releases alone in which each waiting thread is
   granted its latch and after which nobody waits.
   */
  lemma {:induction false} EveryWaiterServed(w: World, n: nat, events: seq<Event>) returns (more: seq<Event>)
    requires AllWaitsOrdered(w, After(w, n, events))
    ensures Serves(w, n, events, more)
    decreases Sum(After(w, n, events), Waits), Sum(After(w, n, events), InHand)
  {
    var sys := After(w, n, events);
    more := [];
    if t: nat :| t < |sys| && sys[t].want.Want? {
      var e := NextToServe(w, n, events, t);
      AfterExtend(w, n, events, e);
      more := EveryWaiterServed(w, n, events + [e]);
      ServesOn(w, n, events, e, more);
      more := [e] + more;
    } else {
      assert events + [] == events;
    }
  }
}
