/** What a thread completes is what it has entered, in the order in which it entered it. */
module ProgramOrder {
  import opened Sections
  import opened Elision
  import opened Serializability

  /** The sections thread `t` has begun so far, plain stores included; one it gave up is taken back. */
  ghost function Issued(cfg: Config, n: nat, init: Mem, events: seq<Event>, t: nat): seq<Section>
  {
    if events == [] then []
    else
      var k := |events| - 1;
      var before := Issued(cfg, n, init, events[..k], t);
      if Enabled(cfg, After(cfg, n, init, events[..k]), events[k]) then IssuedBy(before, events[k], t) else before
  }

  ghost function IssuedBy(before: seq<Section>, e: Event, t: nat): seq<Section> {
    if e.t != t then before
    else
      match e
      case Enter(_, sec, _) => before + [sec]
      case PlainStore(_, a, v) => before + [StoreSection(a, v)]
      case GiveUp(_) => if before == [] then [] else before[..|before| - 1]
      case _ => before
  }

  /** The sections of one thread in the log, in order. */
  ghost function Own(log: seq<Completed>, t: nat): seq<Section>
  {
    if log == [] then []
    else
      var k := |log| - 1;
      Own(log[..k], t) + if log[k].thread == t then [log[k].sec] else []
  }

  ghost function Current(s: State, t: nat): seq<Section> {
    if t < |s.threads| && !s.threads[t].Idle? then [s.threads[t].sec] else []
  }

  lemma OwnPush(log: seq<Completed>, c: Completed, t: nat)
    ensures Own(log + [c], t) == Own(log, t) + if c.thread == t then [c.sec] else []
  {
    assert (log + [c])[..|log|] == log;
  }

  /** What an event does to the log and to the place of its thread in the program. */
  ghost predicate Advances(s: State, s': State, e: Event) {
    && e.t < |s.threads| == |s'.threads|
    && var ph := s.threads[e.t];
       match e
       case Enter(t, sec, _) => ph.Idle? && s'.log == s.log && Current(s', t) == [sec]
       case PlainStore(t, a, v) =>
         ph.Idle? && Current(s', t) == [] && s'.log == s.log + [Completed(t, StoreSection(a, v), [v])]
       case GiveUp(t) => !ph.Idle? && s'.log == s.log && Current(s', t) == []
       case Unlock(t) =>
         && Live(ph)
         && (|| (s'.log == s.log && Current(s', t) == [ph.sec])
             || (s'.log == s.log + [Completed(t, ph.sec, TraceOf(ph))] && Current(s', t) == []))
       case _ => !ph.Idle? && s'.log == s.log && Current(s', e.t) == [ph.sec]
  }

  lemma OrderActor(cfg: Config, s: State, e: Event)
    requires Enabled(cfg, s, e)
    ensures Advances(s, Do(cfg, s, e), e)
  {
  }

  lemma OrderOther(s: State, s': State, e: Event, t: nat)
    requires Advances(s, s', e) && e.t != t && (t < |s.threads| ==> Kept(s.threads[t], s'.threads[t]))
    ensures Own(s'.log, t) == Own(s.log, t) && Current(s', t) == Current(s, t)
  {
    if e.PlainStore? {
      OwnPush(s.log, Completed(e.t, StoreSection(e.a, e.v), [e.v]), t);
    } else if e.Unlock? {
      OwnPush(s.log, Completed(e.t, s.threads[e.t].sec, TraceOf(s.threads[e.t])), t);
    }
  }

  lemma OrderOwn(s: State, s': State, e: Event, before: seq<Section>)
    requires Advances(s, s', e) && Own(s.log, e.t) + Current(s, e.t) == before
    ensures Own(s'.log, e.t) + Current(s', e.t) == IssuedBy(before, e, e.t)
  {
    var own := Own(s.log, e.t);
    match e
    case Enter(_, sec, _) => assert own + [] == own;
    case PlainStore(t, a, v) =>
      OwnPush(s.log, Completed(t, StoreSection(a, v), [v]), t);
      assert own + [] == own;
    case GiveUp(t) => assert (own + [s.threads[t].sec])[..|own|] == own;
    case Unlock(t) => OwnPush(s.log, Completed(t, s.threads[t].sec, TraceOf(s.threads[t])), t);
    case _ =>
  }

  lemma OrderStep(cfg: Config, s: State, e: Event, t: nat, before: seq<Section>)
    requires Enabled(cfg, s, e) && Own(s.log, t) + Current(s, t) == before
    ensures var s' := Do(cfg, s, e); Own(s'.log, t) + Current(s', t) == IssuedBy(before, e, t)
  {
    OrderActor(cfg, s, e);
    if e.t != t {
      if t < |s.threads| {
        OthersKept(cfg, s, e, t);
      }
      OrderOther(s, Do(cfg, s, e), e, t);
    } else {
      OrderOwn(s, Do(cfg, s, e), e, before);
    }
  }

  /**
   Program order, in every run: the sections a thread has completed, followed by the one it
   is in, are the sections it has begun, in the order in which it began them.
   */
  lemma {:induction false} CompletedInOrder(cfg: Config, n: nat, init: Mem, events: seq<Event>, t: nat)
    ensures var s := After(cfg, n, init, events);
      Own(s.log, t) + Current(s, t) == Issued(cfg, n, init, events, t)
  {
    if events != [] {
      var k := |events| - 1;
      var s := After(cfg, n, init, events[..k]);
      CompletedInOrder(cfg, n, init, events[..k], t);
      if Enabled(cfg, s, events[k]) {
        OrderStep(cfg, s, events[k], t, Issued(cfg, n, init, events[..k], t));
      }
    }
  }
}
