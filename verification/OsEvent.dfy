/**
 The manual-reset event of InnoDB (non-Windows path): a flag, and a counter that
 rises whenever the flag goes from unset to set.  A waiter passes the counter value
 that its own reset returned, so that a signal sent in between cannot be lost.
 */
module OsEvent {

  /** The two fields that `os_event_set`, `os_event_reset` and the wait loop share. */
  datatype Event = Event(isSet: bool, signalCount: nat)

  /** The value zero is reserved for "no count given", hence the counter starts at one. */
  const CREATED := Event(false, 1)

  /** What another thread may do to the event under its mutex. */
  datatype Op = Set | Reset

  function OnSet(e: Event): Event {
    if e.isSet then e else Event(true, e.signalCount + 1)
  }

  function OnReset(e: Event): Event {
    e.(isSet := false)
  }

  function Apply(e: Event, op: Op): Event {
    match op
    case Set => OnSet(e)
    case Reset => OnReset(e)
  }

  function Run(e: Event, ops: seq<Op>): Event
  {
    if ops == [] then e else Apply(Run(e, ops[..|ops| - 1]), ops[|ops| - 1])
  }

  /** The negated guard of the wait loop, for a count that is not zero. */
  predicate Released(e: Event, sig: nat) {
    e.isSet || e.signalCount != sig
  }

  /** Set operations that find the flag down, read off the operations alone. */
  function RisingEdges(wasSet: bool, ops: seq<Op>): nat
  {
    if ops == [] then 0
    else
      var k := |ops| - 1;
      var before := if k == 0 then wasSet else ops[k - 1].Set?;
      RisingEdges(wasSet, ops[..k]) + if ops[k].Set? && !before then 1 else 0
  }

  /** The flag is decided by the last operation. */
  lemma {:induction false} FlagFollowsLastOp(e: Event, ops: seq<Op>)
    ensures Run(e, ops).isSet == if ops == [] then e.isSet else ops[|ops| - 1].Set?
  {
  }

  /** The counter never falls, and it counts exactly the rising edges of the flag. */
  lemma {:induction false} CountRisesExactlyOnEdges(e: Event, ops: seq<Op>)
    ensures Run(e, ops).signalCount == e.signalCount + RisingEdges(e.isSet, ops)
  {
    if ops != [] {
      var init := ops[..|ops| - 1];
      CountRisesExactlyOnEdges(e, init);
      FlagFollowsLastOp(e, init);
    }
  }

  lemma {:induction false} RisesOnFirstSet(ops: seq<Op>)
    ensures RisingEdges(false, ops) > 0 <==> Set in ops
  {
    if ops != [] {
      var k := |ops| - 1;
      var init := ops[..k];
      RisesOnFirstSet(init);
      assert Set in ops <==> Set in init || ops[k] == Set by {
        assert ops == init + [ops[k]];
      }
      if k > 0 && ops[k - 1] == Set {
        assert init[k - 1] == Set;
      }
    }
  }

  /**
   LEMMA 2.  Thread A resets the event and remembers the count; whatever sets and
   resets the other threads perform next, A's wait returns at once if and only if at
   least one of them was a set.
   */
  lemma {:induction false} SavedCountMissesNoSet(e: Event, ops: seq<Op>)
    ensures Released(Run(OnReset(e), ops), e.signalCount) <==> Set in ops
  {
    var r := OnReset(e);
    CountRisesExactlyOnEdges(r, ops);
    FlagFollowsLastOp(r, ops);
    RisesOnFirstSet(ops);
  }

  /**
   Without a saved count (the argument zero) the wait sees only the flag, so a set is
   lost exactly when a reset is the last operation: the infinite wait the source warns of.
   */
  lemma {:induction false} ZeroCountSeesOnlyLastOp(e: Event, ops: seq<Op>)
    ensures var now := Run(OnReset(e), ops);
            Released(now, now.signalCount) <==> ops != [] && ops[|ops| - 1] == Set
  {
    FlagFollowsLastOp(OnReset(e), ops);
  }

  lemma {:induction false} RunExtends(e: Event, ops: seq<Op>, k: nat)
    requires k < |ops|
    ensures Run(e, ops[..k + 1]) == Apply(Run(e, ops[..k]), ops[k])
  {
    assert ops[..k + 1][..k] == ops[..k];
  }

  /** The flag is down and the count is the one given: the guard of the wait loop. */
  predicate Sleeps(e: Event, count: nat) {
    !e.isSet && e.signalCount == count
  }

  class EventObject {
    var isSet: bool
    var signalCount: nat

    ghost function View(): Event
      reads this
    {
      Event(isSet, signalCount)
    }

    constructor ()
      ensures View() == CREATED && !isSet && signalCount == 1
    {
      isSet, signalCount := false, 1;
    }

    method SetEvent()
      modifies this
      ensures View() == OnSet(old(View())) && isSet
      ensures signalCount == old(signalCount) + if old(isSet) then 0 else 1
    {
      if isSet {
      } else {
        isSet := true;
        signalCount := signalCount + 1;
      }
    }

    method ResetEvent() returns (ret: nat)
      modifies this
      ensures View() == OnReset(old(View())) && !isSet
      ensures ret == old(signalCount) == signalCount
    {
      if !isSet {
      } else {
        isSet := false;
      }
      ret := signalCount;
    }

    /**
     The wait loop.  `others` is what the other threads do, one operation each time this
     thread sleeps on the condition variable; a wake-up without a signal re-tests the
     guard and sleeps again.  The wait returns at the first release and at no other point: with
     a saved count, when the flag is up or the count is another one; with none (zero), when the
     flag is up or the count is not the one at the start.
     */
    method WaitLow(resetSigCount: nat, others: seq<Op>) returns (returned: bool, used: nat)
      modifies this
      ensures used <= |others|
      ensures View() == Run(old(View()), others[..used])
      ensures resetSigCount != 0 ==>
        && (returned <==> isSet || signalCount != resetSigCount)
        && forall j :: 0 <= j < used ==> Sleeps(Run(old(View()), others[..j]), resetSigCount)
      ensures resetSigCount == 0 ==>
        && (returned <==> isSet || signalCount != old(signalCount))
        && forall j :: 0 <= j < used ==> Sleeps(Run(old(View()), others[..j]), old(signalCount))
      ensures !returned ==> used == |others|
    {
      var sig := resetSigCount;
      if sig == 0 {
        sig := signalCount;
      }
      used := 0;
      while !isSet && signalCount == sig
        invariant 0 <= used <= |others|
        invariant View() == Run(old(View()), others[..used])
        invariant forall j :: 0 <= j < used ==> Sleeps(Run(old(View()), others[..j]), sig)
        decreases |others| - used
      {
        if used == |others| {
          return false, used;
        }
        RunExtends(old(View()), others, used);
        match others[used] {
          case Set => SetEvent();
          case Reset => var _ := ResetEvent();
        }
        used := used + 1;
      }
      returned := true;
    }

    /** What other threads do to the event, one operation after the other. */
    method Others(ops: seq<Op>)
      modifies this
      ensures View() == Run(old(View()), ops)
    {
      var k := 0;
      while k < |ops|
        invariant 0 <= k <= |ops|
        invariant View() == Run(old(View()), ops[..k])
      {
        RunExtends(old(View()), ops, k);
        match ops[k] {
          case Set => SetEvent();
          case Reset => var _ := ResetEvent();
        }
        k := k + 1;
      }
      assert ops[..k] == ops;
    }

    /**
     LEMMA 2 for the calls themselves: reset, then anything by other threads, then a wait with
     the count that the reset returned.  The wait is over at once if and only if one of the
     operations was a set; zero is never returned, so it is never taken for "no count".
     */
    method ResetThenWait(ops: seq<Op>, others: seq<Op>) returns (returned: bool, used: nat)
      requires signalCount >= 1
      modifies this
      ensures returned && used == 0 <==> Set in ops
      ensures signalCount >= old(signalCount)
    {
      ghost var start := View();
      var saved := ResetEvent();
      Others(ops);
      ghost var now := View();
      returned, used := WaitLow(saved, others);
      SavedCountMissesNoSet(start, ops);
      if used > 0 {
        assert Sleeps(Run(now, others[..0]), saved);
      }
      CountRisesExactlyOnEdges(OnReset(start), ops);
      CountRisesExactlyOnEdges(now, others[..used]);
    }

    /** Without the count, the wait is over at once if and only if the last operation was a set. */
    method ResetThenWaitWithoutCount(ops: seq<Op>, others: seq<Op>) returns (returned: bool, used: nat)
      modifies this
      ensures returned && used == 0 <==> ops != [] && ops[|ops| - 1] == Set
    {
      ghost var start := View();
      var _ := ResetEvent();
      Others(ops);
      ghost var now := View();
      returned, used := WaitLow(0, others);
      ZeroCountSeesOnlyLastOp(start, ops);
      if used > 0 {
        assert Sleeps(Run(now, others[..0]), now.signalCount);
      }
    }
  }
}
