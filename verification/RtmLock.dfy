/** The retry loop of the RTM lock with fallback, seen by one caller. */
module RtmLock {
  import opened Sections
  import opened Elision
  import opened Serializability

  datatype End = Committed | Aborted(code: nat)

  /** What one execution of `_xbegin` leads to; the loop sees every abort as its return code. */
  datatype Attempt = Refused(code: nat) | Started(wordSet: bool, end: End)

  datatype Return = Through | Back(code: nat)

  /**
   How an attempt comes out.  The guard after the loop is meant to test the lock word; as
   written it tests the pointer to it, which is never null, so with `literal` every
   attempt that starts aborts itself.
   */
  function ReturnOf(a: Attempt, literal: bool): Return {
    match a
    case Refused(code) => Back(code)
    case Started(wordSet, end) =>
      if literal || wordSet then Back(XABORT_EXPLICIT)
      else match end case Committed => Through case Aborted(code) => Back(code)
  }

  /** The mask 7 of the source leaves something of the status code. */
  predicate Retryable(code: nat) {
    code % 8 > 0
  }

  /**
   With the status bits written out: aborted by itself (bit 0), may succeed on a retry (bit 1),
   or a conflict (bit 2); the higher bits do not matter.
   */
  lemma MaskIsBits(explicit: bool, mayRetry: bool, conflict: bool, higher: nat)
    ensures Retryable((if explicit then 1 else 0) + (if mayRetry then 2 else 0) + (if conflict then 4 else 0) + 8 * higher)
      <==> explicit || mayRetry || conflict
  {
  }

  /** After these failures the function tries again. */
  predicate GoesOn(codes: seq<nat>) {
    |codes| <= MAX_RETRIES && forall c :: c in codes ==> Retryable(c)
  }

  lemma GoesOnPush(codes: seq<nat>, code: nat)
    ensures GoesOn(codes + [code]) <==> GoesOn(codes) && Retryable(code) && |codes| + 1 <= MAX_RETRIES
  {
    assert code in codes + [code];
    assert forall c :: c in codes + [code] <==> c in codes || c == code;
  }

  /** The attempt failed with this status: at the start, at the test of the word, or later. */
  ghost predicate FailedWith(a: Attempt, literal: bool, code: nat) {
    match a
    case Refused(c) => code == c
    case Started(wordSet, end) => if literal || wordSet then code == 1 else end == Aborted(code)
  }

  /** The status codes of the first `n` attempts, all of which failed. */
  ghost predicate Failed(env: nat -> Attempt, literal: bool, n: nat, codes: seq<nat>) {
    |codes| == n && forall i: nat :: i < n ==> FailedWith(env(i), literal, codes[i])
  }

  lemma FailedPush(env: nat -> Attempt, literal: bool, n: nat, codes: seq<nat>, code: nat)
    requires Failed(env, literal, n, codes) && FailedWith(env(n), literal, code)
    ensures Failed(env, literal, n + 1, codes + [code]) && (codes + [code])[..n] == codes
  {
  }

  /**
   Runs attempts until one goes through, or the fallback lock is taken.  There are at most
   `MAX_RETRIES + 1` attempts.  It goes on after each failure but the last, and takes the
   fallback exactly when it must not go on.  With the literal test nothing ever goes through.
   */
  method RtmLockSmart(env: nat -> Attempt, literal: bool) returns (elided: bool, attempts: nat, ghost codes: seq<nat>)
    ensures 1 <= attempts <= MAX_RETRIES + 1
    ensures elided ==>
      env(attempts - 1) == Started(false, Committed) && Failed(env, literal, attempts - 1, codes) && GoesOn(codes)
    ensures !elided ==> Failed(env, literal, attempts, codes) && !GoesOn(codes) && GoesOn(codes[..attempts - 1])
    ensures literal ==> !elided
  {
    var failures := 0;
    attempts, codes := 0, [];
    while true
      invariant attempts == failures <= MAX_RETRIES
      invariant Failed(env, literal, attempts, codes) && GoesOn(codes)
      decreases MAX_RETRIES - failures
    {
      var r := ReturnOf(env(attempts), literal);
      attempts := attempts + 1;
      if r == Through {
        return true, attempts, codes;
      }
      GoesOnPush(codes, r.code);
      FailedPush(env, literal, failures, codes, r.code);
      codes := codes + [r.code];
      if Retryable(r.code) {
        failures := failures + 1;
        if failures > MAX_RETRIES {
          return false, attempts, codes;
        }
      } else {
        return false, attempts, codes;
      }
    }
  }

  // ---------- the same decisions in the machine ----------

  /** Where a thread stands after its attempts have ended with these codes. */
  function PhaseAfter(sec: Section, codes: seq<nat>): Phase
  {
    if codes == [] then Begin(sec, Smart, 0)
    else
      var ph := PhaseAfter(sec, codes[..|codes| - 1]);
      if ph.Begin? then AfterAbort(sec, Smart, ph.failures, codes[|codes| - 1]) else ph
  }

  /**
   The machine decides as the loop does: as long as the loop goes on the thread is before its
   next attempt, with that many failures; at the first failure after which the loop does not
   go on it is about to take the lock, and stays there.
   */
  lemma {:induction false} MachineFollowsLoop(sec: Section, codes: seq<nat>)
    ensures PhaseAfter(sec, codes) == if GoesOn(codes) then Begin(sec, Smart, |codes|) else Acquire(sec, Smart)
  {
    if codes != [] {
      var rest, code := codes[..|codes| - 1], codes[|codes| - 1];
      MachineFollowsLoop(sec, rest);
      assert codes == rest + [code];
      GoesOnPush(rest, code);
    }
  }

  /** In the machine the abort event of an attempt, before or inside it, makes this step and no other. */
  lemma AbortMakesStep(cfg: Config, s: State, t: nat, codes: seq<nat>, code: nat)
    requires t < |s.threads| && GoesOn(codes)
    requires match s.threads[t]
      case Begin(_, how, failures) => how == Smart && failures == |codes|
      case Test(_, failures) => failures == |codes|
      case Speculate(_, how, failures, _) => how == Smart && failures == |codes|
      case _ => false
    ensures Enabled(cfg, s, Abort(t, code))
    ensures Do(cfg, s, Abort(t, code)) == Set(s, t, PhaseAfter(s.threads[t].sec, codes + [code]))
  {
    var sec := s.threads[t].sec;
    assert (codes + [code])[..|codes|] == codes;
    MachineFollowsLoop(sec, codes);
  }

  /** Finding the word at 1 is the explicit abort of the source, one more failure that may be retried. */
  lemma WordSetIsFailure(cfg: Config, s: State, t: nat, codes: seq<nat>)
    requires t < |s.threads| && GoesOn(codes) && s.threads[t].Test? && s.threads[t].failures == |codes|
    requires s.threads[t].sec.lock in s.locked
    ensures Do(cfg, s, ReadWord(t)) == Set(s, t, PhaseAfter(s.threads[t].sec, codes + [1]))
  {
    AbortMakesStep(cfg, s, t, codes, 1);
  }

  /** A conflict is a failure that may be retried too. */
  lemma ConflictIsFailure(ph: Phase, addrs: set<Addr>, codes: seq<nat>)
    requires ph.Speculate? && ph.how == Smart && ph.failures == |codes| && GoesOn(codes)
    requires !(ph.tx.loaded + ph.tx.stored.Keys !! addrs)
    ensures Struck(ph, addrs) == PhaseAfter(ph.sec, codes + [4])
  {
    assert (codes + [4])[..|codes|] == codes;
    MachineFollowsLoop(ph.sec, codes);
  }

  predicate RetriesLeft(ph: Phase) {
    match ph
    case Begin(_, how, failures) => how == Smart ==> failures <= MAX_RETRIES
    case Test(_, failures) => failures <= MAX_RETRIES
    case Speculate(_, how, failures, _) => how == Smart ==> failures <= MAX_RETRIES
    case _ => true
  }

  predicate AllRetriesLeft(s: State) {
    forall t :: 0 <= t < |s.threads| ==> RetriesLeft(s.threads[t])
  }

  lemma RetriesLeftActor(cfg: Config, s: State, e: Event)
    requires Enabled(cfg, s, e) && RetriesLeft(s.threads[e.t])
    ensures var s' := Do(cfg, s, e); |s'.threads| == |s.threads| && RetriesLeft(s'.threads[e.t])
  {
  }

  lemma RetriesLeftStep(cfg: Config, s: State, e: Event)
    requires Enabled(cfg, s, e) && AllRetriesLeft(s)
    ensures AllRetriesLeft(Do(cfg, s, e))
  {
    var s' := Do(cfg, s, e);
    RetriesLeftActor(cfg, s, e);
    forall u | 0 <= u < |s'.threads|
      ensures RetriesLeft(s'.threads[u])
    {
      if u != e.t {
        OthersKept(cfg, s, e, u);
      }
    }
  }

  /** In every run of the whole machine no caller is ever beyond its retries. */
  lemma {:induction false} RetryBound(cfg: Config, n: nat, init: Mem, events: seq<Event>)
    ensures AllRetriesLeft(After(cfg, n, init, events))
  {
    if events != [] {
      var s := After(cfg, n, init, events[..|events| - 1]);
      RetryBound(cfg, n, init, events[..|events| - 1]);
      if Enabled(cfg, s, events[|events| - 1]) {
        RetriesLeftStep(cfg, s, events[|events| - 1]);
      }
    }
  }
}
