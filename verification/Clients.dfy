/**
 Shared counters and bank accounts under the lock functions: what their final checks
 expect holds in every run, because the sections serialize.
 */
module Accounts {
  import opened Sections
  import opened Elision
  import opened Serializability
  import opened ProgramOrder

  /** The guarded operations on one account (or counter: a deposit of 1). */
  datatype Op = Withdraw(account: int, money: int) | Deposit(account: int, money: int) | Balance(account: int)

  function ReadOf(lock: int, a: Addr): Section {
    Section(lock, (trace: seq<int>) => if |trace| == 0 then Load(a) else Done)
  }

  /** The section of an operation, guarded by the lock of its account. */
  function SectionOf(owner: Addr -> int, op: Op): Section {
    var a := Word(op.account);
    match op
    case Withdraw(_, money) => AddTo(owner(a), a, -money)
    case Deposit(_, money) => AddTo(owner(a), a, money)
    case Balance(_) => ReadOf(owner(a), a)
  }

  function Delta(op: Op): int {
    match op
    case Withdraw(_, money) => -money
    case Deposit(_, money) => money
    case Balance(_) => 0
  }

  // ---------- totals ----------

  function Total(m: Mem, accounts: nat): int
  {
    if accounts == 0 then 0 else Total(m, accounts - 1) + Get(m, Word(accounts - 1))
  }

  lemma {:induction false} TotalUpdate(m: Mem, accounts: nat, i: int, v: int)
    ensures Total(m[Word(i) := v], accounts) ==
      Total(m, accounts) + if 0 <= i < accounts then v - Get(m, Word(i)) else 0
  {
    if accounts > 0 {
      TotalUpdate(m, accounts - 1, i, v);
    }
  }

  lemma {:induction false} TotalAgree(m: Mem, m': Mem, accounts: nat)
    requires forall a :: Get(m, a) == Get(m', a)
    ensures Total(m, accounts) == Total(m', accounts)
  {
    if accounts > 0 {
      TotalAgree(m, m', accounts - 1);
    }
  }

  function Change(ops: seq<Op>): int
  {
    if ops == [] then 0 else Change(ops[..|ops| - 1]) + Delta(ops[|ops| - 1])
  }

  /** One completed operation moves the total by its own amount. */
  lemma OpTotal(owner: Addr -> int, m: Mem, c: Completed, op: Op, accounts: nat)
    requires c.sec == SectionOf(owner, op) && Explains(m, c) && 0 <= op.account < accounts
    ensures Total(Alone(c.sec.next, m, |c.trace|).mem, accounts) == Total(m, accounts) + Delta(op)
  {
    var a := Word(op.account);
    match op
    case Balance(_) =>
      assert Alone(c.sec.next, m, 0) == Solo(m, []);
      assert Alone(c.sec.next, m, 1) == Solo(m, [Get(m, a)]);
      if |c.trace| >= 1 { Finished(c.sec.next, m, 1, |c.trace|); }
    case _ =>
      AddCompleted(m, c, owner(a), a, Delta(op));
      TotalUpdate(m, accounts, op.account, Get(m, a) + Delta(op));
  }

  // ---------- money in somebody's hands ----------

  function SumTo(f: nat -> int, n: nat): int
  {
    if n == 0 then 0 else SumTo(f, n - 1) + f(n - 1)
  }

  lemma {:induction false} SumToZero(f: nat -> int, n: nat)
    requires forall t :: 0 <= t < n ==> f(t) == 0
    ensures SumTo(f, n) == 0
  {
    if n > 0 {
      SumToZero(f, n - 1);
    }
  }

  lemma {:induction false} SumToChanged(f: nat -> int, g: nat -> int, n: nat, t: nat, d: int)
    requires forall u :: 0 <= u < n ==> f(u) == g(u) + if u == t then d else 0
    ensures SumTo(f, n) == SumTo(g, n) + if t < n then d else 0
  {
    if n > 0 {
      SumToChanged(f, g, n - 1, t, d);
    }
  }

  lemma ChangePush(ops: seq<Op>, op: Op)
    ensures Change(ops + [op]) == Change(ops) + Delta(op)
  {
    assert (ops + [op])[..|ops|] == ops;
  }

  predicate LogBelow(s: State, n: nat) {
    |s.threads| == n && forall i :: 0 <= i < |s.log| ==> s.log[i].thread < n
  }

  lemma LogBelowStep(cfg: Config, s: State, n: nat, e: Event)
    requires LogBelow(s, n) && Enabled(cfg, s, e)
    ensures LogBelow(Do(cfg, s, e), n)
  {
  }

  lemma {:induction false} LogThreads(cfg: Config, n: nat, init: Mem, events: seq<Event>)
    ensures LogBelow(After(cfg, n, init, events), n)
  {
    if events != [] {
      var s := After(cfg, n, init, events[..|events| - 1]);
      LogThreads(cfg, n, init, events[..|events| - 1]);
      if Enabled(cfg, s, events[|events| - 1]) {
        LogBelowStep(cfg, s, n, events[|events| - 1]);
      }
    }
  }

  /** An account operation never leaves the words its lock guards, so it is never held back. */
  lemma AccountsConfined(owner: Addr -> int, op: Op)
    ensures Confined(owner, SectionOf(owner, op))
  {
  }

  // ---------- the transfer loop ----------

  /** One round of the loop: money from one account to another, or a look at a balance. */
  datatype Round = Transfer(a1: int, a2: int, money: int) | Look(account: int)

  function RoundOps(r: Round): seq<Op> {
    match r
    case Transfer(a1, a2, money) => [Withdraw(a1, money), Deposit(a2, money)]
    case Look(a) => [Balance(a)]
  }

  /** The operations of the rounds, in program order. */
  function OpsOf(rounds: seq<Round>): seq<Op>
  {
    if rounds == [] then [] else OpsOf(rounds[..|rounds| - 1]) + RoundOps(rounds[|rounds| - 1])
  }

  /** Money in hand after `k` operations: that of the last one, if it was a withdrawal. */
  function Pending(ops: seq<Op>, k: nat): int {
    if 0 < k <= |ops| && ops[k - 1].Withdraw? then ops[k - 1].money else 0
  }

  lemma ChangeRound(ops: seq<Op>, r: Round)
    ensures Change(ops + RoundOps(r)) == Change(ops)
  {
    match r
    case Transfer(a1, a2, money) =>
      ChangePush(ops, Withdraw(a1, money));
      ChangePush(ops + [Withdraw(a1, money)], Deposit(a2, money));
      assert ops + RoundOps(r) == ops + [Withdraw(a1, money)] + [Deposit(a2, money)];
    case Look(a) => ChangePush(ops, Balance(a));
  }

  lemma {:induction false} RoundsEven(rounds: seq<Round>)
    ensures Change(OpsOf(rounds)) == 0
    ensures OpsOf(rounds) != [] ==> !OpsOf(rounds)[|OpsOf(rounds)| - 1].Withdraw?
  {
    if rounds != [] {
      RoundsEven(rounds[..|rounds| - 1]);
      ChangeRound(OpsOf(rounds[..|rounds| - 1]), rounds[|rounds| - 1]);
    }
  }

  /** In the middle of a round there is a withdrawal and nothing after it. */
  lemma MidRound(before: seq<Op>, r: Round, k: nat)
    requires |before| < k < |before + RoundOps(r)| && Change(before) == 0
    ensures var ops := before + RoundOps(r); Change(ops[..k]) == -Pending(ops, k)
  {
    var ops := before + RoundOps(r);
    ChangePush(before, ops[k - 1]);
    assert ops[..k] == before + [ops[k - 1]];
  }

  /** What a thread has taken out of the accounts and not put back is its pending withdrawal. */
  lemma {:induction false} CarriedIsPending(rounds: seq<Round>, k: nat)
    requires k <= |OpsOf(rounds)|
    ensures Change(OpsOf(rounds)[..k]) == -Pending(OpsOf(rounds), k)
  {
    var ops := OpsOf(rounds);
    if k == |ops| {
      RoundsEven(rounds);
      assert ops[..k] == ops;
    } else {
      var init := rounds[..|rounds| - 1];
      if k <= |OpsOf(init)| {
        CarriedIsPending(init, k);
        assert ops[..k] == OpsOf(init)[..k];
      } else {
        RoundsEven(init);
        MidRound(OpsOf(init), rounds[|rounds| - 1], k);
      }
    }
  }

  // ---------- threads in their loops ----------

  /** The sections are the first operations of the program. */
  ghost predicate Follows(owner: Addr -> int, sections: seq<Section>, ops: seq<Op>) {
    |sections| <= |ops| && forall i :: 0 <= i < |sections| ==> sections[i] == SectionOf(owner, ops[i])
  }

  predicate OnAccounts(ops: seq<Op>, accounts: nat) {
    forall i :: 0 <= i < |ops| ==> 0 <= ops[i].account < accounts
  }

  /** Each of the `n` threads has begun its loop over the accounts and come some way. */
  ghost predicate InLoops(cfg: Config, owner: Addr -> int, n: nat, init: Mem, events: seq<Event>, accounts: nat,
                          rounds: seq<seq<Round>>) {
    && |rounds| == n
    && forall t :: 0 <= t < n ==>
         Follows(owner, Issued(cfg, n, init, events, t), OpsOf(rounds[t])) && OnAccounts(OpsOf(rounds[t]), accounts)
  }

  ghost predicate LogFollows(owner: Addr -> int, log: seq<Completed>, accounts: nat, rounds: seq<seq<Round>>) {
    && (forall i :: 0 <= i < |log| ==> log[i].thread < |rounds|)
    && forall t :: 0 <= t < |rounds| ==>
         Follows(owner, Own(log, t), OpsOf(rounds[t])) && OnAccounts(OpsOf(rounds[t]), accounts)
  }

  /** Money in the hands of thread `t`: it has withdrawn it, and the deposit is not completed. */
  ghost function InHand(log: seq<Completed>, rounds: seq<seq<Round>>, t: nat): int {
    if t < |rounds| then Pending(OpsOf(rounds[t]), |Own(log, t)|) else 0
  }

  ghost function InHands(log: seq<Completed>, rounds: seq<seq<Round>>): int {
    SumTo((t: nat) => InHand(log, rounds, t), |rounds|)
  }

  lemma PendingStep(rounds: seq<Round>, k: nat)
    requires k < |OpsOf(rounds)|
    ensures Pending(OpsOf(rounds), k + 1) == Pending(OpsOf(rounds), k) - Delta(OpsOf(rounds)[k])
  {
    var ops := OpsOf(rounds);
    CarriedIsPending(rounds, k);
    CarriedIsPending(rounds, k + 1);
    ChangePush(ops[..k], ops[k]);
    assert ops[..k + 1] == ops[..k] + [ops[k]];
  }

  lemma LogFollowsPrefix(owner: Addr -> int, log: seq<Completed>, accounts: nat, rounds: seq<seq<Round>>)
    requires LogFollows(owner, log, accounts, rounds) && log != []
    ensures LogFollows(owner, log[..|log| - 1], accounts, rounds)
  {
    forall t | 0 <= t < |rounds|
      ensures Follows(owner, Own(log[..|log| - 1], t), OpsOf(rounds[t]))
    {
      assert Follows(owner, Own(log, t), OpsOf(rounds[t]));
      assert forall i :: 0 <= i < |Own(log[..|log| - 1], t)| ==> Own(log, t)[i] == Own(log[..|log| - 1], t)[i];
    }
  }

  lemma HandsStep(owner: Addr -> int, log: seq<Completed>, accounts: nat, rounds: seq<seq<Round>>) returns (op: Op)
    requires LogFollows(owner, log, accounts, rounds) && log != []
    ensures log[|log| - 1].sec == SectionOf(owner, op) && 0 <= op.account < accounts
    ensures InHands(log, rounds) == InHands(log[..|log| - 1], rounds) - Delta(op)
  {
    var c, before := log[|log| - 1], log[..|log| - 1];
    var ops, k := OpsOf(rounds[c.thread]), |Own(before, c.thread)|;
    assert Follows(owner, Own(log, c.thread), ops) && OnAccounts(ops, accounts);
    assert Own(log, c.thread)[k] == c.sec;
    op := ops[k];
    PendingStep(rounds[c.thread], k);
    SumToChanged((t: nat) => InHand(log, rounds, t), (t: nat) => InHand(before, rounds, t), |rounds|, c.thread, -Delta(op));
  }

  /** Balances and money in hand together stay what the balances were. */
  lemma {:induction false} SerialMoney(owner: Addr -> int, init: Mem, log: seq<Completed>, accounts: nat, rounds: seq<seq<Round>>)
    requires LogExplained(init, log) && LogFollows(owner, log, accounts, rounds)
    ensures Total(Serial(init, log), accounts) + InHands(log, rounds) == Total(init, accounts)
    decreases |log|
  {
    if log == [] {
      SumToZero((t: nat) => InHand(log, rounds, t), |rounds|);
    } else {
      var k := |log| - 1;
      ExplainedPrefix(init, log, k);
      LogFollowsPrefix(owner, log, accounts, rounds);
      SerialMoney(owner, init, log[..k], accounts, rounds);
      assert ExplainedAt(init, log, k);
      var op := HandsStep(owner, log, accounts, rounds);
      OpTotal(owner, Serial(init, log[..k]), log[k], op, accounts);
    }
  }

  /** In program order, the log of a run follows the loops. */
  lemma RunFollows(cfg: Config, owner: Addr -> int, n: nat, init: Mem, events: seq<Event>, accounts: nat,
                   rounds: seq<seq<Round>>)
    requires InLoops(cfg, owner, n, init, events, accounts, rounds)
    ensures LogFollows(owner, After(cfg, n, init, events).log, accounts, rounds)
  {
    var s := After(cfg, n, init, events);
    LogThreads(cfg, n, init, events);
    forall t | 0 <= t < n
      ensures Follows(owner, Own(s.log, t), OpsOf(rounds[t]))
    {
      CompletedInOrder(cfg, n, init, events, t);
      var issued := Issued(cfg, n, init, events, t);
      assert forall i :: 0 <= i < |Own(s.log, t)| ==> issued[i] == Own(s.log, t)[i];
    }
  }

  /**
   Money is conserved over all interleavings.  Threads go through their transfer loops; at
   every moment the balances that completed operations have made, plus the money of the
   threads between a withdrawal and its deposit, are the initial total.  Whenever no lock is
   held those are the balances in memory.
   */
  lemma MoneyConserved(cfg: Config, owner: Addr -> int, n: nat, init: Mem, events: seq<Event>, accounts: nat,
                       rounds: seq<seq<Round>>)
    requires cfg.Discipline() != Mixed && InLoops(cfg, owner, n, init, events, accounts, rounds)
    ensures var s := After(cfg, n, init, events);
      && Total(Serial(init, s.log), accounts) + InHands(s.log, rounds) == Total(init, accounts)
      && (s.locked == {} ==> Total(s.mem, accounts) + InHands(s.log, rounds) == Total(init, accounts))
  {
    var s := After(cfg, n, init, events);
    RunsSerialize(cfg, n, init, events);
    RunFollows(cfg, owner, n, init, events, accounts, rounds);
    SerialMoney(owner, init, s.log, accounts, rounds);
    if s.locked == {} {
      TotalAgree(s.mem, Serial(init, s.log), accounts);
    }
  }

  // ---------- account by account ----------

  /** What an operation does to account `i`. */
  function MovedBy(op: Op, i: int): int {
    match op
    case Withdraw(a, money) => if a == i then -money else 0
    case Deposit(a, money) => if a == i then money else 0
    case Balance(_) => 0
  }

  function Moved(ops: seq<Op>, i: int): int
  {
    if ops == [] then 0 else Moved(ops[..|ops| - 1], i) + MovedBy(ops[|ops| - 1], i)
  }

  lemma MovedPush(ops: seq<Op>, k: nat, i: int)
    requires k < |ops|
    ensures Moved(ops[..k + 1], i) == Moved(ops[..k], i) + MovedBy(ops[k], i)
  {
    assert ops[..k + 1][..k] == ops[..k];
  }

  /** A completed operation changes its own account, by its amount, and no other. */
  lemma OpMoves(owner: Addr -> int, m: Mem, c: Completed, op: Op, i: int)
    requires c.sec == SectionOf(owner, op) && Explains(m, c)
    ensures Get(Alone(c.sec.next, m, |c.trace|).mem, Word(i)) == Get(m, Word(i)) + MovedBy(op, i)
  {
    var a := Word(op.account);
    match op
    case Balance(_) =>
      assert Alone(c.sec.next, m, 0) == Solo(m, []);
      assert Alone(c.sec.next, m, 1) == Solo(m, [Get(m, a)]);
      if |c.trace| >= 1 { Finished(c.sec.next, m, 1, |c.trace|); }
    case Withdraw(_, money) => AddCompleted(m, c, owner(a), a, -money);
    case Deposit(_, money) => AddCompleted(m, c, owner(a), a, money);
  }

  /** The completed sections of each thread are the first operations of its program. */
  ghost predicate LogRuns(owner: Addr -> int, log: seq<Completed>, progs: seq<seq<Op>>) {
    && (forall i :: 0 <= i < |log| ==> log[i].thread < |progs|)
    && forall t :: 0 <= t < |progs| ==> Follows(owner, Own(log, t), progs[t])
  }

  /** What thread `t` has moved on account `i` so far. */
  ghost function MovedSoFar(log: seq<Completed>, progs: seq<seq<Op>>, i: int, t: nat): int {
    if t < |progs| && |Own(log, t)| <= |progs[t]| then Moved(progs[t][..|Own(log, t)|], i) else 0
  }

  lemma LogRunsPrefix(owner: Addr -> int, log: seq<Completed>, progs: seq<seq<Op>>)
    requires LogRuns(owner, log, progs) && log != []
    ensures LogRuns(owner, log[..|log| - 1], progs)
  {
    forall t | 0 <= t < |progs|
      ensures Follows(owner, Own(log[..|log| - 1], t), progs[t])
    {
      assert Follows(owner, Own(log, t), progs[t]);
      assert forall i :: 0 <= i < |Own(log[..|log| - 1], t)| ==> Own(log, t)[i] == Own(log[..|log| - 1], t)[i];
    }
  }

  lemma MovedStep(owner: Addr -> int, log: seq<Completed>, progs: seq<seq<Op>>, i: int) returns (op: Op)
    requires LogRuns(owner, log, progs) && log != []
    ensures log[|log| - 1].sec == SectionOf(owner, op)
    ensures SumTo((t: nat) => MovedSoFar(log, progs, i, t), |progs|) ==
      SumTo((t: nat) => MovedSoFar(log[..|log| - 1], progs, i, t), |progs|) + MovedBy(op, i)
  {
    var c, before := log[|log| - 1], log[..|log| - 1];
    var ops, k := progs[c.thread], |Own(before, c.thread)|;
    assert Follows(owner, Own(log, c.thread), ops);
    assert Own(log, c.thread)[k] == c.sec;
    op := ops[k];
    MovedPush(ops, k, i);
    LogRunsPrefix(owner, log, progs);
    forall t: nat | 0 <= t < |progs|
      ensures MovedSoFar(log, progs, i, t) == MovedSoFar(before, progs, i, t) + if t == c.thread then MovedBy(op, i) else 0
    {
      assert Follows(owner, Own(log, t), progs[t]) && Follows(owner, Own(before, t), progs[t]);
    }
    SumToChanged((t: nat) => MovedSoFar(log, progs, i, t), (t: nat) => MovedSoFar(before, progs, i, t),
                 |progs|, c.thread, MovedBy(op, i));
  }

  lemma {:induction false} SerialBalance(owner: Addr -> int, init: Mem, log: seq<Completed>, progs: seq<seq<Op>>, i: int)
    requires LogExplained(init, log) && LogRuns(owner, log, progs)
    ensures Get(Serial(init, log), Word(i)) ==
      Get(init, Word(i)) + SumTo((t: nat) => MovedSoFar(log, progs, i, t), |progs|)
    decreases |log|
  {
    if log == [] {
      forall t: nat | 0 <= t < |progs|
        ensures MovedSoFar(log, progs, i, t) == 0
      {
        assert progs[t][..0] == [];
      }
      SumToZero((t: nat) => MovedSoFar(log, progs, i, t), |progs|);
    } else {
      var k := |log| - 1;
      ExplainedPrefix(init, log, k);
      LogRunsPrefix(owner, log, progs);
      SerialBalance(owner, init, log[..k], progs, i);
      assert ExplainedAt(init, log, k);
      var op := MovedStep(owner, log, progs, i);
      OpMoves(owner, Serial(init, log[..k]), log[k], op, i);
    }
  }

  /** Operations in these rounds. */
  function Length(rounds: seq<Round>): nat
  {
    if rounds == [] then 0 else Length(rounds[..|rounds| - 1]) + if rounds[|rounds| - 1].Transfer? then 2 else 1
  }

  /**
   What the first `k` operations of the rounds pay into account `i`: a transfer takes its money
   from the first account in its first operation, and puts it into the second in its second.
   */
  function Paid(rounds: seq<Round>, k: nat, i: int): int
  {
    if rounds == [] then 0
    else
      var before, last := rounds[..|rounds| - 1], rounds[|rounds| - 1];
      var n := Length(before);
      if k <= n then Paid(before, k, i) else Paid(before, n, i) + RoundPays(last, k - n, i)
  }

  lemma {:induction false} LengthIsOps(rounds: seq<Round>)
    ensures |OpsOf(rounds)| == Length(rounds)
  {
    if rounds != [] {
      LengthIsOps(rounds[..|rounds| - 1]);
    }
  }

  /** What the operations of one round, as far as they are done, move. */
  function RoundPays(r: Round, done: nat, i: int): int {
    match r
    case Transfer(a1, a2, money) => (if done >= 1 && a1 == i then -money else 0) + (if done >= 2 && a2 == i then money else 0)
    case Look(_) => 0
  }

  lemma MovedRound(before: seq<Op>, r: Round, k: nat, i: int)
    requires |before| < k <= |before + RoundOps(r)|
    ensures Moved((before + RoundOps(r))[..k], i) == Moved(before, i) + RoundPays(r, k - |before|, i)
  {
    var ops, n := before + RoundOps(r), |before|;
    assert ops[..n] == before;
    MovedPush(ops, n, i);
    if k == n + 2 {
      MovedPush(ops, n + 1, i);
    }
  }

  lemma {:induction false} PaidIsMoved(rounds: seq<Round>, k: nat, i: int)
    requires k <= |OpsOf(rounds)|
    ensures Moved(OpsOf(rounds)[..k], i) == Paid(rounds, k, i)
  {
    if rounds != [] {
      var before := rounds[..|rounds| - 1];
      var n := |OpsOf(before)|;
      LengthIsOps(before);
      if k <= n {
        PaidIsMoved(before, k, i);
        assert OpsOf(rounds)[..k] == OpsOf(before)[..k];
      } else {
        PaidIsMoved(before, n, i);
        assert OpsOf(before)[..n] == OpsOf(before);
        MovedRound(OpsOf(before), rounds[|rounds| - 1], k, i);
      }
    }
  }

  /** Money thread `t` has paid into account `i`, by its rounds and the number of operations it has completed. */
  ghost function PaidSoFar(log: seq<Completed>, rounds: seq<seq<Round>>, i: int, t: nat): int {
    if t < |rounds| then Paid(rounds[t], |Own(log, t)|, i) else 0
  }

  lemma {:induction false} SumToSame(f: nat -> int, g: nat -> int, n: nat)
    requires forall t :: 0 <= t < n ==> f(t) == g(t)
    ensures SumTo(f, n) == SumTo(g, n)
  {
    if n > 0 {
      SumToSame(f, g, n - 1);
    }
  }

  /**
   Account by account, in every run of the transfer loops: the balance that completed
   operations have made is the initial one plus what the threads have paid in so far; whenever
   no lock is held that is the balance in memory.
   */
  lemma AccountBalances(cfg: Config, owner: Addr -> int, n: nat, init: Mem, events: seq<Event>, accounts: nat,
                        rounds: seq<seq<Round>>, i: int)
    requires cfg.Discipline() != Mixed && InLoops(cfg, owner, n, init, events, accounts, rounds)
    ensures var s := After(cfg, n, init, events);
      var balance := Get(init, Word(i)) + SumTo((t: nat) => PaidSoFar(s.log, rounds, i, t), n);
      && Get(Serial(init, s.log), Word(i)) == balance
      && (s.locked == {} ==> Get(s.mem, Word(i)) == balance)
  {
    var s := After(cfg, n, init, events);
    var progs := seq(n, t requires 0 <= t < n => OpsOf(rounds[t]));
    RunsSerialize(cfg, n, init, events);
    RunFollows(cfg, owner, n, init, events, accounts, rounds);
    forall t | 0 <= t < n
      ensures Follows(owner, Own(s.log, t), progs[t]) && MovedSoFar(s.log, progs, i, t) == PaidSoFar(s.log, rounds, i, t)
    {
      PaidIsMoved(rounds[t], |Own(s.log, t)|, i);
    }
    SerialBalance(owner, init, s.log, progs, i);
    SumToSame((t: nat) => MovedSoFar(s.log, progs, i, t), (t: nat) => PaidSoFar(s.log, rounds, i, t), n);
  }

  // ---------- after the joins ----------

  predicate AllIdle(s: State) {
    forall t :: 0 <= t < |s.threads| ==> s.threads[t].Idle?
  }

  lemma IdleUnlocked(cfg: Config, n: nat, init: Mem, events: seq<Event>)
    requires AllIdle(After(cfg, n, init, events))
    ensures After(cfg, n, init, events).locked == {}
  {
    var s := After(cfg, n, init, events);
    LockWordHasOneOwner(cfg, n, init, events);
    forall k
      ensures k !in s.locked
    {
      assert k in s.locked ==> HasHolder(s, k);
    }
  }

  lemma NothingInHand(log: seq<Completed>, rounds: seq<seq<Round>>)
    requires forall t :: 0 <= t < |rounds| ==> |Own(log, t)| == |OpsOf(rounds[t])|
    ensures InHands(log, rounds) == 0
  {
    forall t | 0 <= t < |rounds|
      ensures InHand(log, rounds, t) == 0
    {
      RoundsEven(rounds[t]);
    }
    SumToZero((t: nat) => InHand(log, rounds, t), |rounds|);
  }

  /** The overall-balance check after the joins: every thread has left its loop after a whole round. */
  lemma BalanceCheckHolds(cfg: Config, owner: Addr -> int, n: nat, init: Mem, events: seq<Event>, accounts: nat,
                          rounds: seq<seq<Round>>)
    requires cfg.Discipline() != Mixed && InLoops(cfg, owner, n, init, events, accounts, rounds)
    requires AllIdle(After(cfg, n, init, events))
    requires forall t :: 0 <= t < n ==> |Issued(cfg, n, init, events, t)| == |OpsOf(rounds[t])|
    ensures Total(After(cfg, n, init, events).mem, accounts) == Total(init, accounts)
  {
    var s := After(cfg, n, init, events);
    IdleUnlocked(cfg, n, init, events);
    MoneyConserved(cfg, owner, n, init, events, accounts, rounds);
    forall t | 0 <= t < n
      ensures |Own(s.log, t)| == |OpsOf(rounds[t])|
    {
      CompletedInOrder(cfg, n, init, events, t);
    }
    NothingInHand(s.log, rounds);
  }

  // ---------- counters ----------

  ghost function Increments(owner: Addr -> int, counters: nat): iset<Section> {
    iset c | 0 <= c < counters :: SectionOf(owner, Deposit(c, 1))
  }

  lemma {:induction false} SerialCount(owner: Addr -> int, init: Mem, log: seq<Completed>, counters: nat)
    requires LogExplained(init, log) && forall i :: 0 <= i < |log| ==> log[i].sec in Increments(owner, counters)
    ensures Total(Serial(init, log), counters) == Total(init, counters) + |log|
    decreases |log|
  {
    if log != [] {
      var k := |log| - 1;
      ExplainedPrefix(init, log, k);
      SerialCount(owner, init, log[..k], counters);
      assert ExplainedAt(init, log, k);
      var c :| 0 <= c < counters && log[k].sec == SectionOf(owner, Deposit(c, 1));
      OpTotal(owner, Serial(init, log[..k]), log[k], Deposit(c, 1), counters);
    }
  }

  /**
   The counter check: when threads only increment counters, the counters together have grown
   by the number of completed increments.
   */
  lemma CounterCheckHolds(cfg: Config, owner: Addr -> int, n: nat, init: Mem, events: seq<Event>, counters: nat)
    requires cfg.Discipline() != Mixed && Enters(events, Increments(owner, counters))
    ensures var s := After(cfg, n, init, events);
      s.locked == {} ==> Total(s.mem, counters) == Total(init, counters) + |s.log|
  {
    var s := After(cfg, n, init, events);
    RunsSerialize(cfg, n, init, events);
    LogFromEntries(cfg, n, init, events, Increments(owner, counters));
    SerialCount(owner, init, s.log, counters);
    if s.locked == {} {
      TotalAgree(s.mem, Serial(init, s.log), counters);
    }
  }

  /** Each thread only increments its own counter. */
  ghost predicate InCounting(cfg: Config, owner: Addr -> int, n: nat, init: Mem, events: seq<Event>, counterOf: seq<int>) {
    && |counterOf| == n
    && forall t, j :: 0 <= t < n && 0 <= j < |Issued(cfg, n, init, events, t)| ==>
         Issued(cfg, n, init, events, t)[j] == SectionOf(owner, Deposit(counterOf[t], 1))
  }

  function Ones(c: int, k: nat): seq<Op> {
    seq(k, _ => Deposit(c, 1))
  }

  lemma {:induction false} MovedOnes(c: int, k: nat, j: nat, i: int)
    requires j <= k
    ensures Moved(Ones(c, k)[..j], i) == if c == i then j else 0
    decreases j
  {
    if j > 0 {
      MovedOnes(c, k, j - 1, i);
      MovedPush(Ones(c, k), j - 1, i);
    }
  }

  /** Increments that thread `t` has completed, if they go to counter `i`. */
  ghost function Counted(log: seq<Completed>, counterOf: seq<int>, i: int, t: nat): int {
    if t < |counterOf| && counterOf[t] == i then |Own(log, t)| else 0
  }

  /** Counter by counter: each has grown by the completed increments of the threads that use it. */
  lemma CounterValues(cfg: Config, owner: Addr -> int, n: nat, init: Mem, events: seq<Event>, counterOf: seq<int>, i: int)
    requires cfg.Discipline() != Mixed && InCounting(cfg, owner, n, init, events, counterOf)
    ensures var s := After(cfg, n, init, events);
      var value := Get(init, Word(i)) + SumTo((t: nat) => Counted(s.log, counterOf, i, t), n);
      && Get(Serial(init, s.log), Word(i)) == value
      && (s.locked == {} ==> Get(s.mem, Word(i)) == value)
  {
    var s := After(cfg, n, init, events);
    var progs := seq(n, t requires 0 <= t < n => Ones(counterOf[t], |Issued(cfg, n, init, events, t)|));
    RunsSerialize(cfg, n, init, events);
    LogThreads(cfg, n, init, events);
    forall t | 0 <= t < n
      ensures Follows(owner, Own(s.log, t), progs[t]) && MovedSoFar(s.log, progs, i, t) == Counted(s.log, counterOf, i, t)
    {
      CompletedInOrder(cfg, n, init, events, t);
      var issued := Issued(cfg, n, init, events, t);
      assert forall j :: 0 <= j < |Own(s.log, t)| ==> issued[j] == Own(s.log, t)[j];
      MovedOnes(counterOf[t], |issued|, |Own(s.log, t)|, i);
    }
    SerialBalance(owner, init, s.log, progs, i);
    SumToSame((t: nat) => MovedSoFar(s.log, progs, i, t), (t: nat) => Counted(s.log, counterOf, i, t), n);
  }
}

/** The store-buffering test: two transactions that each store one word and load the other. */
module StoreBuffering {
  import opened Sections
  import opened Elision
  import opened Serializability
  import opened ProgramOrder

  const X := Word(0)
  const Y := Word(1)
  const R1 := Word(2)
  const R2 := Word(3)

  /** Store 1 to `mine`, load `other`, keep what was loaded in `result`. */
  function Half(mine: Addr, other: Addr, result: Addr): Section {
    Section(0, (trace: seq<int>) =>
      if |trace| == 0 then Store(mine, 1)
      else if |trace| == 1 then Load(other)
      else if |trace| == 2 then Store(result, trace[1])
      else Done)
  }

  lemma HalfCompleted(m: Mem, c: Completed, mine: Addr, other: Addr, result: Addr)
    requires c.sec == Half(mine, other, result) && Explains(m, c) && mine != other
    ensures Alone(c.sec.next, m, |c.trace|).mem == m[mine := 1][result := Get(m, other)]
  {
    var p := c.sec.next;
    assert Alone(p, m, 0) == Solo(m, []);
    assert Alone(p, m, 1) == Solo(m[mine := 1], [1]);
    assert Alone(p, m, 2) == Solo(m[mine := 1], [1, Get(m, other)]);
    assert Alone(p, m, 3) == Solo(m[mine := 1][result := Get(m, other)], [1, Get(m, other), Get(m, other)]);
    if |c.trace| >= 3 {
      Finished(p, m, 3, |c.trace|);
    }
  }

  lemma SerialStore(init: Mem, log: seq<Completed>, c: Completed, a: Addr, v: int)
    requires c.sec == StoreSection(a, v) && |c.trace| == 1
    ensures Serial(init, log + [c]) == Serial(init, log)[a := v]
  {
    SerialPush(init, log, c);
    StoreAlone(Serial(init, log), a, v);
  }

  /** The log of a round: the two resets by the main thread, then both transactions in either order. */
  ghost predicate RoundEnds(log: seq<Completed>) {
    var k := |log|;
    && k >= 4
    && log[k - 4].sec == StoreSection(X, 0) && |log[k - 4].trace| == 1
    && log[k - 3].sec == StoreSection(Y, 0) && |log[k - 3].trace| == 1
    && ((IsHalf(log[k - 2], 1) && IsHalf(log[k - 1], 2)) || (IsHalf(log[k - 2], 2) && IsHalf(log[k - 1], 1)))
  }

  /** The half of thread `w`, completed by it. */
  ghost predicate IsHalf(c: Completed, w: nat) {
    c.thread == w && c.sec == HalfOf(w)
  }

  /** Both stores are there; the half that completed last saw the store of the other, which saw nothing. */
  predicate SecondSeesFirst(m: Mem, last: nat) {
    && Get(m, X) == 1 && Get(m, Y) == 1
    && ((last == 1 && Get(m, R1) == 1 && Get(m, R2) == 0) || (last == 2 && Get(m, R1) == 0 && Get(m, R2) == 1))
  }

  lemma RoundReset(init: Mem, log: seq<Completed>)
    requires RoundEnds(log)
    ensures var m := Serial(init, log[..|log| - 2]); Get(m, X) == 0 && Get(m, Y) == 0
  {
    var k := |log|;
    var l4, l3, l2 := log[..k - 4], log[..k - 3], log[..k - 2];
    assert l3 == l4 + [log[k - 4]] && l2 == l3 + [log[k - 3]];
    SerialStore(init, l4, log[k - 4], X, 0);
    SerialStore(init, l3, log[k - 3], Y, 0);
  }

  /** The first half sees 0, the second half sees the 1 of the first. */
  lemma TwoHalves(m: Mem, c: Completed, c': Completed, mine: Addr, other: Addr, r: Addr, r': Addr)
    requires mine != other && r != r' && r != mine && r != other && r' != mine && r' != other
    requires Get(m, mine) == 0 && Get(m, other) == 0
    requires c.sec == Half(mine, other, r) && Explains(m, c)
    requires c'.sec == Half(other, mine, r') && Explains(Alone(c.sec.next, m, |c.trace|).mem, c')
    ensures var m' := Alone(c'.sec.next, Alone(c.sec.next, m, |c.trace|).mem, |c'.trace|).mem;
      Get(m', r) == 0 && Get(m', r') == 1 && Get(m', mine) == 1 && Get(m', other) == 1
  {
    HalfCompleted(m, c, mine, other, r);
    HalfCompleted(m[mine := 1][r := 0], c', other, mine, r');
  }

  lemma LastTwo(init: Mem, log: seq<Completed>)
    requires LogExplained(init, log) && |log| >= 2
    ensures var k := |log|; var m := Serial(init, log[..k - 2]);
      var m' := Alone(log[k - 2].sec.next, m, |log[k - 2].trace|).mem;
      && Explains(m, log[k - 2]) && Explains(m', log[k - 1])
      && Serial(init, log) == Alone(log[k - 1].sec.next, m', |log[k - 1].trace|).mem
  {
    var k := |log|;
    assert ExplainedAt(init, log, k - 2) && ExplainedAt(init, log, k - 1);
    assert log[..k - 1] == log[..k - 2] + [log[k - 2]] && log == log[..k - 1] + [log[k - 1]];
    SerialPush(init, log[..k - 2], log[k - 2]);
  }

  lemma RoundSerial(init: Mem, log: seq<Completed>, m: Mem, m': Mem)
    requires RoundEnds(log) && m == Serial(init, log[..|log| - 2])
    requires Explains(m, log[|log| - 2])
    requires m' == Alone(log[|log| - 2].sec.next, m, |log[|log| - 2].trace|).mem && Explains(m', log[|log| - 1])
    ensures var end := Alone(log[|log| - 1].sec.next, m', |log[|log| - 1].trace|).mem;
      SecondSeesFirst(end, log[|log| - 1].thread)
  {
    RoundReset(init, log);
    var c, c' := log[|log| - 2], log[|log| - 1];
    if IsHalf(c, 1) && IsHalf(c', 2) {
      TwoHalves(m, c, c', X, Y, R1, R2);
    } else {
      TwoHalves(m, c, c', Y, X, R2, R1);
    }
  }

  // ---------- the rounds ----------

  /** Where the main thread is in its round: about to reset `X`, then `Y`; both halves signalled. */
  datatype Stage = ResetX | ResetY | Signalled(begun1: bool, begun2: bool)

  datatype Lab = Lab(m: State, stage: Stage)

  datatype Act =
    | Reset              // the next of the two resets by the main thread
    | Begin(w: nat)      // a half has got its signal
    | Inner(e: Event)    // a half goes on, aborts, or completes
    | Check              // both halves are complete; the main thread looks at the results

  /** Bare transactions; thread 0 is the main thread, threads 1 and 2 run the halves. */
  const BARE := Config({Naive})

  function HalfOf(w: nat): Section {
    if w == 1 then Half(X, Y, R1) else Half(Y, X, R2)
  }

  predicate Begun(stage: Stage, w: nat) {
    stage.Signalled? && if w == 1 then stage.begun1 else stage.begun2
  }

  function EventOf(l: Lab, act: Act): Event
    requires !act.Check?
  {
    match act
    case Reset => PlainStore(0, if l.stage.ResetX? then X else Y, 0)
    case Begin(w) => Enter(w, HalfOf(w), Naive)
    case Inner(e) => e
  }

  predicate RoundOver(l: Lab) {
    && l.stage == Signalled(true, true)
    && |l.m.threads| == 3 && l.m.threads[1].Idle? && l.m.threads[2].Idle?
  }

  predicate Can(l: Lab, act: Act) {
    if act.Check? then RoundOver(l)
    else
      && Enabled(BARE, l.m, EventOf(l, act))
      && match act
         case Reset => !l.stage.Signalled?
         case Begin(w) => 1 <= w <= 2 && l.stage.Signalled? && !Begun(l.stage, w)
         case Inner(e) => 1 <= e.t <= 2 && !e.Enter? && !e.PlainStore? && !e.GiveUp?
  }

  function DoAct(l: Lab, act: Act): Lab
    requires Can(l, act)
  {
    match act
    case Check => l.(stage := ResetX)
    case Reset => Lab(Do(BARE, l.m, EventOf(l, act)), if l.stage.ResetX? then ResetY else Signalled(false, false))
    case Begin(w) =>
      Lab(Do(BARE, l.m, EventOf(l, act)),
          if w == 1 then Signalled(true, Begun(l.stage, 2)) else Signalled(Begun(l.stage, 1), true))
    case Inner(e) => l.(m := Do(BARE, l.m, e))
  }

  /** The state after a sequence of acts; an act that cannot happen does not. */
  function Run(init: Mem, acts: seq<Act>): Lab
  {
    if acts == [] then Lab(State(init, {}, [Idle, Idle, Idle], []), ResetX)
    else
      var l := Run(init, acts[..|acts| - 1]);
      if Can(l, acts[|acts| - 1]) then DoAct(l, acts[|acts| - 1]) else l
  }

  /** The half has completed in this round. */
  predicate HalfDone(l: Lab, w: nat)
    requires w < |l.m.threads|
  {
    Begun(l.stage, w) && l.m.threads[w].Idle?
  }

  ghost predicate ThreadsInRound(l: Lab) {
    && |l.m.threads| == 3 && l.m.threads[0].Idle?
    && forall w :: 1 <= w <= 2 ==>
         if Begun(l.stage, w) then l.m.threads[w].Idle? || l.m.threads[w].sec == HalfOf(w) else l.m.threads[w].Idle?
  }

  ghost predicate Stored(c: Completed, a: Addr) {
    c.sec == StoreSection(a, 0) && |c.trace| == 1
  }

  /** The log ends with the resets of the round and the halves that are complete. */
  ghost predicate LogInRound(log: seq<Completed>, done1: bool, done2: bool) {
    var k := |log| - (if done1 then 1 else 0) - (if done2 then 1 else 0);
    && k >= 2 && Stored(log[k - 2], X) && Stored(log[k - 1], Y)
    && (done1 && !done2 ==> IsHalf(log[k], 1))
    && (done2 && !done1 ==> IsHalf(log[k], 2))
    && (done1 && done2 ==>
          (IsHalf(log[k], 1) && IsHalf(log[k + 1], 2)) || (IsHalf(log[k], 2) && IsHalf(log[k + 1], 1)))
  }

  ghost predicate LabInv(init: Mem, l: Lab) {
    && Inv(BARE, init, l.m) && ThreadsInRound(l)
    && (l.stage.ResetY? ==> l.m.log != [] && Stored(l.m.log[|l.m.log| - 1], X))
    && (l.stage.Signalled? ==> LogInRound(l.m.log, HalfDone(l, 1), HalfDone(l, 2)))
  }

  lemma ResetStep(init: Mem, l: Lab)
    requires LabInv(init, l) && Can(l, Reset)
    ensures LabInv(init, DoAct(l, Reset))
  {
    InvStep(BARE, init, l.m, EventOf(l, Reset));
    OrderActor(BARE, l.m, EventOf(l, Reset));
    forall w | 1 <= w <= 2
      ensures DoAct(l, Reset).m.threads[w].Idle?
    {
      assert l.m.threads[w].Idle?;
      OthersKept(BARE, l.m, EventOf(l, Reset), w);
    }
  }

  lemma BeginStep(init: Mem, l: Lab, w: nat)
    requires LabInv(init, l) && Can(l, Act.Begin(w))
    ensures LabInv(init, DoAct(l, Act.Begin(w)))
  {
    var e := EventOf(l, Act.Begin(w));
    InvStep(BARE, init, l.m, e);
    OrderActor(BARE, l.m, e);
  }

  /** What an inner event means for its half: it stays in it, or completes it. */
  lemma InnerActor(l: Lab, e: Event)
    requires ThreadsInRound(l) && Can(l, Inner(e))
    ensures var m' := Do(BARE, l.m, e); var ph' := m'.threads[e.t];
      && |m'.threads| == 3 && Begun(l.stage, e.t) && !l.m.threads[e.t].Idle?
      && (if ph'.Idle? then |m'.log| == |l.m.log| + 1 && m'.log[..|l.m.log|] == l.m.log && IsHalf(m'.log[|l.m.log|], e.t)
          else m'.log == l.m.log && ph'.sec == HalfOf(e.t))
  {
    OrderActor(BARE, l.m, e);
    ActorMoved(BARE, l.m, e);
    assert l.m.threads[e.t].sec == HalfOf(e.t);
  }

  lemma InnerThreads(l: Lab, e: Event)
    requires ThreadsInRound(l) && Can(l, Inner(e))
    ensures ThreadsInRound(DoAct(l, Inner(e)))
    ensures HalfDone(DoAct(l, Inner(e)), 3 - e.t) == HalfDone(l, 3 - e.t)
  {
    InnerActor(l, e);
    OthersKept(BARE, l.m, e, 0);
    OthersKept(BARE, l.m, e, 3 - e.t);
  }

  lemma LogGrows(log: seq<Completed>, log': seq<Completed>, w: nat, done1: bool, done2: bool)
    requires LogInRound(log, done1, done2) && 1 <= w <= 2 && !(if w == 1 then done1 else done2)
    requires |log'| == |log| + 1 && log'[..|log|] == log && IsHalf(log'[|log|], w)
    ensures LogInRound(log', done1 || w == 1, done2 || w == 2)
  {
    assert forall i :: 0 <= i < |log| ==> log'[i] == log[i];
  }

  lemma InnerStep(init: Mem, l: Lab, e: Event)
    requires LabInv(init, l) && Can(l, Inner(e))
    ensures LabInv(init, DoAct(l, Inner(e)))
  {
    var l' := DoAct(l, Inner(e));
    InvStep(BARE, init, l.m, e);
    InnerActor(l, e);
    InnerThreads(l, e);
    if l'.m.threads[e.t].Idle? {
      LogGrows(l.m.log, l'.m.log, e.t, HalfDone(l, 1), HalfDone(l, 2));
    }
  }

  lemma {:induction false} RunLab(init: Mem, acts: seq<Act>)
    ensures LabInv(init, Run(init, acts))
  {
    if acts == [] {
      RunInv(BARE, 3, init, []);
      assert After(BARE, 3, init, []) == Run(init, []).m;
    } else {
      var l, act := Run(init, acts[..|acts| - 1]), acts[|acts| - 1];
      RunLab(init, acts[..|acts| - 1]);
      if Can(l, act) {
        match act
        case Reset => ResetStep(init, l);
        case Begin(w) => BeginStep(init, l, w);
        case Inner(e) => InnerStep(init, l, e);
        case Check =>
      }
    }
  }

  lemma RoundLog(l: Lab)
    requires ThreadsInRound(l) && RoundOver(l) && LogInRound(l.m.log, HalfDone(l, 1), HalfDone(l, 2))
    ensures RoundEnds(l.m.log)
  {
  }

  lemma RoundResult(init: Mem, log: seq<Completed>)
    requires LogExplained(init, log) && RoundEnds(log)
    ensures SecondSeesFirst(Serial(init, log), log[|log| - 1].thread)
  {
    LastTwo(init, log);
    var m := Serial(init, log[..|log| - 2]);
    RoundSerial(init, log, m, Alone(log[|log| - 2].sec.next, m, |log[|log| - 2].trace|).mem);
  }

  lemma NobodyOwns(init: Mem, m: State, a: Addr)
    requires Inv(BARE, init, m)
    ensures Get(m.mem, a) == Get(Serial(init, m.log), a)
  {
    assert Unused(m, a);
  }

  lemma SeenInMemory(init: Mem, m: State, last: nat)
    requires Inv(BARE, init, m) && SecondSeesFirst(Serial(init, m.log), last)
    ensures SecondSeesFirst(m.mem, last)
  {
    NobodyOwns(init, m, R1);
    NobodyOwns(init, m, R2);
    NobodyOwns(init, m, X);
    NobodyOwns(init, m, Y);
  }

  lemma RoundSeen(init: Mem, l: Lab)
    requires LabInv(init, l) && RoundOver(l)
    ensures l.m.log != [] && SecondSeesFirst(l.m.mem, l.m.log[|l.m.log| - 1].thread)
  {
    RoundLog(l);
    RoundResult(init, l.m.log);
    SeenInMemory(init, l.m, l.m.log[|l.m.log| - 1].thread);
  }

  /**
   No reordering is ever seen: whenever the main thread gets to check a round, after
   whatever rounds, interleavings, aborts and retries, the half that completed last has 1 as
   its result and the other half has 0.
   */
  lemma OneResultSeesTheOther(init: Mem, acts: seq<Act>)
    requires RoundOver(Run(init, acts))
    ensures var s := Run(init, acts).m; s.log != [] && SecondSeesFirst(s.mem, s.log[|s.log| - 1].thread)
  {
    RunLab(init, acts);
    RoundSeen(init, Run(init, acts));
  }
}
