/**
 Critical sections as programs over shared words, run alone and run in a hardware
 transaction that keeps its stores to itself.
 */
module Sections {

  /** Shared words: plain variables, bucket heads, and the two fields of a list item. */
  datatype Addr = Word(n: int) | Head(bucket: int) | Data(node: int) | Succ(node: int)

  /** Shared memory; a word never stored to reads as zero. */
  type Mem = map<Addr, int>

  function Get(m: Mem, a: Addr): int {
    if a in m then m[a] else 0
  }

  datatype Action = Load(a: Addr) | Store(a: Addr, v: int) | Done

  /** A program chooses its next action from what it has loaded and stored so far. */
  type Prog = seq<int> -> Action

  /** A section of code together with the lock that guards it. */
  datatype Section = Section(lock: int, next: Prog)

  // ---------- alone ----------

  datatype Solo = Solo(mem: Mem, trace: seq<int>)

  /** `n` actions of the program with the memory to itself; this is the reference meaning. */
  function Alone(p: Prog, m: Mem, n: nat): Solo
  {
    if n == 0 then Solo(m, [])
    else
      var s := Alone(p, m, n - 1);
      match p(s.trace)
      case Load(a) => s.(trace := s.trace + [Get(s.mem, a)])
      case Store(a, v) => Solo(s.mem[a := v], s.trace + [v])
      case Done => s
  }

  // ---------- in a transaction ----------

  /** Words loaded from memory, and stores not yet visible to anybody else. */
  datatype Tx = Tx(trace: seq<int>, loaded: set<Addr>, stored: Mem)

  const EMPTY_TX := Tx([], {}, map[])

  function TxStep(p: Prog, m: Mem, tx: Tx): Tx {
    match p(tx.trace)
    case Load(a) =>
      if a in tx.stored then tx.(trace := tx.trace + [tx.stored[a]])
      else Tx(tx.trace + [Get(m, a)], tx.loaded + {a}, tx.stored)
    case Store(a, v) => Tx(tx.trace + [v], tx.loaded, tx.stored[a := v])
    case Done => tx
  }

  function TxRun(p: Prog, m: Mem, n: nat): Tx
  {
    if n == 0 then EMPTY_TX else TxStep(p, m, TxRun(p, m, n - 1))
  }

  predicate Agree(m: Mem, m': Mem, addrs: set<Addr>) {
    forall a :: a in addrs ==> Get(m, a) == Get(m', a)
  }

  /** A transaction depends on memory only through the words it has loaded. */
  lemma {:induction false} TxLocal(p: Prog, m: Mem, m': Mem, n: nat)
    requires Agree(m, m', TxRun(p, m, n).loaded)
    ensures TxRun(p, m', n) == TxRun(p, m, n)
  {
    if n > 0 {
      assert TxRun(p, m, n - 1).loaded <= TxRun(p, m, n).loaded;
      TxLocal(p, m, m', n - 1);
    }
  }

  /** Publishing the stores of a transaction all at once is what the program does alone. */
  lemma {:induction false} TxIsAlone(p: Prog, m: Mem, n: nat)
    ensures var tx := TxRun(p, m, n); Alone(p, m, n) == Solo(m + tx.stored, tx.trace)
  {
    if n > 0 {
      TxIsAlone(p, m, n - 1);
      var tx := TxRun(p, m, n - 1);
      match p(tx.trace)
      case Load(a) => assert Get(m + tx.stored, a) == if a in tx.stored then tx.stored[a] else Get(m, a);
      case Store(a, v) => assert (m + tx.stored)[a := v] == m + tx.stored[a := v];
      case Done =>
    } else {
      assert m + map[] == m;
    }
  }

  /** What a transaction has touched it stays in touch with. */
  lemma {:induction false} TxGrows(p: Prog, m: Mem, k: nat, n: nat)
    requires k <= n
    ensures TxRun(p, m, k).loaded <= TxRun(p, m, n).loaded
    ensures TxRun(p, m, k).stored.Keys <= TxRun(p, m, n).stored.Keys
    decreases n
  {
    if k < n {
      TxGrows(p, m, k, n - 1);
    }
  }

  lemma {:induction false} TxFinished(p: Prog, m: Mem, k: nat, n: nat)
    requires k <= n && p(TxRun(p, m, k).trace).Done?
    ensures TxRun(p, m, n) == TxRun(p, m, k)
    decreases n
  {
    if k < n {
      TxFinished(p, m, k, n - 1);
    }
  }

  // ---------- one after the other ----------

  /** A section that a thread ran to its end, with everything it loaded and stored. */
  datatype Completed = Completed(thread: nat, sec: Section, trace: seq<int>)

  /** Memory after the sections of the log, run one by one. */
  function Serial(m: Mem, log: seq<Completed>): Mem
  {
    if log == [] then m
    else
      var c := log[|log| - 1];
      Alone(c.sec.next, Serial(m, log[..|log| - 1]), |c.trace|).mem
  }

  /** Run alone at its place in the log, the section sees what it saw, and is finished. */
  predicate Explains(m: Mem, c: Completed) {
    Alone(c.sec.next, m, |c.trace|).trace == c.trace && c.sec.next(c.trace).Done?
  }

  predicate ExplainedAt(m: Mem, log: seq<Completed>, i: nat)
    requires i < |log|
  {
    Explains(Serial(m, log[..i]), log[i])
  }

  predicate LogExplained(m: Mem, log: seq<Completed>) {
    forall i {:trigger ExplainedAt(m, log, i)} :: 0 <= i < |log| ==> ExplainedAt(m, log, i)
  }

  lemma SerialPush(m: Mem, log: seq<Completed>, c: Completed)
    ensures Serial(m, log + [c]) == Alone(c.sec.next, Serial(m, log), |c.trace|).mem
  {
    assert (log + [c])[..|log|] == log;
  }

  lemma ExplainedPush(m: Mem, log: seq<Completed>, c: Completed)
    requires LogExplained(m, log) && Explains(Serial(m, log), c)
    ensures LogExplained(m, log + [c])
  {
    var log' := log + [c];
    forall i | 0 <= i < |log'|
      ensures ExplainedAt(m, log', i)
    {
      if i == |log| {
        assert log'[..i] == log;
      } else {
        assert log'[..i] == log[..i];
        assert ExplainedAt(m, log, i);
      }
    }
  }

  lemma ExplainedPrefix(m: Mem, log: seq<Completed>, k: nat)
    requires LogExplained(m, log) && k <= |log|
    ensures LogExplained(m, log[..k])
  {
    forall i | 0 <= i < k
      ensures ExplainedAt(m, log[..k], i)
    {
      assert log[..k][..i] == log[..i];
      assert ExplainedAt(m, log, i);
    }
  }

  // ---------- the smallest update ----------

  /** Adds `k` to one shared word: a load, then a store. */
  function AddTo(lock: int, a: Addr, k: int): Section {
    Section(lock, (trace: seq<int>) =>
      if |trace| == 0 then Load(a) else if |trace| == 1 then Store(a, trace[0] + k) else Done)
  }

  lemma AddAlone(m: Mem, lock: int, a: Addr, k: int)
    ensures var v := Get(m, a); Alone(AddTo(lock, a, k).next, m, 2) == Solo(m[a := v + k], [v, v + k])
  {
    var p := AddTo(lock, a, k).next;
    assert Alone(p, m, 0) == Solo(m, []);
    assert Alone(p, m, 1) == Solo(m, [Get(m, a)]);
  }

  /** A program that is finished stays as it is. */
  lemma {:induction false} Finished(p: Prog, m: Mem, k: nat, n: nat)
    requires k <= n && p(Alone(p, m, k).trace).Done?
    ensures Alone(p, m, n) == Alone(p, m, k)
    decreases n
  {
    if k < n {
      Finished(p, m, k, n - 1);
    }
  }

  /** A completed update has added `k`, whatever it saw. */
  lemma AddCompleted(m: Mem, c: Completed, lock: int, a: Addr, k: int)
    requires c.sec == AddTo(lock, a, k) && Explains(m, c)
    ensures |c.trace| == 2 && Alone(c.sec.next, m, |c.trace|).mem == m[a := Get(m, a) + k]
  {
    AddAlone(m, lock, a, k);
    if |c.trace| >= 2 {
      Finished(c.sec.next, m, 2, |c.trace|);
    }
  }
}
