/**
 The bucket operations of the hash map as programs over shared words: walk the list of a
 bucket from its head, then link a new item at the end, unlink the item found, or just
 report.  What they do is stated against the list of items a bucket holds.
 */
module HashPrograms {
  import opened Sections
  import opened Sequences

  /** NULL is 0; an item has a positive id. */
  datatype Op = Insert(v: int, node: int) | Remove(v: int) | Contains(v: int)

  /** Where the walk stands: the next load, or stopped at an item (0: at the end), reached through `link`. */
  datatype Walk = Step(action: Action) | Stopped(link: Addr, item: int, tail: seq<int>)

  function WalkFrom(trace: seq<int>, link: Addr, v: int): Walk
    decreases |trace|
  {
    if |trace| == 0 then Step(Load(link))
    else if trace[0] == 0 then Stopped(link, 0, trace[1..])
    else if |trace| == 1 then Step(Load(Data(trace[0])))
    else if trace[1] == v then Stopped(link, trace[0], trace[2..])
    else WalkFrom(trace[2..], Succ(trace[0]), v)
  }

  /** What an operation does once the walk has stopped. */
  function Finish(op: Op, link: Addr, item: int, tail: seq<int>): Action {
    match op
    case Insert(_, node) => if item == 0 && |tail| == 0 then Store(link, node) else Done
    case Remove(_) =>
      if item == 0 then Done
      else if |tail| == 0 then Load(Succ(item))
      else if |tail| == 1 then Store(link, tail[0])
      else Done
    case Contains(_) => Done
  }

  function Walker(op: Op, link: Addr): Prog {
    (trace: seq<int>) =>
      match WalkFrom(trace, link, op.v)
      case Step(action) => action
      case Stopped(l, item, tail) => Finish(op, l, item, tail)
  }

  function Finisher(op: Op, link: Addr, item: int): Prog {
    (tail: seq<int>) => Finish(op, link, item, tail)
  }

  /** The bucket of a value; values are not negative. */
  function Bucket(v: int, size: nat): int
    requires size > 0
  {
    v % size
  }

  function SectionOf(op: Op, size: nat): Section
    requires size > 0
  {
    Section(Bucket(op.v, size), Walker(op, Head(Bucket(op.v, size))))
  }

  // ---------- lists in memory ----------

  function Nth(c: seq<int>, i: nat): int {
    if i < |c| then c[i] else 0
  }

  /** From `link` on, memory links exactly the items of `c`. */
  predicate ChainFrom(m: Mem, link: Addr, c: seq<int>)
    decreases |c|
  {
    Get(m, link) == Nth(c, 0) && (c != [] ==> c[0] > 0 && ChainFrom(m, Succ(c[0]), c[1..]))
  }

  /** Position of the first item with the value, or the length. */
  function Found(m: Mem, c: seq<int>, v: int): (k: nat)
    ensures k <= |c|
    ensures k < |c| ==> Get(m, Data(c[k])) == v
    ensures forall i :: 0 <= i < k ==> Get(m, Data(c[i])) != v
  {
    if c == [] then 0
    else if Get(m, Data(c[0])) == v then 0
    else 1 + Found(m, c[1..], v)
  }

  function LinkAt(link: Addr, c: seq<int>, k: nat): Addr
    requires k <= |c|
  {
    if k == 0 then link else Succ(c[k - 1])
  }

  // ---------- running the walk ----------

  /** Loads only, followed by more actions. */
  function Join(a: Tx, b: Tx): Tx {
    Tx(a.trace + b.trace, a.loaded + b.loaded, b.stored)
  }

  lemma JoinStep(p: Prog, q: Prog, m: Mem, a: Tx, b: Tx)
    requires q(b.trace) == p(a.trace + b.trace)
    ensures TxStep(p, m, Join(a, b)) == Join(a, TxStep(q, m, b))
  {
    match q(b.trace)
    case Load(x) =>
      var v := if x in b.stored then b.stored[x] else Get(m, x);
      assert a.trace + (b.trace + [v]) == a.trace + b.trace + [v];
      assert a.loaded + (b.loaded + {x}) == a.loaded + b.loaded + {x};
    case Store(_, v) =>
      assert a.trace + (b.trace + [v]) == a.trace + b.trace + [v];
    case Done =>
  }

  lemma JoinAssociates(a: Tx, b: Tx, c: Tx)
    ensures Join(Join(a, b), c) == Join(a, Join(b, c))
  {
    assert a.trace + (b.trace + c.trace) == a.trace + b.trace + c.trace;
    assert a.loaded + (b.loaded + c.loaded) == a.loaded + b.loaded + c.loaded;
  }

  /** The program makes exactly the loads `a`, then goes on as `q`. */
  ghost predicate Reaches(p: Prog, m: Mem, a: Tx, q: Prog) {
    forall n: nat {:trigger TxRun(q, m, n)} :: TxRun(p, m, |a.trace| + n) == Join(a, TxRun(q, m, n))
  }

  lemma {:induction false} Residual(p: Prog, q: Prog, m: Mem, n: nat, a: Tx)
    requires a == TxRun(p, m, |a.trace|) && a.stored == map[]
    requires forall tail :: q(tail) == p(a.trace + tail)
    ensures TxRun(p, m, |a.trace| + n) == Join(a, TxRun(q, m, n))
  {
    if n == 0 {
      assert a.trace + [] == a.trace;
      assert a.loaded + {} == a.loaded;
    } else {
      Residual(p, q, m, n - 1, a);
      var b := TxRun(q, m, n - 1);
      assert q(b.trace) == p(a.trace + b.trace);
      JoinStep(p, q, m, a, b);
    }
  }

  lemma ReachesResidual(p: Prog, q: Prog, m: Mem, a: Tx)
    requires a == TxRun(p, m, |a.trace|) && a.stored == map[]
    requires forall tail :: q(tail) == p(a.trace + tail)
    ensures Reaches(p, m, a, q)
  {
    forall n: nat
      ensures TxRun(p, m, |a.trace| + n) == Join(a, TxRun(q, m, n))
    {
      Residual(p, q, m, n, a);
    }
  }

  lemma ReachesOn(p: Prog, q: Prog, r: Prog, m: Mem, a: Tx, b: Tx)
    requires Reaches(p, m, a, q) && Reaches(q, m, b, r)
    ensures Reaches(p, m, Join(a, b), r)
  {
    forall n: nat
      ensures TxRun(p, m, |Join(a, b).trace| + n) == Join(Join(a, b), TxRun(r, m, n))
    {
      assert TxRun(q, m, |b.trace| + n) == Join(b, TxRun(r, m, n));
      assert TxRun(p, m, |a.trace| + (|b.trace| + n)) == Join(a, TxRun(q, m, |b.trace| + n));
      JoinAssociates(a, b, TxRun(r, m, n));
    }
  }

  /** The complete search: every load it makes. */
  function SearchTx(m: Mem, link: Addr, c: seq<int>, v: int): Tx
    decreases |c|
  {
    if c == [] then Tx([0], {link}, map[])
    else
      var d := Get(m, Data(c[0]));
      var first := Tx([c[0], d], {link, Data(c[0])}, map[]);
      if d == v then first else Join(first, SearchTx(m, Succ(c[0]), c[1..], v))
  }

  lemma FirstItem(m: Mem, op: Op, link: Addr)
    requires Get(m, link) != 0
    ensures var p := Get(m, link); TxRun(Walker(op, link), m, 2) == Tx([p, Get(m, Data(p))], {link, Data(p)}, map[])
  {
    var w, p := Walker(op, link), Get(m, link);
    assert TxRun(w, m, 0) == EMPTY_TX;
    assert TxRun(w, m, 1) == Tx([p], {link}, map[]);
  }

  lemma SearchAtEnd(m: Mem, op: Op, link: Addr)
    requires Get(m, link) == 0
    ensures Reaches(Walker(op, link), m, Tx([0], {link}, map[]), Finisher(op, link, 0))
  {
    var w, q, a := Walker(op, link), Finisher(op, link, 0), Tx([0], {link}, map[]);
    assert TxRun(w, m, 0) == EMPTY_TX;
    assert TxRun(w, m, 1) == a;
    forall tail
      ensures q(tail) == w([0] + tail)
    {
      assert ([0] + tail)[1..] == tail;
    }
    ReachesResidual(w, q, m, a);
  }

  lemma WalkOn(op: Op, link: Addr, p: int, d: int, tail: seq<int>)
    requires p != 0
    ensures Walker(op, link)([p, d] + tail) ==
      if d == op.v then Finisher(op, link, p)(tail) else Walker(op, Succ(p))(tail)
  {
    assert ([p, d] + tail)[2..] == tail;
  }

  lemma SearchAtItem(m: Mem, op: Op, link: Addr, p: int, d: int)
    requires p == Get(m, link) != 0 && d == Get(m, Data(p))
    ensures Reaches(Walker(op, link), m, Tx([p, d], {link, Data(p)}, map[]),
                    if d == op.v then Finisher(op, link, p) else Walker(op, Succ(p)))
  {
    var w, a := Walker(op, link), Tx([p, d], {link, Data(p)}, map[]);
    var q := if d == op.v then Finisher(op, link, p) else Walker(op, Succ(p));
    FirstItem(m, op, link);
    forall tail
      ensures q(tail) == w(a.trace + tail)
    {
      WalkOn(op, link, p, d, tail);
    }
    ReachesResidual(w, q, m, a);
  }

  /** What is left of the operation where its search stops. */
  function Ending(m: Mem, op: Op, link: Addr, c: seq<int>): Prog {
    var k := Found(m, c, op.v);
    Finisher(op, LinkAt(link, c, k), Nth(c, k))
  }

  lemma EndingLater(m: Mem, op: Op, link: Addr, c: seq<int>)
    requires c != [] && Get(m, Data(c[0])) != op.v
    ensures Ending(m, op, link, c) == Ending(m, op, Succ(c[0]), c[1..])
  {
    var k := Found(m, c, op.v);
    assert LinkAt(link, c, k) == LinkAt(Succ(c[0]), c[1..], k - 1);
    assert Nth(c, k) == Nth(c[1..], k - 1);
  }

  /** The search makes its loads and then the operation finishes at the place found. */
  lemma {:induction false} SearchRuns(m: Mem, op: Op, link: Addr, c: seq<int>)
    requires ChainFrom(m, link, c)
    ensures Reaches(Walker(op, link), m, SearchTx(m, link, c, op.v), Ending(m, op, link, c))
    decreases |c|
  {
    if c == [] {
      SearchAtEnd(m, op, link);
    } else {
      var d := Get(m, Data(c[0]));
      SearchAtItem(m, op, link, c[0], d);
      if d != op.v {
        SearchRuns(m, op, Succ(c[0]), c[1..]);
        EndingLater(m, op, link, c);
        ReachesOn(Walker(op, link), Walker(op, Succ(c[0])), Ending(m, op, link, c), m,
                  Tx([c[0], d], {link, Data(c[0])}, map[]), SearchTx(m, Succ(c[0]), c[1..], op.v));
      }
    }
  }

  // ---------- complete operations ----------

  /** What an operation has done when it is through with the place found. */
  function EndTx(m: Mem, op: Op, link: Addr, item: int): Tx {
    match op
    case Insert(_, node) => if item == 0 then Tx([node], {}, map[link := node]) else EMPTY_TX
    case Remove(_) =>
      if item == 0 then EMPTY_TX
      else var s := Get(m, Succ(item)); Tx([s, s], {Succ(item)}, map[link := s])
    case Contains(_) => EMPTY_TX
  }

  lemma EndRuns(m: Mem, op: Op, link: Addr, item: int)
    requires link != Succ(item)
    ensures var q := Finisher(op, link, item);
      TxRun(q, m, 2) == EndTx(m, op, link, item) && q(EndTx(m, op, link, item).trace).Done?
  {
    var q := Finisher(op, link, item);
    assert TxRun(q, m, 0) == EMPTY_TX;
    match op
    case Insert(_, node) =>
      if item == 0 { assert TxRun(q, m, 1) == Tx([node], {}, map[link := node]); }
    case Remove(_) =>
      if item != 0 {
        var s := Get(m, Succ(item));
        assert TxRun(q, m, 1) == Tx([s], {Succ(item)}, map[]);
      }
    case Contains(_) =>
  }

  /** The whole operation on a bucket that holds the items `c`. */
  function OpTx(m: Mem, op: Op, link: Addr, c: seq<int>): Tx {
    var k := Found(m, c, op.v);
    Join(SearchTx(m, link, c, op.v), EndTx(m, op, LinkAt(link, c, k), Nth(c, k)))
  }

  lemma {:induction false} WalkToEnd(m: Mem, op: Op, link: Addr, c: seq<int>, tail: seq<int>)
    requires ChainFrom(m, link, c)
    ensures var k := Found(m, c, op.v);
      WalkFrom(SearchTx(m, link, c, op.v).trace + tail, link, op.v) == Stopped(LinkAt(link, c, k), Nth(c, k), tail)
    decreases |c|
  {
    var k := Found(m, c, op.v);
    if c == [] {
      assert ([0] + tail)[1..] == tail;
    } else {
      var d := Get(m, Data(c[0]));
      if d == op.v {
        assert ([c[0], d] + tail)[2..] == tail;
      } else {
        var rest := SearchTx(m, Succ(c[0]), c[1..], op.v).trace;
        WalkToEnd(m, op, Succ(c[0]), c[1..], tail);
        assert ([c[0], d] + rest + tail)[2..] == rest + tail;
        assert LinkAt(link, c, k) == LinkAt(Succ(c[0]), c[1..], k - 1);
        assert Nth(c, k) == Nth(c[1..], k - 1);
      }
    }
  }

  lemma PlaceApart(m: Mem, op: Op, c: seq<int>, h: int)
    requires ChainFrom(m, Head(h), c) && Distinct(c)
    ensures var k := Found(m, c, op.v); LinkAt(Head(h), c, k) != Succ(Nth(c, k))
  {
    var k := Found(m, c, op.v);
    if k > 0 { ChainPositive(m, Head(h), c, k - 1); }
  }

  lemma {:induction false} ChainPositive(m: Mem, link: Addr, c: seq<int>, i: nat)
    requires ChainFrom(m, link, c) && i < |c|
    ensures c[i] > 0 && Get(m, LinkAt(link, c, i)) == c[i] && Get(m, Succ(c[i])) == Nth(c, i + 1)
    decreases |c|
  {
    if i > 0 {
      ChainPositive(m, Succ(c[0]), c[1..], i - 1);
    }
  }

  /** With the whole operation done, the program is at its end. */
  lemma OpEnds(m: Mem, op: Op, h: int, c: seq<int>)
    requires ChainFrom(m, Head(h), c) && Distinct(c)
    ensures Walker(op, Head(h))(OpTx(m, op, Head(h), c).trace).Done?
  {
    var k := Found(m, c, op.v);
    var l, item := LinkAt(Head(h), c, k), Nth(c, k);
    WalkToEnd(m, op, Head(h), c, EndTx(m, op, l, item).trace);
    PlaceApart(m, op, c, h);
    EndRuns(m, op, l, item);
  }

  /** From then on nothing changes. */
  lemma OpStays(m: Mem, op: Op, h: int, c: seq<int>, n: nat)
    requires ChainFrom(m, Head(h), c) && Distinct(c) && n >= |SearchTx(m, Head(h), c, op.v).trace| + 2
    ensures TxRun(Walker(op, Head(h)), m, n) == OpTx(m, op, Head(h), c)
  {
    OpRuns(m, op, h, c);
    OpEnds(m, op, h, c);
    TxFinished(Walker(op, Head(h)), m, |SearchTx(m, Head(h), c, op.v).trace| + 2, n);
  }

  /** A run of the operation that has come to its end has done exactly the whole operation. */
  lemma OpCompletes(m: Mem, op: Op, h: int, c: seq<int>, n: nat)
    requires ChainFrom(m, Head(h), c) && Distinct(c)
    requires Walker(op, Head(h))(TxRun(Walker(op, Head(h)), m, n).trace).Done?
    ensures TxRun(Walker(op, Head(h)), m, n) == OpTx(m, op, Head(h), c)
  {
    var full := |SearchTx(m, Head(h), c, op.v).trace| + 2;
    if n <= full {
      OpStays(m, op, h, c, full);
      TxFinished(Walker(op, Head(h)), m, n, full);
    } else {
      OpStays(m, op, h, c, n);
    }
  }

  lemma OpRuns(m: Mem, op: Op, h: int, c: seq<int>)
    requires ChainFrom(m, Head(h), c) && Distinct(c)
    ensures TxRun(Walker(op, Head(h)), m, |SearchTx(m, Head(h), c, op.v).trace| + 2) == OpTx(m, op, Head(h), c)
  {
    var k := Found(m, c, op.v);
    SearchRuns(m, op, Head(h), c);
    PlaceApart(m, op, c, h);
    EndRuns(m, op, LinkAt(Head(h), c, k), Nth(c, k));
  }

  // ---------- what an operation touches ----------

  /** The head of the bucket, or a field of one of its items. */
  predicate InBucket(a: Addr, h: int, c: seq<int>) {
    a == Head(h) || (a.Data? && a.node in c) || (a.Succ? && a.node in c)
  }

  lemma {:induction false} SearchTouches(m: Mem, link: Addr, c: seq<int>, v: int)
    ensures forall a :: a in SearchTx(m, link, c, v).loaded ==>
      a == link || (a.Data? && a.node in c) || (a.Succ? && a.node in c)
    decreases |c|
  {
    if c != [] {
      SearchTouches(m, Succ(c[0]), c[1..], v);
      assert forall x :: x in c[1..] ==> x in c;
    }
  }

  lemma OpTxTouches(m: Mem, op: Op, h: int, c: seq<int>)
    requires ChainFrom(m, Head(h), c)
    ensures var tx := OpTx(m, op, Head(h), c); forall a :: a in tx.loaded || a in tx.stored ==> InBucket(a, h, c)
  {
    var k := Found(m, c, op.v);
    SearchTouches(m, Head(h), c, op.v);
    if k > 0 {
      assert c[k - 1] in c;
    }
    if k < |c| {
      ChainPositive(m, Head(h), c, k);
      assert c[k] in c;
    }
  }

  /** At every moment an operation has touched only its bucket as the list stands. */
  lemma OpTouches(m: Mem, op: Op, h: int, c: seq<int>, n: nat)
    requires ChainFrom(m, Head(h), c) && Distinct(c)
    ensures var tx := TxRun(Walker(op, Head(h)), m, n);
      forall a :: a in tx.loaded || a in tx.stored ==> InBucket(a, h, c)
  {
    var full := |SearchTx(m, Head(h), c, op.v).trace| + 2;
    OpTxTouches(m, op, h, c);
    if n <= full {
      OpStays(m, op, h, c, full);
      TxGrows(Walker(op, Head(h)), m, n, full);
    } else {
      OpStays(m, op, h, c, n);
    }
  }
}
