/**
 The hash map as a whole: buckets that are linked lists of items, each value in the bucket
 of its hash and nowhere twice, and the set of values the map stands for.
 */
module HashBuckets {
  import opened Sections
  import opened HashPrograms
  import opened Sequences

  // ---------- one bucket ----------

  /** The items of the bucket after the operation. */
  function NewChain(m: Mem, op: Op, c: seq<int>): seq<int> {
    var k := Found(m, c, op.v);
    match op
    case Insert(_, node) => if k == |c| then c + [node] else c
    case Remove(_) => if k < |c| then Without(c, k) else c
    case Contains(_) => c
  }

  lemma {:induction false} ChainAgree(m: Mem, m': Mem, link: Addr, c: seq<int>)
    requires ChainFrom(m, link, c) && Get(m', link) == Get(m, link)
    requires forall x :: x in c ==> Get(m', Succ(x)) == Get(m, Succ(x))
    ensures ChainFrom(m', link, c)
    decreases |c|
  {
    if c != [] {
      assert c[0] in c && forall x :: x in c[1..] ==> x in c;
      ChainAgree(m, m', Succ(c[0]), c[1..]);
    }
  }

  lemma {:induction false} AppendChain(m: Mem, link: Addr, c: seq<int>, node: int)
    requires ChainFrom(m, link, c) && Distinct(c) && node > 0 && node !in c && Get(m, Succ(node)) == 0
    requires link != Succ(node) && forall x :: x in c ==> link != Succ(x)
    ensures ChainFrom(m[LinkAt(link, c, |c|) := node], link, c + [node])
    decreases |c|
  {
    if c == [] {
      assert (c + [node])[1..] == [];
    } else {
      assert c[0] in c && forall x :: x in c[1..] ==> x in c;
      assert forall x :: x in c[1..] ==> x != c[0];
      assert c[|c| - 1] in c;
      AppendChain(m, Succ(c[0]), c[1..], node);
      assert LinkAt(link, c, |c|) == LinkAt(Succ(c[0]), c[1..], |c| - 1);
      assert (c + [node])[1..] == c[1..] + [node];
    }
  }

  lemma UnlinkFirst(m: Mem, link: Addr, c: seq<int>)
    requires ChainFrom(m, link, c) && c != [] && forall x :: x in c ==> link != Succ(x)
    ensures ChainFrom(m[link := Nth(c, 1)], link, c[1..])
  {
    var c', m' := c[1..], m[link := Nth(c, 1)];
    assert Nth(c', 0) == Nth(c, 1);
    if c' != [] {
      assert c'[0] in c && forall x :: x in c'[1..] ==> x in c;
      ChainAgree(m, m', Succ(c'[0]), c'[1..]);
    }
  }

  lemma WithoutLater(c: seq<int>, k: nat)
    requires 0 < k < |c|
    ensures Without(c, k)[0] == c[0] && Without(c, k)[1..] == Without(c[1..], k - 1) && Nth(c[1..], k) == Nth(c, k + 1)
  {
  }

  lemma {:induction false} UnlinkChain(m: Mem, link: Addr, c: seq<int>, k: nat)
    requires ChainFrom(m, link, c) && Distinct(c) && k < |c|
    requires forall x :: x in c ==> link != Succ(x)
    ensures ChainFrom(m[LinkAt(link, c, k) := Nth(c, k + 1)], link, Without(c, k))
    decreases |c|
  {
    if k == 0 {
      UnlinkFirst(m, link, c);
      assert Without(c, 0) == c[1..];
    } else {
      var rest := c[1..];
      assert forall x :: x in rest ==> x in c && x != c[0];
      UnlinkChain(m, Succ(c[0]), rest, k - 1);
      WithoutLater(c, k);
      assert LinkAt(link, c, k) == LinkAt(Succ(c[0]), rest, k - 1);
      assert c[k - 1] in c;
    }
  }

  /** Values are not negative, hash to this bucket, and no two items hold the same one. */
  predicate ValuesOk(m: Mem, size: nat, h: int, c: seq<int>)
    requires size > 0
  {
    && (forall x :: x in c ==> Get(m, Data(x)) >= 0 && Bucket(Get(m, Data(x)), size) == h)
    && (forall i, j :: 0 <= i < j < |c| ==> Get(m, Data(c[i])) != Get(m, Data(c[j])))
  }

  ghost predicate BucketOk(m: Mem, size: nat, h: int, c: seq<int>)
    requires size > 0
  {
    ChainFrom(m, Head(h), c) && Distinct(c) && ValuesOk(m, size, h, c)
  }

  predicate Has(m: Mem, c: seq<int>, v: int) {
    exists i :: 0 <= i < |c| && Get(m, Data(c[i])) == v
  }

  lemma HasFound(m: Mem, c: seq<int>, v: int)
    ensures Has(m, c, v) <==> Found(m, c, v) < |c|
  {
  }

  /** A new item is ready: it holds the value, leads nowhere and is not yet linked. */
  predicate Ready(m: Mem, op: Op, c: seq<int>) {
    op.Insert? ==> op.node > 0 && op.node !in c && Get(m, Succ(op.node)) == 0 && Get(m, Data(op.node)) == op.v
  }

  /** Stores of the complete operation on its own bucket. */
  function OpStores(m: Mem, op: Op, h: int, c: seq<int>): Mem {
    var k := Found(m, c, op.v);
    EndTx(m, op, LinkAt(Head(h), c, k), Nth(c, k)).stored
  }

  lemma StoresAreLinks(m: Mem, op: Op, h: int, c: seq<int>)
    ensures forall a :: a in OpStores(m, op, h, c) ==> a == Head(h) || (a.Succ? && a.node in c)
  {
    var k := Found(m, c, op.v);
    if k > 0 { assert c[k - 1] in c; }
  }

  lemma InsertLinked(m: Mem, op: Op, h: int, c: seq<int>)
    requires op.Insert? && ChainFrom(m, Head(h), c) && Distinct(c) && Ready(m, op, c)
    ensures ChainFrom(m + OpStores(m, op, h, c), Head(h), NewChain(m, op, c))
  {
    var k := Found(m, c, op.v);
    if k == |c| {
      AppendChain(m, Head(h), c, op.node);
      assert m + map[LinkAt(Head(h), c, k) := op.node] == m[LinkAt(Head(h), c, k) := op.node];
    } else {
      ChainPositive(m, Head(h), c, k);
      assert m + map[] == m;
    }
  }

  lemma RemoveLinked(m: Mem, op: Op, h: int, c: seq<int>)
    requires op.Remove? && ChainFrom(m, Head(h), c) && Distinct(c)
    ensures ChainFrom(m + OpStores(m, op, h, c), Head(h), NewChain(m, op, c))
  {
    var k := Found(m, c, op.v);
    if k < |c| {
      ChainPositive(m, Head(h), c, k);
      UnlinkChain(m, Head(h), c, k);
      assert m + map[LinkAt(Head(h), c, k) := Nth(c, k + 1)] == m[LinkAt(Head(h), c, k) := Nth(c, k + 1)];
    } else {
      assert m + map[] == m;
    }
  }

  lemma NewChainLinked(m: Mem, op: Op, h: int, c: seq<int>)
    requires ChainFrom(m, Head(h), c) && Distinct(c) && Ready(m, op, c)
    ensures ChainFrom(m + OpStores(m, op, h, c), Head(h), NewChain(m, op, c))
  {
    match op
    case Insert(_, _) => InsertLinked(m, op, h, c);
    case Remove(_) => RemoveLinked(m, op, h, c);
    case Contains(_) => assert m + map[] == m;
  }

  /** Which items the bucket has afterwards. */
  lemma NewChainMembers(m: Mem, op: Op, c: seq<int>, x: int)
    requires Distinct(c)
    ensures var k := Found(m, c, op.v);
      x in NewChain(m, op, c) <==>
        match op
        case Insert(_, node) => x in c || (k == |c| && x == node)
        case Remove(_) => x in c && !(k < |c| && x == c[k])
        case Contains(_) => x in c
  {
    var k := Found(m, c, op.v);
    if op.Remove? && k < |c| {
      WithoutMember(c, k, x);
    }
  }

  lemma NewChainShape(m: Mem, op: Op, c: seq<int>)
    requires Distinct(c) && Ready(m, op, c)
    ensures Distinct(NewChain(m, op, c))
  {
    var k := Found(m, c, op.v);
    if op.Remove? && k < |c| {
      WithoutAt(c, k);
    }
  }

  lemma NewChainValues(m: Mem, op: Op, size: nat, h: int, c: seq<int>)
    requires size > 0 && Distinct(c) && ValuesOk(m, size, h, c) && Ready(m, op, c)
    requires op.v >= 0 && Bucket(op.v, size) == h
    ensures ValuesOk(m, size, h, NewChain(m, op, c))
  {
    var k, c' := Found(m, c, op.v), NewChain(m, op, c);
    forall x | x in c'
      ensures Get(m, Data(x)) >= 0 && Bucket(Get(m, Data(x)), size) == h
    {
      NewChainMembers(m, op, c, x);
    }
    if op.Remove? && k < |c| {
      WithoutAt(c, k);
    }
  }

  /** Which values the bucket has afterwards. */
  lemma NewChainHas(m: Mem, op: Op, size: nat, h: int, c: seq<int>, w: int)
    requires size > 0 && Distinct(c) && ValuesOk(m, size, h, c) && Ready(m, op, c)
    ensures Has(m, NewChain(m, op, c), w) <==>
      match op
      case Insert(v, _) => Has(m, c, w) || w == v
      case Remove(v) => Has(m, c, w) && w != v
      case Contains(_) => Has(m, c, w)
  {
    var k, c' := Found(m, c, op.v), NewChain(m, op, c);
    match op
    case Insert(v, node) =>
      if k == |c| {
        assert c'[|c|] == node && forall i :: 0 <= i < |c| ==> c'[i] == c[i];
      }
    case Remove(v) =>
      if k < |c| {
        WithoutAt(c, k);
        if Has(m, c, w) && w != v {
          var i :| 0 <= i < |c| && Get(m, Data(c[i])) == w;
          assert c'[if i < k then i else i - 1] == c[i];
        }
      }
    case Contains(_) =>
  }

  /** Storing to words other than its own leaves a bucket as it was. */
  lemma BucketKept(m: Mem, m': Mem, size: nat, h: int, c: seq<int>)
    requires size > 0 && BucketOk(m, size, h, c)
    requires forall a :: InBucket(a, h, c) ==> Get(m', a) == Get(m, a)
    ensures BucketOk(m', size, h, c) && forall w :: Has(m', c, w) <==> Has(m, c, w)
  {
    assert forall x :: x in c ==> InBucket(Succ(x), h, c) && InBucket(Data(x), h, c);
    ChainAgree(m, m', Head(h), c);
  }

  /** The bucket of the operation is in order again, with the values the operation promises. */
  lemma BucketAfter(m: Mem, op: Op, size: nat, h: int, c: seq<int>)
    requires size > 0 && BucketOk(m, size, h, c) && Ready(m, op, c) && op.v >= 0 && Bucket(op.v, size) == h
    ensures var m' := m + OpStores(m, op, h, c);
      BucketOk(m', size, h, NewChain(m, op, c)) &&
      forall w :: Has(m', NewChain(m, op, c), w) <==>
        match op
        case Insert(v, _) => Has(m, c, w) || w == v
        case Remove(v) => Has(m, c, w) && w != v
        case Contains(_) => Has(m, c, w)
  {
    var m', c' := m + OpStores(m, op, h, c), NewChain(m, op, c);
    StoresAreLinks(m, op, h, c);
    assert forall x :: Get(m', Data(x)) == Get(m, Data(x));
    NewChainLinked(m, op, h, c);
    NewChainShape(m, op, c);
    NewChainValues(m, op, size, h, c);
    forall w
      ensures Has(m', c', w) <==> Has(m, c', w)
    {
    }
    forall w
      ensures Has(m', c', w) <==>
        match op
        case Insert(v, _) => Has(m, c, w) || w == v
        case Remove(v) => Has(m, c, w) && w != v
        case Contains(_) => Has(m, c, w)
    {
      NewChainHas(m, op, size, h, c, w);
    }
  }

  // ---------- the whole map ----------

  predicate Apart(chains: seq<seq<int>>) {
    forall g, h, x :: 0 <= g < |chains| && 0 <= h < |chains| && x in chains[g] && x in chains[h] ==> g == h
  }

  ghost predicate MapOk(m: Mem, chains: seq<seq<int>>) {
    && |chains| > 0 && Apart(chains)
    && forall h :: 0 <= h < |chains| ==> BucketOk(m, |chains|, h, chains[h])
  }

  /** The map stands for the set of values its buckets hold. */
  ghost predicate Represents(m: Mem, chains: seq<seq<int>>, contents: set<int>) {
    && |chains| > 0
    && forall v {:trigger v in contents} ::
         v in contents <==> v >= 0 && Has(m, chains[Bucket(v, |chains|)], v)
  }

  /** The set operation. */
  function NewSet(contents: set<int>, op: Op): set<int> {
    match op
    case Insert(v, _) => contents + {v}
    case Remove(v) => contents - {v}
    case Contains(_) => contents
  }

  predicate Unlinked(chains: seq<seq<int>>, node: int) {
    forall h :: 0 <= h < |chains| ==> node !in chains[h]
  }

  lemma MapKept(m: Mem, m': Mem, chains: seq<seq<int>>, contents: set<int>)
    requires MapOk(m, chains) && Represents(m, chains, contents)
    requires forall a, h :: 0 <= h < |chains| && InBucket(a, h, chains[h]) ==> Get(m', a) == Get(m, a)
    ensures MapOk(m', chains) && Represents(m', chains, contents)
  {
    forall h | 0 <= h < |chains|
      ensures BucketOk(m', |chains|, h, chains[h]) && forall w :: Has(m', chains[h], w) <==> Has(m, chains[h], w)
    {
      BucketKept(m, m', |chains|, h, chains[h]);
    }
  }

  lemma NewChainsApart(m: Mem, chains: seq<seq<int>>, op: Op, h: int)
    requires MapOk(m, chains) && 0 <= h < |chains| && (op.Insert? ==> Unlinked(chains, op.node))
    ensures Apart(chains[h := NewChain(m, op, chains[h])])
  {
    var chains' := chains[h := NewChain(m, op, chains[h])];
    forall g, g', x | 0 <= g < |chains'| && 0 <= g' < |chains'| && x in chains'[g] && x in chains'[g']
      ensures g == g'
    {
      assert BucketOk(m, |chains|, h, chains[h]);
      NewChainMembers(m, op, chains[h], x);
    }
  }

  /** A complete operation on its bucket is the set operation on the map. */
  lemma MapAfter(m: Mem, chains: seq<seq<int>>, contents: set<int>, op: Op, h: int)
    requires MapOk(m, chains) && Represents(m, chains, contents)
    requires op.v >= 0 && h == Bucket(op.v, |chains|) && Ready(m, op, chains[h])
    requires op.Insert? ==> Unlinked(chains, op.node)
    ensures var m', chains' := m + OpStores(m, op, h, chains[h]), chains[h := NewChain(m, op, chains[h])];
      MapOk(m', chains') && Represents(m', chains', NewSet(contents, op))
  {
    var m', chains' := m + OpStores(m, op, h, chains[h]), chains[h := NewChain(m, op, chains[h])];
    assert BucketOk(m, |chains|, h, chains[h]);
    NewChainsApart(m, chains, op, h);
    BucketAfter(m, op, |chains|, h, chains[h]);
    StoresAreLinks(m, op, h, chains[h]);
    forall g | 0 <= g < |chains| && g != h
      ensures BucketOk(m', |chains|, g, chains[g]) && forall w :: Has(m', chains[g], w) <==> Has(m, chains[g], w)
    {
      BucketKept(m, m', |chains|, g, chains[g]);
    }
    forall v
      ensures v in NewSet(contents, op) <==> v >= 0 && Has(m', chains'[Bucket(v, |chains'|)], v)
    {
      assert v in contents <==> v >= 0 && Has(m, chains[Bucket(v, |chains|)], v);
    }
  }

  /** The item an operation reports: the one found, or 0. */
  function ItemOf(op: Op, h: int, trace: seq<int>): int {
    match WalkFrom(trace, Head(h), op.v)
    case Step(_) => 0
    case Stopped(_, item, _) => item
  }

  /** A section that completed in the log did the whole operation and reports what the set answers. */
  lemma CompletedOp(m: Mem, chains: seq<seq<int>>, contents: set<int>, op: Op, h: int, c: Completed)
    requires MapOk(m, chains) && Represents(m, chains, contents)
    requires op.v >= 0 && h == Bucket(op.v, |chains|) && c.sec == SectionOf(op, |chains|) && Explains(m, c)
    ensures Alone(c.sec.next, m, |c.trace|).mem == m + OpStores(m, op, h, chains[h])
    ensures var k := Found(m, chains[h], op.v); ItemOf(op, h, c.trace) == Nth(chains[h], k)
    ensures ItemOf(op, h, c.trace) != 0 <==> op.v in contents
  {
    var n, chain := |c.trace|, chains[h];
    var k := Found(m, chain, op.v);
    assert BucketOk(m, |chains|, h, chain);
    TxIsAlone(c.sec.next, m, n);
    OpCompletes(m, op, h, chain, n);
    WalkToEnd(m, op, Head(h), chain, EndTx(m, op, LinkAt(Head(h), chain, k), Nth(chain, k)).trace);
    HasFound(m, chain, op.v);
    if k < |chain| {
      ChainPositive(m, Head(h), chain, k);
    }
  }
}
