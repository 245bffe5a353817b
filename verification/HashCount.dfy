/** Counting the elements of the hash map while nobody works on it. */
module HashCount {
  import opened Sections
  import opened HashPrograms
  import opened HashBuckets

  function ItemsBelow(chains: seq<seq<int>>, h: nat): nat
    requires h <= |chains|
  {
    if h == 0 then 0 else ItemsBelow(chains, h - 1) + |chains[h - 1]|
  }

  /** The value is in one of the first `h` buckets. */
  predicate Below(m: Mem, chains: seq<seq<int>>, h: nat, v: int)
    requires h <= |chains|
  {
    exists g :: 0 <= g < h && Has(m, chains[g], v)
  }

  ghost predicate AreValues(m: Mem, c: seq<int>, values: set<int>) {
    |values| == |c| && forall v :: v in values <==> Has(m, c, v)
  }

  /** As many values as items, if no two items hold the same. */
  lemma {:induction false} ValuesOf(m: Mem, c: seq<int>) returns (values: set<int>)
    requires forall i, j :: 0 <= i < j < |c| ==> Get(m, Data(c[i])) != Get(m, Data(c[j]))
    ensures AreValues(m, c, values)
    decreases |c|
  {
    values := {};
    if c != [] {
      var k := |c| - 1;
      values := ValuesOf(m, c[..k]);
      HasMore(m, c);
      values := values + {Get(m, Data(c[k]))};
    }
  }

  lemma HasMore(m: Mem, c: seq<int>)
    requires c != []
    ensures var k := |c| - 1; forall v :: Has(m, c, v) <==> Has(m, c[..k], v) || v == Get(m, Data(c[k]))
  {
    var k := |c| - 1;
    assert forall i :: 0 <= i < k ==> c[..k][i] == c[i];
  }

  /** A value found in a bucket hashes to it. */
  lemma HasHash(m: Mem, chains: seq<seq<int>>, h: nat, v: int)
    requires MapOk(m, chains) && h < |chains| && Has(m, chains[h], v)
    ensures v >= 0 && Bucket(v, |chains|) == h
  {
    var c := chains[h];
    assert BucketOk(m, |chains|, h, c);
    var i :| 0 <= i < |c| && Get(m, Data(c[i])) == v;
    assert c[i] in c;
  }

  ghost predicate Covers(m: Mem, chains: seq<seq<int>>, h: nat, values: set<int>)
    requires h <= |chains|
  {
    && |values| == ItemsBelow(chains, h)
    && (forall v :: v in values ==> Below(m, chains, h, v))
    && (forall g, v :: 0 <= g < h && Has(m, chains[g], v) ==> v in values)
  }

  /** A bucket has no value in common with those before it. */
  lemma NotBefore(m: Mem, chains: seq<seq<int>>, h: nat, v: int)
    requires MapOk(m, chains) && h < |chains| && Below(m, chains, h, v)
    ensures !Has(m, chains[h], v)
  {
    var g :| 0 <= g < h && Has(m, chains[g], v);
    HasHash(m, chains, g, v);
    if Has(m, chains[h], v) {
      HasHash(m, chains, h, v);
    }
  }

  lemma BelowMore(m: Mem, chains: seq<seq<int>>, h: nat, v: int)
    requires h < |chains| && (Below(m, chains, h, v) || Has(m, chains[h], v))
    ensures Below(m, chains, h + 1, v)
  {
  }

  lemma CoversMore(m: Mem, chains: seq<seq<int>>, h: nat, values: set<int>, more: set<int>)
    requires h < |chains| && Covers(m, chains, h, values) && values !! more
    requires |more| == |chains[h]| && forall v :: v in more <==> Has(m, chains[h], v)
    ensures Covers(m, chains, h + 1, values + more)
  {
    forall v | v in values + more
      ensures Below(m, chains, h + 1, v)
    {
      BelowMore(m, chains, h, v);
    }
  }

  lemma CoversNext(m: Mem, chains: seq<seq<int>>, h: nat, values: set<int>, more: set<int>)
    requires MapOk(m, chains) && h < |chains| && Covers(m, chains, h, values) && AreValues(m, chains[h], more)
    ensures Covers(m, chains, h + 1, values + more)
  {
    forall v | v in values
      ensures v !in more
    {
      NotBefore(m, chains, h, v);
    }
    CoversMore(m, chains, h, values, more);
  }

  /** Buckets have no value in common, so there are as many values as items. */
  lemma {:induction false} ValuesBelow(m: Mem, chains: seq<seq<int>>, h: nat) returns (values: set<int>)
    requires MapOk(m, chains) && h <= |chains|
    ensures Covers(m, chains, h, values)
  {
    values := {};
    if h > 0 {
      values := ValuesBelow(m, chains, h - 1);
      assert BucketOk(m, |chains|, h - 1, chains[h - 1]);
      var more := ValuesOf(m, chains[h - 1]);
      CoversNext(m, chains, h - 1, values, more);
      values := values + more;
    }
  }

  lemma CoversAll(m: Mem, chains: seq<seq<int>>, contents: set<int>, values: set<int>)
    requires MapOk(m, chains) && Represents(m, chains, contents) && Covers(m, chains, |chains|, values)
    ensures values == contents
  {
    forall v
      ensures v in contents <==> v in values
    {
      if v in contents {
        var c := chains[Bucket(v, |chains|)];
        var i :| 0 <= i < |c| && Get(m, Data(c[i])) == v;
      }
      if v in values {
        assert Below(m, chains, |chains|, v);
        var g :| 0 <= g < |chains| && Has(m, chains[g], v);
        HasHash(m, chains, g, v);
      }
    }
  }

  /** There are as many items as the set has elements. */
  lemma ItemsAreElements(m: Mem, chains: seq<seq<int>>, contents: set<int>)
    requires MapOk(m, chains) && Represents(m, chains, contents)
    ensures ItemsBelow(chains, |chains|) == |contents|
  {
    var values := ValuesBelow(m, chains, |chains|);
    CoversAll(m, chains, contents, values);
  }

  /** Walks every bucket; the result is the size of the set that the map stands for. */
  method CountElements(m: Mem, size: nat, ghost chains: seq<seq<int>>, ghost contents: set<int>) returns (count: nat)
    requires |chains| == size && MapOk(m, chains) && Represents(m, chains, contents)
    ensures count == |contents|
  {
    count := 0;
    for h := 0 to size
      invariant count == ItemsBelow(chains, h)
    {
      ghost var c := chains[h];
      ghost var i := 0;
      var item := Get(m, Head(h));
      assert BucketOk(m, size, h, c);
      while item != 0
        invariant i <= |c| && item == Nth(c, i)
        invariant count == ItemsBelow(chains, h) + i
        decreases |c| - i
      {
        ChainPositive(m, Head(h), c, i);
        count := count + 1;
        item := Get(m, Succ(item));
        i := i + 1;
      }
      if i < |c| {
        ChainPositive(m, Head(h), c, i);
      }
    }
    ItemsAreElements(m, chains, contents);
  }
}
