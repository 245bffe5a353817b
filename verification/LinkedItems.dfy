/**
 The doubly linked list of the benchmarks and the pre-allocating slot allocator under it.
 The allocator marks a free slot by the data value -1, so list links and free marks live
 in the same objects; what keeps them consistent is stated for both together.
 */
module LinkedItems {
  import opened Sequences

  const FREE := -1

  class ListItem {
    var prev: ListItem?
    var next: ListItem?
    var data: int

    constructor (data: int, prev: ListItem?, next: ListItem?)
      ensures this.data == data && this.prev == prev && this.next == next
    {
      this.data, this.prev, this.next := data, prev, next;
    }
  }

  /** The slot `k` places after `begin` on a ring of `size` slots. */
  function Ring(begin: int, k: nat, size: nat): int {
    if begin + k < size then begin + k else begin + k - size
  }

  lemma RingNext(begin: int, k: nat, size: nat)
    requires -1 <= begin < size && k < size
    ensures var cur := if k == 0 then begin else Ring(begin, k, size); (cur + 1) % size == Ring(begin, k + 1, size)
  {
  }

  class PreAllocator {
    /** The slots; they are created once and never move. */
    const slots: seq<ListItem>
    var lastAllocationSlot: int

    ghost predicate Valid()
      reads this, slots
    {
      && |slots| > 0 && Distinct(slots)
      && -1 <= lastAllocationSlot < |slots|
      && (lastAllocationSlot == -1 ==> forall i :: 0 <= i < |slots| ==> slots[i].data == FREE)
    }

    ghost predicate Full()
      reads this, slots
    {
      forall i :: 0 <= i < |slots| ==> slots[i].data != FREE
    }

    constructor (allocationsSize: nat)
      requires allocationsSize > 0
      ensures Valid() && |slots| == allocationsSize && fresh(slots)
      ensures forall i :: 0 <= i < |slots| ==> slots[i].data == FREE
    {
      var made: seq<ListItem> := [];
      while |made| < allocationsSize
        invariant |made| <= allocationsSize && Distinct(made) && fresh(made)
        invariant forall i :: 0 <= i < |made| ==> made[i].data == FREE
      {
        var dummy := new ListItem(FREE, null, null);
        made := made + [dummy];
      }
      slots := made;
      lastAllocationSlot := -1;
    }

    /** The first free slot in ring order after `begin` is `k` places on. */
    ghost predicate FirstFree(begin: int, k: nat)
      requires -1 <= begin < |slots|
      reads slots
    {
      && 1 <= k <= |slots|
      && slots[Ring(begin, k, |slots|)].data == FREE
      && forall j :: 1 <= j < k ==> slots[Ring(begin, j, |slots|)].data != FREE
    }

    /** The ring scan: moves on until a free slot, or once around. */
    method Scan() returns (found: bool, ghost k: nat)
      requires |slots| > 0 && -1 <= lastAllocationSlot < |slots| && (lastAllocationSlot == -1 ==> slots[0].data == FREE)
      modifies this
      ensures -1 <= lastAllocationSlot < |slots|
      ensures found <==> !Full()
      ensures found ==>
        && FirstFree(old(lastAllocationSlot), k)
        && lastAllocationSlot == Ring(old(lastAllocationSlot), k, |slots|)
      ensures !found ==> lastAllocationSlot == old(lastAllocationSlot)
    {
      k := 0;
      var begin := lastAllocationSlot;
      while true
        invariant 0 <= k < |slots| && -1 <= lastAllocationSlot < |slots|
        invariant lastAllocationSlot == if k == 0 then begin else Ring(begin, k, |slots|)
        invariant forall j :: 1 <= j <= k ==> slots[Ring(begin, j, |slots|)].data != FREE
        invariant begin == -1 ==> k == 0
        decreases |slots| - k
      {
        RingNext(begin, k, |slots|);
        lastAllocationSlot := (lastAllocationSlot + 1) % |slots|;
        k := k + 1;
        if slots[lastAllocationSlot].data == FREE {
          return true, k;
        }
        if lastAllocationSlot == begin {
          break;
        }
      }
      assert k == |slots|;
      forall i | 0 <= i < |slots|
        ensures slots[i].data != FREE
      {
        var j := if i > begin then i - begin else i - begin + |slots|;
        assert Ring(begin, j, |slots|) == i;
      }
      found := false;
    }

    /**
     Takes the first free slot in ring order from the slot after the last allocation and
     touches no other.  It fails (the source exits) exactly when every slot is in use; the
     very first call, with no last allocation, is covered.
     */
    method CreateListItem(data: int, prev: ListItem?, next: ListItem?) returns (item: ListItem?, ghost k: nat)
      requires Valid()
      modifies this, slots
      ensures Valid()
      ensures item == null <==> old(Full())
      ensures item == null ==> lastAllocationSlot == old(lastAllocationSlot) && Full()
      ensures item != null ==>
        && old(FirstFree(lastAllocationSlot, k)) && item == slots[Ring(old(lastAllocationSlot), k, |slots|)]
        && lastAllocationSlot >= 0 && item == slots[lastAllocationSlot] && old(item.data) == FREE
        && item.data == data && item.prev == prev && item.next == next
      ensures forall x :: x in slots && x != item ==> unchanged(x)
    {
      var found;
      found, k := Scan();
      if !found {
        return null, k;
      }
      item := slots[lastAllocationSlot];
      item.data := data;
      item.prev := prev;
      item.next := next;
    }

    method DeleteListItem(item: ListItem)
      requires Valid() && item in slots
      modifies item`data
      ensures Valid() && item.data == FREE
    {
      item.data := FREE;
    }
  }

  ghost predicate Linked(items: seq<ListItem>)
    reads items
  {
    && Distinct(items)
    && (forall i {:trigger items[i].prev} :: 0 <= i < |items| ==> items[i].prev == if i == 0 then null else items[i - 1])
    && (forall i {:trigger items[i].next} :: 0 <= i < |items| ==> items[i].next == if i + 1 == |items| then null else items[i + 1])
  }

  ghost function ItemAt(items: seq<ListItem>, i: int): ListItem? {
    if 0 <= i < |items| then items[i] else null
  }

  /** All links are as in the row, except that the neighbours of item `k` point past it. */
  ghost predicate Bypassed(items: seq<ListItem>, k: nat)
    reads items
  {
    && Distinct(items)
    && (forall i {:trigger items[i].prev} :: 0 <= i < |items| ==>
          items[i].prev == ItemAt(items, if i == k + 1 then i - 2 else i - 1))
    && (forall i {:trigger items[i].next} :: 0 <= i < |items| ==>
          items[i].next == ItemAt(items, if i == k - 1 then i + 2 else i + 1))
  }

  /** Then the other items are linked by themselves. */
  lemma BypassedLinked(items: seq<ListItem>, k: nat)
    requires k < |items| && Bypassed(items, k)
    ensures Linked(Without(items, k))
  {
    var r := Without(items, k);
    WithoutDistinct(items, k);
    WithoutAt(items, k);
    forall i | 0 <= i < |r|
      ensures r[i].prev == if i == 0 then null else r[i - 1]
      ensures r[i].next == if i + 1 == |r| then null else r[i + 1]
    {
      assert r[i] == items[if i < k then i else i + 1];
    }
  }

  ghost function Values(items: seq<ListItem>): seq<int>
    reads items
  {
    seq(|items|, i requires 0 <= i < |items| reads items => items[i].data)
  }

  lemma ValuesWithout(items: seq<ListItem>, k: nat)
    requires k < |items|
    ensures Values(Without(items, k)) == Values(items)[..k] + Values(items)[k + 1..]
  {
  }

  /** Position `k` holds the first occurrence of `d`. */
  ghost predicate IsFirst(s: seq<int>, d: int, k: nat) {
    k < |s| && s[k] == d && forall j :: 0 <= j < k ==> s[j] != d
  }

  function RemoveFirst(s: seq<int>, d: int): seq<int>
  {
    if s == [] then [] else if s[0] == d then s[1..] else [s[0]] + RemoveFirst(s[1..], d)
  }

  lemma {:induction false} RemoveAbsent(s: seq<int>, d: int)
    requires d !in s
    ensures RemoveFirst(s, d) == s
  {
    if s != [] {
      RemoveAbsent(s[1..], d);
    }
  }

  lemma {:induction false} RemoveFirstAt(s: seq<int>, d: int, k: nat)
    requires IsFirst(s, d, k)
    ensures RemoveFirst(s, d) == s[..k] + s[k + 1..]
  {
    if k > 0 {
      assert s[1..][k - 1] == s[k];
      assert forall j :: 0 <= j < k - 1 ==> s[1..][j] == s[j + 1];
      RemoveFirstAt(s[1..], d, k - 1);
      assert s[..k] == [s[0]] + s[1..][..k - 1];
      assert s[k + 1..] == s[1..][k..];
    }
  }

  class List {
    const allocator: PreAllocator
    var first: ListItem?
    var last: ListItem?
    ghost var items: seq<ListItem>

    ghost predicate Valid()
      reads this, items
    {
      && Linked(items)
      && first == (if items == [] then null else items[0])
      && last == (if items == [] then null else items[|items| - 1])
    }

    constructor (allocator: PreAllocator)
      ensures Valid() && items == [] && this.allocator == allocator
    {
      this.allocator := allocator;
      first, last, items := null, null, [];
    }

    method InsertTail(item: ListItem)
      requires Valid() && item !in items && item.next == null
      modifies this`first, this`last, this`items, items`next, item`prev
      ensures Valid() && items == old(items) + [item]
    {
      item.prev := last;
      if last != null {
        last.next := item;
      }
      last := item;
      if first == null {
        first := item;
      }
      items := items + [item];
    }

    /** The neighbours of item `k` point past it. */
    method Bypass(prev: ListItem?, next: ListItem?, ghost k: nat)
      requires Linked(items) && k < |items| && prev == ItemAt(items, k - 1) && next == ItemAt(items, k + 1)
      modifies items`prev, items`next
      ensures Bypassed(items, k)
    {
      if next != null {
        next.prev := prev;
      }
      if prev != null {
        prev.next := next;
      }
    }

    /** Unlinks the item at position `k`. */
    method RemoveFromList(item: ListItem?, ghost k: nat)
      requires Valid() && (item != null ==> k < |items| && items[k] == item)
      modifies this`first, this`last, this`items, items`prev, items`next
      ensures Valid()
      ensures items == if item == null then old(items) else Without(old(items), k)
    {
      if item == null {
        return;
      }
      ghost var s := items;
      var prev := item.prev;
      var next := item.next;
      assert prev == ItemAt(s, k - 1) && next == ItemAt(s, k + 1);
      assert first == ItemAt(s, 0) && last == ItemAt(s, |s| - 1);
      assert (item == first <==> k == 0) && (item == last <==> k == |s| - 1);
      if item == first {
        first := next;
      }
      if item == last {
        last := prev;
      }
      Bypass(prev, next, k);
      items := Without(s, k);
      assert Linked(items) by { BypassedLinked(s, k); }
      assert first == ItemAt(items, 0) && last == ItemAt(items, |items| - 1) by { WithoutAt(s, k); }
    }

    /** The first item that holds the data, or null. */
    method Get(data: int) returns (item: ListItem?, ghost k: nat)
      requires Valid()
      ensures item == null <==> data !in Values(items)
      ensures item != null ==> k < |items| && items[k] == item && IsFirst(Values(items), data, k)
    {
      item := first;
      k := 0;
      while item != null
        invariant 0 <= k <= |items|
        invariant item == if k < |items| then items[k] else null
        invariant forall j :: 0 <= j < k ==> Values(items)[j] != data
        decreases |items| - k
      {
        if item.data == data {
          assert Values(items)[k] == data;
          return;
        }
        item := item.next;
        k := k + 1;
      }
    }

    method Contains(data: int) returns (r: int)
      requires Valid()
      ensures r == if data in Values(items) then 1 else 0
    {
      var item, _ := Get(data);
      r := if item != null then 1 else 0;
    }

    method Size() returns (count: nat)
      requires Valid()
      ensures count == |items|
    {
      count := 0;
      var item := first;
      while item != null
        invariant 0 <= count <= |items|
        invariant item == if count < |items| then items[count] else null
        decreases |items| - count
      {
        count := count + 1;
        item := item.next;
      }
    }

    // ---------- list and allocator together ----------

    /** The linked items are exactly the slots that are not marked free. */
    ghost predicate Sync()
      reads this, allocator, allocator.slots, items
    {
      && (forall i :: 0 <= i < |items| ==> items[i] in allocator.slots)
      && (forall x :: x in allocator.slots ==> (x.data != FREE <==> x in items))
    }

    ghost predicate Consistent()
      reads this, allocator, allocator.slots, items
    {
      Valid() && allocator.Valid() && Sync()
    }

    /** Takes a slot for the data; no linked item is touched. */
    method Claim(data: int) returns (item: ListItem?)
      requires Consistent()
      modifies allocator, allocator.slots
      ensures Valid() && allocator.Valid() && items == old(items)
      ensures item == null <==> old(allocator.Full())
      ensures item != null ==> item in allocator.slots && item !in items && item.data == data && item.next == null
      ensures item == null ==> allocator.Full()
      ensures forall x :: x in allocator.slots && x != item ==> x.data == old(x.data)
    {
      ghost var k;
      item, k := allocator.CreateListItem(data, null, null);
      assert forall x :: x in items ==> x in allocator.slots && x != item && unchanged(x);
    }

    /**
     Appends the data in a slot that was not linked before.  Links and free marks stay
     consistent exactly if the data is not the value that marks a free slot.
     */
    method Insert(data: int) returns (item: ListItem?)
      requires Consistent()
      modifies this, allocator, allocator.slots
      ensures Valid() && allocator.Valid()
      ensures item == null <==> old(allocator.Full())
      ensures item == null ==> items == old(items) && Values(items) == old(Values(items)) && Sync() && allocator.Full()
      ensures item != null ==>
        && item !in old(items) && items == old(items) + [item] && Values(items) == old(Values(items)) + [data]
        && (Sync() <==> data != FREE)
    {
      ghost var s := items;
      item := Claim(data);
      assert forall i :: 0 <= i < |s| ==> s[i].data == old(s[i].data);
      if item != null {
        InsertTail(item);
        assert items[|s|] == item;
      }
    }

    /** Finds the first item that holds the data and unlinks it. */
    method FindAndRemoveFromList(data: int) returns (item: ListItem?, ghost k: nat)
      requires Valid()
      modifies this`first, this`last, this`items, items`prev, items`next
      ensures Valid()
      ensures item == null <==> data !in old(Values(items))
      ensures item == null ==> items == old(items)
      ensures item != null ==>
        && k < |old(items)| && old(items)[k] == item && items == Without(old(items), k)
        && old(IsFirst(Values(items), data, k))
    {
      item, k := Get(data);
      RemoveFromList(item, k);
    }

    /** Marks the slot of an unlinked item free; then links and marks agree again. */
    method Free(item: ListItem)
      requires Valid() && allocator.Valid() && item in allocator.slots && item !in items
      requires forall i :: 0 <= i < |items| ==> items[i] in allocator.slots
      requires forall x :: x in allocator.slots && x != item ==> (x.data != FREE <==> x in items)
      modifies item`data
      ensures Consistent() && Values(items) == old(Values(items))
    {
      allocator.DeleteListItem(item);
      assert forall i :: 0 <= i < |items| ==> items[i] != item;
    }

    /** Unlinks the first item that holds the data; afterwards only its slot is out of step. */
    method Detach(data: int) returns (item: ListItem?)
      requires Consistent()
      modifies this`first, this`last, this`items, items`prev, items`next
      ensures Valid()
      ensures item == null <==> data !in old(Values(items))
      ensures item == null ==> items == old(items)
      ensures item != null ==> item in allocator.slots && item !in items
      ensures forall i :: 0 <= i < |items| ==> items[i] in allocator.slots
      ensures forall x :: x in allocator.slots && x != item ==> (x.data != FREE <==> x in items)
      ensures Values(items) == RemoveFirst(old(Values(items)), data)
    {
      ghost var s := items;
      ghost var k;
      item, k := FindAndRemoveFromList(data);
      assert Values(s) == old(Values(items));
      if item == null {
        RemoveAbsent(Values(s), data);
      } else {
        RemoveFirstAt(Values(s), data, k);
        forall x
          ensures x in items <==> x in s && x != s[k]
        {
          WithoutMember(s, k, x);
        }
        ValuesWithout(s, k);
        forall i | 0 <= i < |items|
          ensures items[i] in allocator.slots
        {
          assert items[i] in s;
        }
      }
    }

    /**
     Removes the first item that holds the data and marks its slot free.  With the data
     absent the source dereferences null in the allocator; here nothing happens.
     */
    method Remove(data: int) returns (found: bool)
      requires Consistent()
      modifies this, allocator.slots
      ensures Consistent()
      ensures found <==> data in old(Values(items))
      ensures Values(items) == RemoveFirst(old(Values(items)), data)
    {
      var item := Detach(data);
      if item == null {
        return false;
      }
      Free(item);
      found := true;
    }

    method ExecuteOne(cmd: Command) returns (ok: bool)
      requires Consistent() && (cmd.Insertion? ==> cmd.data != FREE)
      modifies this, allocator, allocator.slots
      ensures Consistent()
      ensures Values(items) == if ok then Effect1(old(Values(items)), cmd) else old(Values(items))
      ensures !ok ==> if cmd.Insertion? then allocator.Full() else cmd.data !in Values(items)
    {
      ghost var v := Values(items);
      match cmd {
        case Insertion(d) =>
          var item := Insert(d);
          ok := item != null;
        case Removal(d) =>
          ok := Remove(d);
          if !ok {
            RemoveAbsent(v, d);
          }
      }
    }

    /**
     Any sequence of insertions of data other than -1 and of removals.  It runs to the end,
     or to an insertion with no slot left or a removal of absent data, where the source
     stops; up to there links and free marks agree and the values are those of the sequence.
     */
    method Execute(cmds: seq<Command>) returns (done: nat)
      requires Consistent()
      requires forall i :: 0 <= i < |cmds| && cmds[i].Insertion? ==> cmds[i].data != FREE
      modifies this, allocator, allocator.slots
      ensures Consistent() && done <= |cmds|
      ensures Values(items) == Effect(old(Values(items)), cmds[..done])
      ensures done < |cmds| ==>
        if cmds[done].Insertion? then allocator.Full() else cmds[done].data !in Values(items)
    {
      done := 0;
      ghost var v := Values(items);
      while done < |cmds|
        invariant 0 <= done <= |cmds|
        invariant Consistent()
        invariant Values(items) == Effect(v, cmds[..done])
      {
        var ok := ExecuteOne(cmds[done]);
        if !ok {
          return;
        }
        EffectStep(v, cmds, done);
        done := done + 1;
      }
    }
  }

  datatype Command = Insertion(data: int) | Removal(data: int)

  function Effect1(v: seq<int>, cmd: Command): seq<int> {
    match cmd
    case Insertion(d) => v + [d]
    case Removal(d) => RemoveFirst(v, d)
  }

  /** The list of values under a sequence of commands. */
  function Effect(v: seq<int>, cmds: seq<Command>): seq<int>
  {
    if cmds == [] then v else Effect1(Effect(v, cmds[..|cmds| - 1]), cmds[|cmds| - 1])
  }

  lemma EffectStep(v: seq<int>, cmds: seq<Command>, k: nat)
    requires k < |cmds|
    ensures Effect(v, cmds[..k + 1]) == Effect1(Effect(v, cmds[..k]), cmds[k])
  {
    assert cmds[..k + 1][..k] == cmds[..k];
  }

  // ---------- traversals ----------

  ghost function Forward(x: ListItem?, n: nat): ListItem?
    reads *
  {
    if n == 0 || x == null then x else Forward(x.next, n - 1)
  }

  ghost function Backward(x: ListItem?, n: nat): ListItem?
    reads *
  {
    if n == 0 || x == null then x else Backward(x.prev, n - 1)
  }

  lemma {:induction false} ForwardFrom(items: seq<ListItem>, i: nat, n: nat)
    requires Linked(items) && i + n < |items|
    ensures Forward(items[i], n) == items[i + n]
    decreases n
  {
    if n > 0 {
      ForwardFrom(items, i + 1, n - 1);
    }
  }

  lemma {:induction false} BackwardFrom(items: seq<ListItem>, i: nat, n: nat)
    requires Linked(items) && n <= i < |items|
    ensures Backward(items[i], n) == items[i - n]
    decreases n
  {
    if n > 0 {
      BackwardFrom(items, i - 1, n - 1);
    }
  }

  /** Walking from the front and walking from the back visit the same items in opposite order. */
  lemma TraversalsAreReverses(list: List, n: nat)
    requires list.Valid() && n < |list.items|
    ensures Forward(list.first, n) == list.items[n] == Backward(list.last, |list.items| - 1 - n)
    ensures Forward(list.first, |list.items|) == null == Backward(list.last, |list.items|)
  {
    var k := |list.items|;
    ForwardFrom(list.items, 0, n);
    BackwardFrom(list.items, k - 1, k - 1 - n);
    ForwardEnd(list.items, 0);
    BackwardEnd(list.items, k - 1);
  }

  lemma {:induction false} ForwardEnd(items: seq<ListItem>, i: nat)
    requires Linked(items) && i < |items|
    ensures Forward(items[i], |items| - i) == null
    decreases |items| - i
  {
    if i + 1 < |items| {
      ForwardEnd(items, i + 1);
    } else {
      assert items[i].next == null;
    }
  }

  lemma {:induction false} BackwardEnd(items: seq<ListItem>, i: nat)
    requires Linked(items) && i < |items|
    ensures Backward(items[i], i + 1) == null
  {
    if i > 0 {
      BackwardEnd(items, i - 1);
    } else {
      assert items[i].prev == null;
    }
  }
}
