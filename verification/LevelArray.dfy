/**
 The per-thread level array: latches held with their levels, and, threaded through the
 `level` field of the empty slots, the list of free slots.
 */
module LevelArray {
  import opened LatchRules
  import opened Sequences

  /** A latch pointer; zero is NULL. */
  type Latch = nat
  const NULL: Latch := 0

  const ULINT_UNDEFINED: nat := 0xFFFF_FFFF_FFFF_FFFF

  datatype Slot = Slot(latch: Latch, level: nat)

  // ---------- contents as a multiset ----------

  ghost function Entry(x: Slot): multiset<Slot> {
    if x.latch == NULL then multiset{} else multiset{x}
  }

  /** The latches recorded in a row of slots. */
  ghost function Held(s: seq<Slot>): multiset<Slot>
  {
    if s == [] then multiset{} else Held(s[..|s| - 1]) + Entry(s[|s| - 1])
  }

  ghost function LevelsOf(held: multiset<Slot>): set<nat> {
    set x | x in held :: x.level
  }

  lemma {:induction false} HeldMember(s: seq<Slot>, x: Slot)
    ensures x in Held(s) <==> x.latch != NULL && x in s
  {
    if s != [] {
      var init := s[..|s| - 1];
      HeldMember(init, x);
      assert x in s <==> x in init || x == s[|s| - 1] by {
        assert s == init + [s[|s| - 1]];
      }
    }
  }

  lemma ExchangeEntry(held: multiset<Slot>, out: multiset<Slot>, added: multiset<Slot>, last: multiset<Slot>)
    requires out <= held
    ensures out <= held + last && held - out + added + last == held + last - out + added
  {
  }

  lemma {:induction false} HeldUpdate(s: seq<Slot>, i: nat, x: Slot)
    requires i < |s|
    ensures Entry(s[i]) <= Held(s)
    ensures Held(s[i := x]) == Held(s) - Entry(s[i]) + Entry(x)
  {
    var k := |s| - 1;
    if i == k {
      assert s[i := x][..k] == s[..k];
    } else {
      HeldUpdate(s[..k], i, x);
      assert s[i := x][..k] == s[..k][i := x];
      ExchangeEntry(Held(s[..k]), Entry(s[i]), Entry(x), Entry(s[k]));
    }
  }

  lemma HeldFreed(s: seq<Slot>, i: nat, x: Slot)
    requires i < |s| && s[i].latch != NULL && x.latch == NULL
    ensures s[i] in Held(s) && Held(s[i := x]) == Held(s) - multiset{s[i]} && |Held(s[i := x])| + 1 == |Held(s)|
  {
    HeldUpdate(s, i, x);
    assert Held(s) == Held(s[i := x]) + multiset{s[i]};
  }

  lemma HeldPush(s: seq<Slot>, x: Slot)
    ensures Held(s + [x]) == Held(s) + Entry(x)
  {
    assert (s + [x])[..|s|] == s;
  }

  lemma {:induction false} EmptyHeldAllNull(s: seq<Slot>)
    requires Held(s) == multiset{}
    ensures forall i :: 0 <= i < |s| ==> s[i].latch == NULL
  {
    forall i | 0 <= i < |s|
      ensures s[i].latch == NULL
    {
      HeldMember(s, s[i]);
    }
  }

  lemma LevelsMember(s: seq<Slot>, level: nat)
    ensures level in LevelsOf(Held(s)) <==> exists i :: 0 <= i < |s| && s[i].latch != NULL && s[i].level == level
  {
    if level in LevelsOf(Held(s)) {
      var x :| x in Held(s) && x.level == level;
      HeldMember(s, x);
    }
    forall i | 0 <= i < |s| && s[i].latch != NULL && s[i].level == level
      ensures level in LevelsOf(Held(s))
    {
      HeldMember(s, s[i]);
    }
  }

  lemma LevelsPush(held: multiset<Slot>, x: Slot)
    ensures LevelsOf(held + multiset{x}) == LevelsOf(held) + {x.level}
  {
  }

  /** Room for one more of these levels: in order, or under lock_sys. */
  predicate Admits(levels: set<nat>, level: nat) {
    Above(levels, level) || (SYNC_LOCK_SYS in levels && AtLeast(levels, level))
  }

  /** How many of the latches go into an array of `size` slots, one after the other, until one is refused. */
  ghost function Taken(held: multiset<Slot>, latches: seq<Latch>, level: nat, size: nat, env: Env): nat
    decreases |latches|
  {
    if latches == [] || |held| >= size || !Accepts(LevelsOf(held), level, env) then 0
    else 1 + Taken(held + multiset{Slot(latches[0], level)}, latches[1..], level, size, env)
  }

  /** While lock_sys is held all of them go in, as far as there is room. */
  lemma {:induction false} ManyUnderLockSys(held: multiset<Slot>, latches: seq<Latch>, level: nat, size: nat, env: Env)
    requires (level == SYNC_TRX || level == SYNC_REC_LOCK) && |held| <= size
    requires SYNC_LOCK_SYS in LevelsOf(held) && AtLeast(LevelsOf(held), level)
    ensures Taken(held, latches, level, size, env) == if |latches| <= size - |held| then |latches| else size - |held|
    decreases |latches|
  {
    AcceptsTrx(LevelsOf(held), env);
    if latches != [] && |held| < size {
      LevelsPush(held, Slot(latches[0], level));
      ManyUnderLockSys(held + multiset{Slot(latches[0], level)}, latches[1..], level, size, env);
    }
  }

  /** Without it exactly one goes in if everything held is greater, and none otherwise. */
  lemma OneWithoutLockSys(held: multiset<Slot>, latches: seq<Latch>, level: nat, size: nat, env: Env)
    requires (level == SYNC_TRX || level == SYNC_REC_LOCK) && |held| < size && latches != []
    requires SYNC_LOCK_SYS !in LevelsOf(held)
    ensures Taken(held, latches, level, size, env) == if Above(LevelsOf(held), level) then 1 else 0
  {
    AcceptsTrx(LevelsOf(held), env);
    var held' := held + multiset{Slot(latches[0], level)};
    LevelsPush(held, Slot(latches[0], level));
    AcceptsTrx(LevelsOf(held'), env);
    assert level in LevelsOf(held');
  }

  // ---------- the free list ----------

  ghost function Link(free: seq<nat>, i: nat): nat {
    if i < |free| then free[i] else ULINT_UNDEFINED
  }

  ghost predicate LinkedAt(s: seq<Slot>, free: seq<nat>, i: nat)
    requires i < |free|
  {
    free[i] < |s| && s[free[i]] == Slot(NULL, Link(free, i + 1))
  }

  ghost predicate Linked(s: seq<Slot>, free: seq<nat>) {
    forall i {:trigger LinkedAt(s, free, i)} :: 0 <= i < |free| ==> LinkedAt(s, free, i)
  }

  ghost predicate CoversAt(s: seq<Slot>, free: seq<nat>, k: nat) {
    k < |s| && s[k].latch == NULL ==> k in free
  }

  ghost predicate Covers(s: seq<Slot>, free: seq<nat>) {
    forall k: nat {:trigger CoversAt(s, free, k)} :: CoversAt(s, free, k)
  }

  /** `free` lists the empty slots in chain order, each once, and `first` starts the chain. */
  ghost predicate FreeChain(s: seq<Slot>, first: nat, free: seq<nat>) {
    |s| < ULINT_UNDEFINED && first == Link(free, 0) && Linked(s, free) && Distinct(free) && Covers(s, free)
  }

  lemma EmptyChain(s: seq<Slot>, free: seq<nat>)
    requires FreeChain(s, ULINT_UNDEFINED, free)
    ensures free == []
  {
    assert |free| > 0 ==> LinkedAt(s, free, 0);
  }

  lemma PopLinked(s: seq<Slot>, free: seq<nat>, x: Slot)
    requires free != [] && free[0] < |s| && Linked(s, free) && Distinct(free)
    ensures Linked(s[free[0] := x], free[1..])
  {
    var s', free' := s[free[0] := x], free[1..];
    forall i | 0 <= i < |free'|
      ensures LinkedAt(s', free', i)
    {
      assert LinkedAt(s, free, i + 1);
      assert free'[i] == free[i + 1] != free[0];
      assert Link(free', i + 1) == Link(free, i + 2);
    }
  }

  lemma PopCovers(s: seq<Slot>, free: seq<nat>, x: Slot)
    requires free != [] && free[0] < |s| && Covers(s, free) && x.latch != NULL
    ensures Covers(s[free[0] := x], free[1..])
  {
    var s', free' := s[free[0] := x], free[1..];
    forall k: nat
      ensures CoversAt(s', free', k)
    {
      if k < |s'| && s'[k].latch == NULL {
        assert CoversAt(s, free, k);
        var i :| 0 <= i < |free| && free[i] == k;
        assert free'[i - 1] == k;
      }
    }
  }

  lemma PopFree(s: seq<Slot>, first: nat, free: seq<nat>, x: Slot)
    requires FreeChain(s, first, free) && first != ULINT_UNDEFINED && x.latch != NULL
    ensures first < |s| && s[first].latch == NULL && free != []
    ensures FreeChain(s[first := x], s[first].level, free[1..])
  {
    assert LinkedAt(s, free, 0);
    PopLinked(s, free, x);
    PopCovers(s, free, x);
  }

  lemma PushLinked(s: seq<Slot>, free: seq<nat>, i: nat)
    requires Linked(s, free) && i < |s| && s[i].latch != NULL
    ensures Linked(s[i := Slot(NULL, Link(free, 0))], [i] + free)
  {
    var s', free' := s[i := Slot(NULL, Link(free, 0))], [i] + free;
    forall j | 0 <= j < |free'|
      ensures LinkedAt(s', free', j)
    {
      assert Link(free', j + 1) == Link(free, j);
      if j > 0 {
        assert LinkedAt(s, free, j - 1);
        assert free'[j] == free[j - 1] != i;
      }
    }
  }

  lemma PushCovers(s: seq<Slot>, free: seq<nat>, i: nat, x: Slot)
    requires Covers(s, free) && i < |s|
    ensures Covers(s[i := x], [i] + free)
  {
    var s', free' := s[i := x], [i] + free;
    forall k: nat
      ensures CoversAt(s', free', k)
    {
      assert free'[0] == i;
      if k != i && k < |s'| && s'[k].latch == NULL {
        assert CoversAt(s, free, k);
        var j :| 0 <= j < |free| && free[j] == k;
        assert free'[j + 1] == k;
      }
    }
  }

  lemma PushDistinct(s: seq<Slot>, free: seq<nat>, i: nat)
    requires Linked(s, free) && Distinct(free) && i < |s| && s[i].latch != NULL
    ensures Distinct([i] + free)
  {
    forall b | 0 <= b < |free|
      ensures free[b] != i
    {
      assert LinkedAt(s, free, b);
    }
  }

  lemma PushFree(s: seq<Slot>, first: nat, free: seq<nat>, i: nat)
    requires FreeChain(s, first, free) && i < |s| && s[i].latch != NULL
    ensures FreeChain(s[i := Slot(NULL, first)], i, [i] + free)
  {
    PushLinked(s, free, i);
    PushCovers(s, free, i, Slot(NULL, first));
    PushDistinct(s, free, i);
  }

  lemma GrowChain(s: seq<Slot>, free: seq<nat>, x: Slot)
    requires FreeChain(s, ULINT_UNDEFINED, free) && x.latch != NULL && |s| + 1 < ULINT_UNDEFINED
    ensures FreeChain(s + [x], ULINT_UNDEFINED, free)
  {
    EmptyChain(s, free);
    forall k: nat
      ensures CoversAt(s + [x], free, k)
    {
      assert CoversAt(s, free, k);
    }
  }

  /** The slots in use are counted, and the others form the free chain. */
  ghost predicate SlotsOk(s: seq<Slot>, first: nat, free: seq<nat>, inUse: nat) {
    FreeChain(s, first, free) && inUse == |Held(s)| && |s| == inUse + |free|
  }

  lemma SlotsGrow(s: seq<Slot>, free: seq<nat>, inUse: nat, x: Slot)
    requires SlotsOk(s, ULINT_UNDEFINED, free, inUse) && x.latch != NULL && |s| + 1 < ULINT_UNDEFINED
    ensures SlotsOk(s + [x], ULINT_UNDEFINED, free, inUse + 1) && Held(s + [x]) == Held(s) + multiset{x}
  {
    GrowChain(s, free, x);
    HeldPush(s, x);
  }

  lemma SlotsReuse(s: seq<Slot>, first: nat, free: seq<nat>, inUse: nat, x: Slot)
    requires SlotsOk(s, first, free, inUse) && first != ULINT_UNDEFINED && x.latch != NULL
    ensures first < |s| && s[first].latch == NULL && free != []
    ensures SlotsOk(s[first := x], s[first].level, free[1..], inUse + 1) && Held(s[first := x]) == Held(s) + multiset{x}
  {
    PopFree(s, first, free, x);
    HeldUpdate(s, first, x);
  }

  lemma SlotsFree(s: seq<Slot>, first: nat, free: seq<nat>, inUse: nat, i: nat)
    requires SlotsOk(s, first, free, inUse) && i < |s| && s[i].latch != NULL
    ensures inUse >= 1 && s[i] in Held(s)
    ensures var s' := s[i := Slot(NULL, first)];
      SlotsOk(s', i, [i] + free, inUse - 1) && Held(s') == Held(s) - multiset{s[i]}
  {
    PushFree(s, first, free, i);
    HeldFreed(s, i, Slot(NULL, first));
  }

  datatype AddResult = Added | Ignored | OrderError | Full

  /** How a reset comes out; `Missing` is an error in the source. */
  datatype ResetResult = Removed | Untracked | NotRecorded | Missing

  class SyncArr {
    var inUse: nat
    var nElems: nat
    var nextFree: nat
    const elems: array<Slot>
    ghost var free: seq<nat>

    ghost predicate Valid()
      reads this, elems
    {
      && nElems <= elems.Length < ULINT_UNDEFINED
      && SlotsOk(elems[..nElems], nextFree, free, inUse)
      && (forall k :: nElems <= k < elems.Length ==> elems[k].latch == NULL)
    }

    /** The abstract value: latches this thread holds, with their levels. */
    ghost function Contents(): multiset<Slot>
      requires nElems <= elems.Length
      reads this, elems
    {
      Held(elems[..nElems])
    }

    constructor (maxElems: nat)
      requires maxElems < ULINT_UNDEFINED
      ensures Valid() && Contents() == multiset{} && elems.Length == maxElems && fresh(elems)
    {
      inUse, nElems, nextFree, free := 0, 0, ULINT_UNDEFINED, [];
      elems := new Slot[maxElems](_ => Slot(NULL, 0));
    }

    /** Are all held levels greater than the limit? */
    method LevelsG(limit: int) returns (r: bool)
      requires nElems <= elems.Length
      ensures r == Above(LevelsOf(Contents()), limit)
    {
      ghost var s := elems[..nElems];
      var i := 0;
      while i < nElems
        invariant 0 <= i <= nElems
        invariant forall j :: 0 <= j < i ==> s[j].latch == NULL || limit < s[j].level
      {
        if elems[i].latch != NULL && elems[i].level <= limit {
          LevelsMember(s, s[i].level);
          return false;
        }
        i := i + 1;
      }
      forall l | l in LevelsOf(Contents())
        ensures limit < l
      {
        LevelsMember(s, l);
      }
      return true;
    }

    /** Is a latch of this level held? */
    method LevelsContain(level: nat) returns (r: bool)
      requires nElems <= elems.Length
      ensures r == (level in LevelsOf(Contents()))
    {
      ghost var s := elems[..nElems];
      LevelsMember(s, level);
      var i := 0;
      while i < nElems
        invariant 0 <= i <= nElems
        invariant forall j :: 0 <= j < i ==> s[j].latch == NULL || s[j].level != level
      {
        if elems[i].latch != NULL && elems[i].level == level {
          assert s[i].level == level;
          return true;
        }
        i := i + 1;
      }
      return false;
    }

    method ContainsAny(levels: set<nat>) returns (r: bool)
      requires nElems <= elems.Length
      ensures r == !(LevelsOf(Contents()) !! levels)
    {
      var todo := levels;
      while todo != {}
        invariant todo <= levels
        invariant LevelsOf(Contents()) !! levels - todo
        decreases todo
      {
        var l :| l in todo;
        var c := LevelsContain(l);
        if c {
          assert l in LevelsOf(Contents()) && l in levels;
          return true;
        }
        todo := todo - {l};
      }
      assert levels - todo == levels;
      return false;
    }

    method CheckGated(level: nat, gate: nat, waived: bool) returns (ok: bool)
      requires nElems <= elems.Length
      ensures ok == Satisfies(LevelsOf(Contents()), level, Gated(gate, waived))
    {
      ok := LevelsG(level);
      if !ok {
        var c := LevelsContain(gate);
        if c {
          ok := LevelsG(level - 1);
        } else {
          ok := waived;
        }
      }
    }

    method CheckRule(level: nat, rule: Rule) returns (ok: bool)
      requires nElems <= elems.Length
      ensures ok == Satisfies(LevelsOf(Contents()), level, rule)
    {
      match rule {
        case Unchecked =>
          ok := true;
        case Strict =>
          ok := LevelsG(level);
        case Waivable(waived) =>
          ok := LevelsG(level);
          ok := waived || ok;
        case Gated(gate, waived) =>
          ok := CheckGated(level, gate, waived);
        case NotBelow(limit, without) =>
          ok := LevelsG(limit);
          var c := ContainsAny(without);
          ok := ok && !c;
        case Needs(anyOf) =>
          ok := ContainsAny(anyOf);
        case NeedsOrAbove(anyOf, limit) =>
          ok := ContainsAny(anyOf);
          if !ok {
            ok := LevelsG(limit);
          }
        case LowerFloor(gate, limit) =>
          var c := LevelsContain(gate);
          ok := LevelsG(if c then level - 1 else limit);
        case Unknown =>
          ok := false;
      }
    }

    /** The switch over the levels: the verdict is a function of the held levels alone. */
    method CheckOrder(level: nat, env: Env) returns (ok: bool)
      requires nElems <= elems.Length
      ensures ok == Accepts(LevelsOf(Contents()), level, env)
    {
      ok := CheckRule(level, RuleOf(level, env));
    }

    /** The array grows by one slot. */
    method StoreInFresh(x: Slot)
      requires Valid() && x.latch != NULL
      requires nextFree == ULINT_UNDEFINED && nElems < elems.Length
      modifies this, elems
      ensures Valid()
      ensures Contents() == old(Contents()) + multiset{x}
    {
      ghost var s := elems[..nElems];
      SlotsGrow(s, free, inUse, x);
      var i := nElems;
      nElems := nElems + 1;
      assert i < nElems && i != ULINT_UNDEFINED;
      assert elems[i].latch == NULL;
      inUse := inUse + 1;
      elems[i] := x;
      assert elems[..nElems] == s + [x];
    }

    /** The head of the free list is used again. */
    method StoreInFree(x: Slot)
      requires Valid() && x.latch != NULL && nextFree != ULINT_UNDEFINED
      modifies this, elems
      ensures Valid()
      ensures Contents() == old(Contents()) + multiset{x}
    {
      ghost var s := elems[..nElems];
      SlotsReuse(s, nextFree, free, inUse, x);
      var i := nextFree;
      nextFree := elems[i].level;
      free := free[1..];
      assert i < nElems && i != ULINT_UNDEFINED;
      assert elems[i].latch == NULL;
      inUse := inUse + 1;
      elems[i] := x;
      assert elems[..nElems] == s[i := x];
    }

    /** Records a latch; the run-time checks of the source are asserts in the two cases. */
    method Store(latch: Latch, level: nat) returns (ok: bool)
      requires Valid() && latch != NULL
      modifies this, elems
      ensures Valid()
      ensures ok <==> old(|Contents()|) < elems.Length
      ensures Contents() == old(Contents()) + (if ok then multiset{Slot(latch, level)} else multiset{})
    {
      if nextFree == ULINT_UNDEFINED {
        EmptyChain(elems[..nElems], free);
        if nElems >= elems.Length {
          return false;
        }
        StoreInFresh(Slot(latch, level));
      } else {
        PopFree(elems[..nElems], nextFree, free, Slot(latch, level));
        StoreInFree(Slot(latch, level));
      }
      ok := true;
    }

    /** `sync_thread_add_level` on the caller's own array. */
    method AddLevel(latch: Latch, level: nat, relock: bool, env: Env, exempt: set<Latch>)
      returns (r: AddResult)
      requires Valid() && latch != NULL
      modifies this, elems
      ensures Valid()
      ensures r == Ignored <==> latch in exempt || level == SYNC_LEVEL_VARYING
      ensures r != Ignored ==>
        && (r == OrderError <==> !relock && !Accepts(LevelsOf(old(Contents())), level, env))
        && (r == Full <==> r != OrderError && old(|Contents()|) == elems.Length)
      ensures Contents() == old(Contents()) + (if r == Added then multiset{Slot(latch, level)} else multiset{})
    {
      if latch in exempt || level == SYNC_LEVEL_VARYING {
        return Ignored;
      }
      if !relock {
        var ok := CheckOrder(level, env);
        if !ok {
          return OrderError;
        }
      }
      var stored := Store(latch, level);
      r := if stored then Added else Full;
      assert |Contents()| == inUse <= nElems;
    }

    /** One more latch of a transaction or a record lock; the conditions are written out in the levels. */
    method AddGated(latch: Latch, level: nat, env: Env) returns (ok: bool)
      requires Valid() && (level == SYNC_TRX || level == SYNC_REC_LOCK) && latch != NULL
      modifies this, elems
      ensures Valid()
      ensures var levels := old(LevelsOf(Contents()));
        && (Admits(levels, level) ==> (ok <==> old(|Contents()|) < elems.Length) && (!ok ==> |Contents()| == elems.Length))
        && (!Admits(levels, level) ==> !ok)
      ensures Contents() == old(Contents()) + if ok then multiset{Slot(latch, level)} else multiset{}
    {
      AcceptsTrx(LevelsOf(Contents()), env);
      var r := AddLevel(latch, level, false, env, {});
      ok := r == Added;
    }

    /** Empties slot `i` and puts it at the head of the free list. */
    method FreeSlot(i: nat)
      requires Valid() && i < nElems && elems[i].latch != NULL
      modifies this, elems
      ensures Valid()
      ensures old(elems[i]) in old(Contents())
      ensures Contents() == old(Contents()) - multiset{old(elems[i])}
    {
      ghost var s := elems[..nElems];
      ghost var s' := s[i := Slot(NULL, nextFree)];
      assert s[i] in Held(s) && Held(s') == Held(s) - multiset{s[i]} by { SlotsFree(s, nextFree, free, inUse, i); }
      assert inUse >= 1 && SlotsOk(s', i, [i] + free, inUse - 1) by { SlotsFree(s, nextFree, free, inUse, i); }
      elems[i] := Slot(NULL, nextFree);
      assert elems[..nElems] == s';
      nextFree := i;
      free := [i] + free;
      inUse := inUse - 1;
    }

    /** When no latch is left the free list is dropped and scanning starts afresh. */
    method ResetIfIdle()
      requires Valid()
      modifies this
      ensures Valid() && Contents() == old(Contents())
      ensures inUse == 0 ==> nElems == 0
    {
      if inUse == 0 {
        ghost var s := elems[..nElems];
        EmptyHeldAllNull(s);
        assert forall k :: 0 <= k < nElems ==> elems[k] == s[k];
        nElems := 0;
        nextFree := ULINT_UNDEFINED;
        free := [];
      }
    }

    /** Frees the first slot that records the latch. */
    method RemoveLatch(latch: Latch) returns (found: bool, ghost level: nat)
      requires Valid() && latch != NULL
      modifies this, elems
      ensures Valid()
      ensures !found ==> Contents() == old(Contents()) && forall x :: x in Contents() ==> x.latch != latch
      ensures found ==> Slot(latch, level) in old(Contents())
      ensures found ==> Contents() == old(Contents()) - multiset{Slot(latch, level)}
    {
      ghost var s := elems[..nElems];
      level := 0;
      var i := 0;
      while i < nElems
        invariant 0 <= i <= nElems
        invariant forall j :: 0 <= j < i ==> s[j].latch != latch
      {
        if elems[i].latch == latch {
          level := elems[i].level;
          FreeSlot(i);
          ResetIfIdle();
          return true, level;
        }
        i := i + 1;
      }
      forall x | x in Contents()
        ensures x.latch != latch
      {
        HeldMember(s, x);
      }
      found := false;
    }

    /**
     `sync_thread_reset_level` on the caller's own array; `varying` tells whether the latch
     is an rw-lock of varying level, which need not be recorded.
     */
    method ResetLevel(latch: Latch, varying: bool, exempt: set<Latch>) returns (r: ResetResult, ghost level: nat)
      requires Valid() && latch != NULL
      modifies this, elems
      ensures Valid()
      ensures r == Untracked <==> latch in exempt
      ensures r == Removed <==> latch !in exempt && exists x :: x in old(Contents()) && x.latch == latch
      ensures r == NotRecorded ==> varying
      ensures r == Missing ==> !varying
      ensures r == Removed ==>
        Slot(latch, level) in old(Contents()) && Contents() == old(Contents()) - multiset{Slot(latch, level)}
      ensures r != Removed ==> Contents() == old(Contents())
    {
      level := 0;
      if latch in exempt {
        return Untracked, level;
      }
      var found;
      found, level := RemoveLatch(latch);
      if found {
        return Removed, level;
      }
      r := if varying then NotRecorded else Missing;
    }
  }
}
