/**
 Why the word test matters: bare RTM next to functions that take the lock loses updates,
 so a set of lock functions serializes exactly if it does not combine the two.
 */
module MixedElision {
  import opened Sections
  import opened Elision
  import opened Serializability

  function AddSection(lock: int, k: int): Section {
    AddTo(lock, Word(0), k)
  }

  /** Thread 0 comes to try the exchange: an abort without a retry bit leads there. */
  lemma OwnerTries(cfg: Config, how: How, sec: Section) returns (events: seq<Event>)
    requires how in cfg.allowed && how != Naive && cfg.Discipline() == Mixed
    ensures After(cfg, 2, map[], events) == State(map[], {}, [Acquire(sec, how), Idle], [])
  {
    var start := State(map[], {}, [Idle, Idle], []);
    assert After(cfg, 2, map[], []) == start;
    AfterPush(cfg, 2, map[], [], Enter(0, sec, how));
    events := [] + [Enter(0, sec, how)];
    if how != Exchange {
      assert After(cfg, 2, map[], events) == State(map[], {}, [Begin(sec, how, 0), Idle], []);
      AfterPush(cfg, 2, map[], events, Abort(0, 0));
      events := events + [Abort(0, 0)];
    }
  }

  lemma OwnerAcquires(cfg: Config, how: How, sec: Section) returns (events: seq<Event>)
    requires how in cfg.allowed && how != Naive && cfg.Discipline() == Mixed
    ensures After(cfg, 2, map[], events) == State(map[], {sec.lock}, [Hold(sec, how, [], {}), Idle], [])
  {
    events := OwnerTries(cfg, how, sec);
    var s := State(map[], {}, [Acquire(sec, how), Idle], []);
    AfterPush(cfg, 2, map[], events, TryExchange(0));
    events := events + [TryExchange(0)];
    assert DoExchange(s, 0).threads == [Hold(sec, how, [], {}), Idle];
    assert {} + {sec.lock} == {sec.lock};
  }

  /** It has loaded the word. */
  lemma OwnerLoads(cfg: Config, how: How) returns (events: seq<Event>)
    requires how in cfg.allowed && how != Naive && cfg.Discipline() == Mixed
    ensures var sec := AddSection(0, 10);
      After(cfg, 2, map[], events) == State(map[], {sec.lock}, [Hold(sec, how, [0], {Word(0)}), Idle], [])
  {
    var sec := AddSection(0, 10);
    events := OwnerAcquires(cfg, how, sec);
    var s := After(cfg, 2, map[], events);
    assert sec.next([]) == Load(Word(0));
    AfterPush(cfg, 2, map[], events, Access(0));
    events := events + [Access(0)];
    assert [] + [0] == [0] && {} + {Word(0)} == {Word(0)};
    assert s.threads[0 := Hold(sec, how, [0], {Word(0)})] == [Hold(sec, how, [0], {Word(0)}), Idle];
  }

  /** Thread 1 starts a bare transaction. */
  lemma BareStarts(cfg: Config, owner: Phase, lock: int, events: seq<Event>) returns (events': seq<Event>)
    requires cfg.Discipline() == Mixed
    requires After(cfg, 2, map[], events) == State(map[], {lock}, [owner, Idle], [])
    ensures var sec := AddSection(0, 1);
      After(cfg, 2, map[], events') == State(map[], {lock}, [owner, Speculate(sec, Naive, 0, EMPTY_TX)], [])
  {
    var sec := AddSection(0, 1);
    AfterPush(cfg, 2, map[], events, Enter(1, sec, Naive));
    events' := events + [Enter(1, sec, Naive)];
    assert After(cfg, 2, map[], events') == State(map[], {lock}, [owner, Begin(sec, Naive, 0)], []);
    AfterPush(cfg, 2, map[], events', XBegin(1));
    events' := events' + [XBegin(1)];
  }

  /** One access inside the transaction. */
  lemma BareAccess(cfg: Config, owner: Phase, lock: int, events: seq<Event>, sec: Section, tx: Tx, tx': Tx)
    requires After(cfg, 2, map[], events) == State(map[], {lock}, [owner, Speculate(sec, Naive, 0, tx)], [])
    requires !sec.next(tx.trace).Done? && Live(owner) && owner.sec.lock == sec.lock && tx' == TxStep(sec.next, map[], tx)
    ensures After(cfg, 2, map[], events + [Access(1)]) == State(map[], {lock}, [owner, Speculate(sec, Naive, 0, tx')], [])
  {
    AfterPush(cfg, 2, map[], events, Access(1));
  }

  /** Its load, then its store. */
  lemma BareActions(lock: int, tx1: Tx, tx2: Tx)
    requires tx1 == Tx([0], {Word(0)}, map[]) && tx2 == Tx([0, 1], {Word(0)}, map[Word(0) := 1])
    ensures var p := AddSection(lock, 1).next;
      && p(EMPTY_TX.trace) == Load(Word(0)) && TxStep(p, map[], EMPTY_TX) == tx1
      && p(tx1.trace) == Store(Word(0), 1) && TxStep(p, map[], tx1) == tx2
  {
    var p := AddSection(lock, 1).next;
    assert p([]) == Load(Word(0)) && p([0]) == Store(Word(0), 1);
    assert {} + {Word(0)} == {Word(0)};
  }

  /** It runs through its section. */
  lemma BareSpeculates(cfg: Config, owner: Phase, lock: int, events: seq<Event>) returns (events': seq<Event>)
    requires cfg.Discipline() == Mixed && Live(owner) && owner.sec.lock == 0
    requires After(cfg, 2, map[], events) == State(map[], {lock}, [owner, Idle], [])
    ensures var sec := AddSection(0, 1);
      After(cfg, 2, map[], events') == State(map[], {lock},
        [owner, Speculate(sec, Naive, 0, Tx([0, 1], {Word(0)}, map[Word(0) := 1]))], [])
  {
    var sec := AddSection(0, 1);
    events' := BareStarts(cfg, owner, lock, events);
    var tx1, tx2 := Tx([0], {Word(0)}, map[]), Tx([0, 1], {Word(0)}, map[Word(0) := 1]);
    BareActions(0, tx1, tx2);
    BareAccess(cfg, owner, lock, events', sec, EMPTY_TX, tx1);
    BareAccess(cfg, owner, lock, events' + [Access(1)], sec, tx1, tx2);
    events' := events' + [Access(1)] + [Access(1)];
  }

  /** It commits while thread 0 owns the lock. */
  lemma BareCommits(cfg: Config, how: How, events: seq<Event>) returns (events': seq<Event>)
    requires cfg.Discipline() == Mixed
    requires var sec := AddSection(0, 10);
      After(cfg, 2, map[], events) == State(map[], {sec.lock}, [Hold(sec, how, [0], {Word(0)}), Idle], [])
    ensures var sec, sec' := AddSection(0, 10), AddSection(0, 1);
      After(cfg, 2, map[], events') ==
        State(map[Word(0) := 1], {sec.lock}, [Hold(sec, how, [0], {Word(0)}), Idle], [Completed(1, sec', [0, 1])])
  {
    var owner := Hold(AddSection(0, 10), how, [0], {Word(0)});
    events' := BareSpeculates(cfg, owner, owner.sec.lock, events);
    AfterPush(cfg, 2, map[], events', Unlock(1));
    events' := events' + [Unlock(1)];
    var s := After(cfg, 2, map[], events');
    assert s.mem == map[Word(0) := 1];
    assert s.threads == [owner, Idle];
  }

  /** Thread 0 stores what it computed from its old load. */
  lemma OwnerStores(cfg: Config, how: How, log: seq<Completed>, events: seq<Event>)
    requires var sec := AddSection(0, 10);
      After(cfg, 2, map[], events) == State(map[Word(0) := 1], {0}, [Hold(sec, how, [0], {Word(0)}), Idle], log)
    ensures var sec := AddSection(0, 10);
      After(cfg, 2, map[], events + [Access(0)]) ==
        State(map[Word(0) := 10], {0}, [Hold(sec, how, [0, 10], {Word(0)}), Idle], log)
  {
    var sec := AddSection(0, 10);
    assert sec.next([0]) == Store(Word(0), 10);
    AfterPush(cfg, 2, map[], events, Access(0));
    assert [0] + [10] == [0, 10] && {Word(0)} + {Word(0)} == {Word(0)};
    assert After(cfg, 2, map[], events + [Access(0)]).threads == [Hold(sec, how, [0, 10], {Word(0)}), Idle];
  }

  /** And releases. */
  lemma OwnerFinishes(cfg: Config, how: How, log: seq<Completed>, events: seq<Event>)
    requires how != Naive
    requires var sec := AddSection(0, 10);
      After(cfg, 2, map[], events) == State(map[Word(0) := 10], {0}, [Hold(sec, how, [0, 10], {Word(0)}), Idle], log)
    ensures var sec := AddSection(0, 10);
      After(cfg, 2, map[], events + [Unlock(0)]) ==
        State(map[Word(0) := 10], {}, [Idle, Idle], log + [Completed(0, sec, [0, 10])])
  {
    var sec := AddSection(0, 10);
    assert sec.next([0, 10]) == Done;
    AfterPush(cfg, 2, map[], events, Unlock(0));
    assert After(cfg, 2, map[], events + [Unlock(0)]).threads == [Idle, Idle];
  }

  /**
   A lost update: the owner adds 10, the bare transaction adds 1, the word ends at 10.
   Neither order of the two sections explains that.
   */
  lemma LostUpdate(cfg: Config, how: How) returns (events: seq<Event>)
    requires how in cfg.allowed && how != Naive && cfg.Discipline() == Mixed
    ensures var s := After(cfg, 2, map[], events);
      && s.locked == {} && |s.log| == 2 && Get(s.mem, Word(0)) == 10
      && Get(Serial(map[], s.log), Word(0)) == 11
      && Get(Serial(map[], [s.log[1], s.log[0]]), Word(0)) == 11
  {
    events := OwnerLoads(cfg, how);
    events := BareCommits(cfg, how, events);
    var bare := [Completed(1, AddSection(0, 1), [0, 1])];
    OwnerStores(cfg, how, bare, events);
    OwnerFinishes(cfg, how, bare, events + [Access(0)]);
    events := events + [Access(0)] + [Unlock(0)];
    var log := After(cfg, 2, map[], events).log;
    assert log == [log[0], log[1]];
    SerialOfTwo(0, 1, 10, log[0], log[1]);
    SerialOfTwo(0, 10, 1, log[1], log[0]);
  }

  lemma SerialOfTwo(lock: int, j: int, k: int, c: Completed, c': Completed)
    requires c.sec == AddSection(lock, j) && c'.sec == AddSection(lock, k) && |c.trace| == |c'.trace| == 2
    ensures Get(Serial(map[], [c, c']), Word(0)) == j + k
  {
    SerialPush(map[], [], c);
    AddAlone(map[], lock, Word(0), j);
    assert [] + [c] == [c] && [c] + [c'] == [c, c'];
    SerialPush(map[], [c], c');
    AddAlone(Serial(map[], [c]), lock, Word(0), k);
  }

  /** With no lock held, memory is what the completed sections leave one by one. */
  ghost predicate SerialAtRest(cfg: Config, n: nat, init: Mem, events: seq<Event>) {
    var s := After(cfg, n, init, events);
    s.locked == {} ==> forall a :: Get(s.mem, a) == Get(Serial(init, s.log), a)
  }

  /** The exact condition on a combination of lock functions. */
  lemma SerializesIffNotMixed(cfg: Config)
    ensures cfg.Discipline() != Mixed <==>
      forall n: nat, init: Mem, events: seq<Event> :: SerialAtRest(cfg, n, init, events)
  {
    if cfg.Discipline() == Mixed {
      assert cfg.allowed - {Naive} != {} by {
        assert cfg.allowed == {Naive} + (cfg.allowed - {Naive});
      }
      var how :| how in cfg.allowed - {Naive};
      var events := LostUpdate(cfg, how);
      var init: Mem := map[];
      assert !SerialAtRest(cfg, 2, init, events);
    } else {
      forall n: nat, init: Mem, events: seq<Event>
        ensures SerialAtRest(cfg, n, init, events)
      {
        RunsSerialize(cfg, n, init, events);
      }
    }
  }
}
