/**
 The latching order of InnoDB: the level numbers, and what a thread that already holds
 latches of certain levels may latch next.
 */
module LatchRules {
  const SYNC_NO_ORDER_CHECK := 3000
  const SYNC_LEVEL_VARYING := 2000
  const SYNC_TRX_I_S_RWLOCK := 1910
  const SYNC_TRX_I_S_LAST_READ := 1900
  const SYNC_FILE_FORMAT_TAG := 1200
  const SYNC_DICT_OPERATION := 1010
  const SYNC_FTS_CACHE := 1005
  const SYNC_DICT := 1000
  const SYNC_DICT_AUTOINC_MUTEX := 999
  const SYNC_STATS_AUTO_RECALC := 997
  const SYNC_DICT_HEADER := 995
  const SYNC_IBUF_HEADER := 914
  const SYNC_IBUF_PESS_INSERT_MUTEX := 912
  const SYNC_INDEX_TREE := 900
  const SYNC_TREE_NODE_NEW := 892
  const SYNC_TREE_NODE_FROM_HASH := 891
  const SYNC_TREE_NODE := 890
  const SYNC_PURGE_LATCH := 800
  const SYNC_TRX_UNDO := 700
  const SYNC_RSEG := 600
  const SYNC_RSEG_HEADER_NEW := 591
  const SYNC_RSEG_HEADER := 590
  const SYNC_TRX_UNDO_PAGE := 570
  const SYNC_EXTERN_STORAGE := 500
  const SYNC_FSP := 400
  const SYNC_FSP_PAGE := 395
  const SYNC_IBUF_MUTEX := 370
  const SYNC_IBUF_INDEX_TREE := 360
  const SYNC_IBUF_TREE_NODE_NEW := 359
  const SYNC_IBUF_TREE_NODE := 358
  const SYNC_IBUF_BITMAP_MUTEX := 351
  const SYNC_IBUF_BITMAP := 350
  const SYNC_INDEX_ONLINE_LOG := 340
  const SYNC_LOCK_WAIT_SYS := 300
  const SYNC_LOCK_SYS := 299
  const SYNC_TRX_SYS := 298
  const SYNC_TRX := 297
  const SYNC_THREADS := 295
  const SYNC_REC_LOCK := 294
  const SYNC_TRX_SYS_HEADER := 290
  const SYNC_PURGE_QUEUE := 200
  const SYNC_LOG := 170
  const SYNC_RECV := 168
  const SYNC_FTS_CACHE_INIT := 166
  const SYNC_FTS_BG_THREADS := 165
  const SYNC_FTS_OPTIMIZE := 164
  const SYNC_WORK_QUEUE := 162
  const SYNC_SEARCH_SYS := 160
  const SYNC_BUF_POOL := 150
  const SYNC_BUF_PAGE_HASH := 149
  const SYNC_LOG_FLUSH_ORDER := 147
  const SYNC_BUF_BLOCK := 146
  const SYNC_BUF_FLUSH_LIST := 145
  const SYNC_DOUBLEWRITE := 140
  const SYNC_ANY_LATCH := 135
  const SYNC_MEM_HASH := 131
  const SYNC_MEM_POOL := 130

  /** Levels whose latches may be taken only while every held level is greater. */
  const STRICT_LEVELS: set<nat> := {
    SYNC_MEM_POOL, SYNC_MEM_HASH, SYNC_RECV, SYNC_FTS_BG_THREADS, SYNC_WORK_QUEUE,
    SYNC_FTS_OPTIMIZE, SYNC_FTS_CACHE, SYNC_FTS_CACHE_INIT, SYNC_LOG, SYNC_LOG_FLUSH_ORDER,
    SYNC_ANY_LATCH, SYNC_FILE_FORMAT_TAG, SYNC_DOUBLEWRITE, SYNC_SEARCH_SYS, SYNC_THREADS,
    SYNC_LOCK_SYS, SYNC_LOCK_WAIT_SYS, SYNC_TRX_SYS, SYNC_IBUF_BITMAP_MUTEX, SYNC_RSEG,
    SYNC_TRX_UNDO, SYNC_PURGE_LATCH, SYNC_PURGE_QUEUE, SYNC_DICT_AUTOINC_MUTEX,
    SYNC_DICT_OPERATION, SYNC_DICT_HEADER, SYNC_TRX_I_S_RWLOCK, SYNC_TRX_I_S_LAST_READ,
    SYNC_IBUF_MUTEX, SYNC_INDEX_ONLINE_LOG, SYNC_STATS_AUTO_RECALC }

  /** Server switches the checks consult: start-up in progress, buffer debug prints on. */
  datatype Env = Env(starting: bool, debugPrints: bool)

  /** The kinds of case in the switch of `sync_thread_add_level`. */
  datatype Rule =
    | Unchecked
    | Strict
    | Waivable(waived: bool)                        // strict unless a server switch waives it
    | Gated(gate: nat, waived: bool)                // strict, or not below and holding the gate level
    | NotBelow(limit: nat, without: set<nat>)       // all held above limit, and none of `without` held
    | Needs(anyOf: set<nat>)                        // one of these levels held
    | NeedsOrAbove(anyOf: set<nat>, limit: nat)     // one of these held, or all held above limit
    | LowerFloor(gate: nat, limit: nat)             // not below while holding gate, else above limit
    | Unknown

  function RuleOf(level: nat, env: Env): Rule {
    if level in {SYNC_NO_ORDER_CHECK, SYNC_EXTERN_STORAGE, SYNC_TREE_NODE_FROM_HASH} then Unchecked
    else if level == SYNC_TRX_SYS_HEADER then Waivable(env.starting)
    else if level in STRICT_LEVELS then Strict
    else if level == SYNC_TRX || level == SYNC_REC_LOCK then Gated(SYNC_LOCK_SYS, false)
    else if level == SYNC_BUF_PAGE_HASH || level == SYNC_BUF_BLOCK then Gated(SYNC_BUF_POOL, false)
    else if level == SYNC_IBUF_BITMAP then Gated(SYNC_IBUF_BITMAP_MUTEX, env.starting)
    else if level == SYNC_BUF_FLUSH_LIST || level == SYNC_BUF_POOL then NotBelow(level - 1, {})
    else if level == SYNC_FSP_PAGE then Needs({SYNC_FSP})
    else if level == SYNC_FSP then NeedsOrAbove({SYNC_FSP}, SYNC_FSP)
    else if level == SYNC_TRX_UNDO_PAGE then NeedsOrAbove({SYNC_TRX_UNDO, SYNC_RSEG}, level - 1)
    else if level == SYNC_RSEG_HEADER then Needs({SYNC_RSEG})
    else if level == SYNC_RSEG_HEADER_NEW || level == SYNC_TREE_NODE_NEW then Needs({SYNC_FSP_PAGE})
    else if level == SYNC_TREE_NODE then NeedsOrAbove({SYNC_INDEX_TREE, SYNC_DICT_OPERATION}, level - 1)
    else if level == SYNC_INDEX_TREE then NotBelow(SYNC_TREE_NODE - 1, {})
    else if level == SYNC_IBUF_TREE_NODE then NeedsOrAbove({SYNC_IBUF_INDEX_TREE}, level - 1)
    else if level == SYNC_IBUF_TREE_NODE_NEW then Needs({SYNC_IBUF_MUTEX, SYNC_FSP})
    else if level == SYNC_IBUF_INDEX_TREE then LowerFloor(SYNC_FSP, SYNC_IBUF_TREE_NODE - 1)
    else if level == SYNC_IBUF_PESS_INSERT_MUTEX then NotBelow(SYNC_FSP - 1, {SYNC_IBUF_MUTEX})
    else if level == SYNC_IBUF_HEADER then NotBelow(SYNC_FSP - 1, {SYNC_IBUF_MUTEX, SYNC_IBUF_PESS_INSERT_MUTEX})
    else if level == SYNC_DICT then Waivable(env.debugPrints)
    else Unknown
  }

  predicate Above(levels: set<nat>, limit: int) {
    forall l :: l in levels ==> limit < l
  }

  predicate AtLeast(levels: set<nat>, limit: nat) {
    forall l :: l in levels ==> limit <= l
  }

  predicate Satisfies(levels: set<nat>, level: nat, rule: Rule) {
    match rule
    case Unchecked => true
    case Strict => Above(levels, level)
    case Waivable(waived) => waived || Above(levels, level)
    case Gated(gate, waived) => Above(levels, level) || (if gate in levels then AtLeast(levels, level) else waived)
    case NotBelow(limit, without) => Above(levels, limit) && levels !! without
    case Needs(anyOf) => !(levels !! anyOf)
    case NeedsOrAbove(anyOf, limit) => !(levels !! anyOf) || Above(levels, limit)
    case LowerFloor(gate, limit) => if gate in levels then AtLeast(levels, level) else Above(levels, limit)
    case Unknown => false
  }

  /** May a thread holding latches of these levels latch another one of level `level`? */
  predicate Accepts(levels: set<nat>, level: nat, env: Env) {
    Satisfies(levels, level, RuleOf(level, env))
  }

  // ---------- the rules case by case ----------

  /** The numbers follow the order in which the header lists the levels. */
  lemma LevelsDescend()
    ensures SYNC_NO_ORDER_CHECK > SYNC_LEVEL_VARYING > SYNC_TRX_I_S_RWLOCK > SYNC_TRX_I_S_LAST_READ >
      SYNC_FILE_FORMAT_TAG > SYNC_DICT_OPERATION > SYNC_FTS_CACHE > SYNC_DICT > SYNC_DICT_AUTOINC_MUTEX >
      SYNC_STATS_AUTO_RECALC > SYNC_DICT_HEADER > SYNC_IBUF_HEADER > SYNC_IBUF_PESS_INSERT_MUTEX > SYNC_INDEX_TREE >
      SYNC_TREE_NODE_NEW > SYNC_TREE_NODE_FROM_HASH > SYNC_TREE_NODE > SYNC_PURGE_LATCH > SYNC_TRX_UNDO > SYNC_RSEG >
      SYNC_RSEG_HEADER_NEW > SYNC_RSEG_HEADER > SYNC_TRX_UNDO_PAGE > SYNC_EXTERN_STORAGE > SYNC_FSP > SYNC_FSP_PAGE >
      SYNC_IBUF_MUTEX > SYNC_IBUF_INDEX_TREE > SYNC_IBUF_TREE_NODE_NEW > SYNC_IBUF_TREE_NODE >
      SYNC_IBUF_BITMAP_MUTEX > SYNC_IBUF_BITMAP > SYNC_INDEX_ONLINE_LOG > SYNC_LOCK_WAIT_SYS > SYNC_LOCK_SYS >
      SYNC_TRX_SYS > SYNC_TRX > SYNC_THREADS > SYNC_REC_LOCK > SYNC_TRX_SYS_HEADER > SYNC_PURGE_QUEUE > SYNC_LOG >
      SYNC_RECV > SYNC_FTS_CACHE_INIT > SYNC_FTS_BG_THREADS > SYNC_FTS_OPTIMIZE > SYNC_WORK_QUEUE > SYNC_SEARCH_SYS >
      SYNC_BUF_POOL > SYNC_BUF_PAGE_HASH > SYNC_LOG_FLUSH_ORDER > SYNC_BUF_BLOCK > SYNC_BUF_FLUSH_LIST >
      SYNC_DOUBLEWRITE > SYNC_ANY_LATCH > SYNC_MEM_HASH > SYNC_MEM_POOL
  {
  }

  /** Latches that are not checked, and levels nobody knows. */
  lemma AcceptsUnchecked(levels: set<nat>, env: Env)
    ensures Accepts(levels, SYNC_NO_ORDER_CHECK, env) && Accepts(levels, SYNC_EXTERN_STORAGE, env)
    ensures Accepts(levels, SYNC_TREE_NODE_FROM_HASH, env)
    ensures !Accepts(levels, SYNC_LEVEL_VARYING, env) && !Accepts(levels, 0, env)
  {
  }

  /** Most levels: everything held is greater. */
  lemma AcceptsStrict(levels: set<nat>, level: nat, env: Env)
    requires level in {
      SYNC_MEM_POOL, SYNC_MEM_HASH, SYNC_RECV, SYNC_FTS_BG_THREADS, SYNC_WORK_QUEUE, SYNC_FTS_OPTIMIZE, SYNC_FTS_CACHE,
      SYNC_FTS_CACHE_INIT, SYNC_LOG, SYNC_LOG_FLUSH_ORDER, SYNC_ANY_LATCH, SYNC_FILE_FORMAT_TAG, SYNC_DOUBLEWRITE,
      SYNC_SEARCH_SYS, SYNC_THREADS, SYNC_LOCK_SYS, SYNC_LOCK_WAIT_SYS, SYNC_TRX_SYS, SYNC_IBUF_BITMAP_MUTEX, SYNC_RSEG,
      SYNC_TRX_UNDO, SYNC_PURGE_LATCH, SYNC_PURGE_QUEUE, SYNC_DICT_AUTOINC_MUTEX, SYNC_DICT_OPERATION, SYNC_DICT_HEADER,
      SYNC_TRX_I_S_RWLOCK, SYNC_TRX_I_S_LAST_READ, SYNC_IBUF_MUTEX, SYNC_INDEX_ONLINE_LOG, SYNC_STATS_AUTO_RECALC }
    ensures Accepts(levels, level, env) <==> forall l :: l in levels ==> level < l
  {
  }

  /** Two of them are waived by a server switch. */
  lemma AcceptsWaivable(levels: set<nat>, env: Env)
    ensures Accepts(levels, SYNC_TRX_SYS_HEADER, env) <==> env.starting || forall l :: l in levels ==> SYNC_TRX_SYS_HEADER < l
    ensures Accepts(levels, SYNC_DICT, env) <==> env.debugPrints || forall l :: l in levels ==> SYNC_DICT < l
  {
  }

  /** One transaction mutex, or any number of them under lock_sys; so too the record locks. */
  lemma AcceptsTrx(levels: set<nat>, env: Env)
    ensures Accepts(levels, SYNC_TRX, env) <==>
      Above(levels, SYNC_TRX) || (SYNC_LOCK_SYS in levels && AtLeast(levels, SYNC_TRX))
    ensures Accepts(levels, SYNC_REC_LOCK, env) <==>
      Above(levels, SYNC_REC_LOCK) || (SYNC_LOCK_SYS in levels && AtLeast(levels, SYNC_REC_LOCK))
  {
  }

  /** One block or page hash, or any number of them under a buffer pool. */
  lemma AcceptsBlock(levels: set<nat>, env: Env)
    ensures Accepts(levels, SYNC_BUF_PAGE_HASH, env) <==>
      Above(levels, SYNC_BUF_PAGE_HASH) || (SYNC_BUF_POOL in levels && AtLeast(levels, SYNC_BUF_PAGE_HASH))
    ensures Accepts(levels, SYNC_BUF_BLOCK, env) <==>
      Above(levels, SYNC_BUF_BLOCK) || (SYNC_BUF_POOL in levels && AtLeast(levels, SYNC_BUF_BLOCK))
  {
  }

  /** One bitmap page, or any number of them under their master mutex; not checked at start-up. */
  lemma AcceptsBitmap(levels: set<nat>, env: Env)
    ensures Accepts(levels, SYNC_IBUF_BITMAP, env) <==>
      if SYNC_IBUF_BITMAP_MUTEX in levels then AtLeast(levels, SYNC_IBUF_BITMAP)
      else env.starting || Above(levels, SYNC_IBUF_BITMAP)
  {
  }

  /** Several mutexes of the level side by side. */
  lemma AcceptsSeveral(levels: set<nat>, env: Env)
    ensures Accepts(levels, SYNC_BUF_FLUSH_LIST, env) <==> AtLeast(levels, SYNC_BUF_FLUSH_LIST)
    ensures Accepts(levels, SYNC_BUF_POOL, env) <==> AtLeast(levels, SYNC_BUF_POOL)
  {
  }

  lemma AcceptsIndexTree(levels: set<nat>, env: Env)
    ensures Accepts(levels, SYNC_INDEX_TREE, env) <==> AtLeast(levels, SYNC_TREE_NODE)
    ensures Accepts(levels, SYNC_IBUF_INDEX_TREE, env) <==>
      AtLeast(levels, if SYNC_FSP in levels then SYNC_IBUF_INDEX_TREE else SYNC_IBUF_TREE_NODE)
  {
  }

  /** Nothing below the tablespace, and not while certain mutexes of the insert buffer are held. */
  lemma AcceptsIbuf(levels: set<nat>, env: Env)
    ensures Accepts(levels, SYNC_IBUF_PESS_INSERT_MUTEX, env) <==> AtLeast(levels, SYNC_FSP) && SYNC_IBUF_MUTEX !in levels
    ensures Accepts(levels, SYNC_IBUF_HEADER, env) <==>
      AtLeast(levels, SYNC_FSP) && SYNC_IBUF_MUTEX !in levels && SYNC_IBUF_PESS_INSERT_MUTEX !in levels
  {
  }

  /** Pages and headers under a latch that must cover them. */
  lemma AcceptsCovered(levels: set<nat>, env: Env)
    ensures Accepts(levels, SYNC_FSP_PAGE, env) <==> SYNC_FSP in levels
    ensures Accepts(levels, SYNC_RSEG_HEADER, env) <==> SYNC_RSEG in levels
    ensures Accepts(levels, SYNC_RSEG_HEADER_NEW, env) <==> SYNC_FSP_PAGE in levels
    ensures Accepts(levels, SYNC_TREE_NODE_NEW, env) <==> SYNC_FSP_PAGE in levels
  {
    assert forall l: nat :: !(levels !! {l}) <==> l in levels;
  }

  lemma AcceptsIbufPage(levels: set<nat>, env: Env)
    ensures Accepts(levels, SYNC_IBUF_TREE_NODE_NEW, env) <==> SYNC_IBUF_MUTEX in levels || SYNC_FSP in levels
    ensures Accepts(levels, SYNC_IBUF_TREE_NODE, env) <==>
      SYNC_IBUF_INDEX_TREE in levels || AtLeast(levels, SYNC_IBUF_TREE_NODE)
  {
    assert !(levels !! {SYNC_IBUF_INDEX_TREE}) <==> SYNC_IBUF_INDEX_TREE in levels;
  }

  /** Pages under a latch that covers them, or in order. */
  lemma AcceptsPage(levels: set<nat>, env: Env)
    ensures Accepts(levels, SYNC_FSP, env) <==> SYNC_FSP in levels || Above(levels, SYNC_FSP)
    ensures Accepts(levels, SYNC_TRX_UNDO_PAGE, env) <==>
      SYNC_TRX_UNDO in levels || SYNC_RSEG in levels || AtLeast(levels, SYNC_TRX_UNDO_PAGE)
  {
    assert !(levels !! {SYNC_FSP}) <==> SYNC_FSP in levels;
  }

  lemma AcceptsTreeNode(levels: set<nat>, env: Env)
    ensures Accepts(levels, SYNC_TREE_NODE, env) <==>
      SYNC_INDEX_TREE in levels || SYNC_DICT_OPERATION in levels || AtLeast(levels, SYNC_TREE_NODE)
  {
  }

  // ---------- what the table orders ----------

  /** The levels that open a gate; latches of these levels are mutexes. */
  const GATE_LEVELS: set<nat> := {SYNC_LOCK_SYS, SYNC_IBUF_BITMAP_MUTEX, SYNC_BUF_POOL}

  /**
   The levels the table really orders, given the gate levels of which there is only one
   latch: strict ones, gated ones with a unique gate, and a unique gate itself.
   */
  predicate Ordered(level: nat, uniqueGates: set<nat>, env: Env) {
    match RuleOf(level, env)
    case Strict => true
    case Waivable(waived) => !waived
    case Gated(gate, waived) => gate in uniqueGates && !waived
    case NotBelow(limit, _) => level in uniqueGates && limit == level - 1
    case _ => false
  }

  /** What acceptance at an ordered level means: strictly below, or level with the gate in hand. */
  lemma OrderedMeansDescending(levels: set<nat>, level: nat, uniqueGates: set<nat>, env: Env)
    requires Ordered(level, uniqueGates, env)
    ensures Accepts(levels, level, env) ==> AtLeast(levels, level)
    ensures Accepts(levels, level, env) && level in levels && level !in uniqueGates ==>
      RuleOf(level, env).Gated? && RuleOf(level, env).gate in levels * uniqueGates
  {
  }

  /**
   A level that a thread may latch with empty hands is ordered, were all other gates unique,
   exactly when the table refuses a second latch of that level to a thread that holds
   nothing else.
   */
  lemma OrderedIffSelfRefusing(level: nat, env: Env)
    requires Accepts({}, level, env)
    ensures !Accepts({level}, level, env) <==> Ordered(level, GATE_LEVELS - {level}, env)
  {
    match RuleOf(level, env)
    case NotBelow(limit, without) =>
      assert {level} !! without;
      assert Above({level}, limit);
    case NeedsOrAbove(anyOf, limit) =>
      if level == SYNC_FSP { assert level in {level} && level in anyOf; }
    case _ =>
  }

  /** A gated level may be latched next to its gate, and again next to both. */
  lemma GateAdmits(level: nat, env: Env)
    requires RuleOf(level, env).Gated?
    ensures var gate := RuleOf(level, env).gate;
      && gate in GATE_LEVELS && level !in GATE_LEVELS
      && Accepts({}, gate, env) && Accepts({gate}, level, env) && Accepts({gate, level}, level, env)
  {
    var gate := RuleOf(level, env).gate;
    assert gate in {gate, level};
  }
}
