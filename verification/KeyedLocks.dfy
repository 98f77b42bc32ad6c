/** The per-player executor: sharded caches of reference-counted locks, with idle pruning and
    eviction, behind which operations of one player must run one at a time. */
module KeyedLocks {
  import opened Common

  const LOCKS_PER_SHARD: nat := 1024
  const LOCK_IDLE_TTL: nat := 60_000_000_000  // nanoseconds
  const PRUNE_INTERVAL: nat := 256

  /** A lock object is named by the number it was allocated under. */
  datatype CachedLock = CachedLock(lock: nat, lastSeen: nat)

  datatype Shard = Shard(entries: map<PlayerKey, CachedLock>, operations: nat)

  // ---------------------------------------------------------------- one lookup

  /** `busy` are the locks whose reference count was seen above one. */
  predicate Idle(entry: CachedLock, busy: set<nat>) {
    entry.lock !in busy
  }

  /** The reference counts are read once while pruning and again while evicting. In between,
      references can only be dropped. */
  datatype Seen = Seen(pruning: set<nat>, evicting: set<nat>)

  predicate Consistent(seen: Seen) {
    seen.evicting <= seen.pruning
  }

  function Prune(entries: map<PlayerKey, CachedLock>, now: nat, busy: set<nat>): map<PlayerKey, CachedLock> {
    map k | k in entries && (!Idle(entries[k], busy) || SatSub(now, entries[k].lastSeen) < LOCK_IDLE_TTL) :: entries[k]
  }

  /** An idle entry that nothing idle is older than; none only when nothing is idle. */
  ghost predicate OldestIdle(entries: map<PlayerKey, CachedLock>, busy: set<nat>, victim: Option<PlayerKey>) {
    match victim
    case None => forall k :: k in entries ==> !Idle(entries[k], busy)
    case Some(v) =>
      && v in entries
      && Idle(entries[v], busy)
      && (forall k :: k in entries && Idle(entries[k], busy) ==> entries[v].lastSeen <= entries[k].lastSeen)
  }

  function Ticked(s: Shard): nat {
    if s.operations == U64_MAX then 0 else s.operations + 1
  }

  function Pruned(s: Shard, now: nat, busy: set<nat>): map<PlayerKey, CachedLock> {
    if Ticked(s) % PRUNE_INTERVAL == 0 then Prune(s.entries, now, busy) else s.entries
  }

  function Without(entries: map<PlayerKey, CachedLock>, victim: Option<PlayerKey>): map<PlayerKey, CachedLock> {
    if victim.Some? then entries - {victim.value} else entries
  }

  /** The shard after looking `key` up; a miss stores lock `unused` and, in a full shard, first
      drops `victim`. */
  function LookUp(s: Shard, key: PlayerKey, now: nat, seen: Seen, victim: Option<PlayerKey>, unused: nat): Shard {
    var kept := Pruned(s, now, seen.pruning);
    if key in kept then Shard(kept[key := CachedLock(kept[key].lock, now)], Ticked(s))
    else
      var room := if |kept| >= LOCKS_PER_SHARD then Without(kept, victim) else kept;
      Shard(room[key := CachedLock(unused, now)], Ticked(s))
  }

  /** `victim` is a choice the search may make, where the lookup searches at all. */
  ghost predicate VictimFor(s: Shard, key: PlayerKey, now: nat, seen: Seen, victim: Option<PlayerKey>) {
    var kept := Pruned(s, now, seen.pruning);
    key !in kept && |kept| >= LOCKS_PER_SHARD ==> OldestIdle(kept, seen.evicting, victim)
  }

  class LockShard {
    var entries: map<PlayerKey, CachedLock>
    var operations: nat

    function View(): Shard
      reads this
    {
      Shard(entries, operations)
    }

    constructor ()
      ensures View() == Shard(map[], 0)
    {
      entries, operations := map[], 0;
    }

    method Retain(now: nat, busy: set<nat>)
      modifies this`entries
      ensures entries == Prune(old(entries), now, busy)
    {
      var todo := entries.Keys;
      while todo != {}
        invariant todo <= old(entries).Keys
        invariant forall k :: k in todo ==> k in entries && entries[k] == old(entries)[k]
        invariant entries.Keys <= old(entries).Keys
        invariant forall k :: k in old(entries) && k !in todo ==>
          ((k in entries) == (k in Prune(old(entries), now, busy)))
        invariant forall k :: k in entries ==> entries[k] == old(entries)[k]
        decreases |todo|
      {
        var k :| k in todo;
        if Idle(entries[k], busy) && SatSub(now, entries[k].lastSeen) >= LOCK_IDLE_TTL {
          entries := entries - {k};
        }
        todo := todo - {k};
      }
    }

    method FindOldestUnlocked(busy: set<nat>) returns (oldest: Option<PlayerKey>)
      ensures OldestIdle(entries, busy, oldest)
    {
      oldest := None;
      var todo := entries.Keys;
      while todo != {}
        invariant todo <= entries.Keys
        invariant oldest.None? ==> forall k :: k in entries && k !in todo ==> !Idle(entries[k], busy)
        invariant oldest.Some? ==> oldest.value in entries && Idle(entries[oldest.value], busy)
        invariant oldest.Some? ==> forall k :: k in entries && k !in todo && Idle(entries[k], busy) ==>
          entries[oldest.value].lastSeen <= entries[k].lastSeen
        decreases |todo|
      {
        var k :| k in todo;
        if Idle(entries[k], busy) && (oldest.None? || entries[k].lastSeen < entries[oldest.value].lastSeen) {
          oldest := Some(k);
        }
        todo := todo - {k};
      }
    }

    /** The critical section of one execution: finds or creates the lock of `key`. */
    method Obtain(
        key: PlayerKey, now: nat, seen: Seen, unused: nat) returns (lock: nat, ghost victim: Option<PlayerKey>)
      modifies this
      ensures VictimFor(old(View()), key, now, seen, victim)
      ensures View() == LookUp(old(View()), key, now, seen, victim, unused)
      ensures key in entries && entries[key].lock == lock
    {
      operations := if operations == U64_MAX then 0 else operations + 1;
      if operations % PRUNE_INTERVAL == 0 {
        Retain(now, seen.pruning);
      }
      victim := None;
      if key in entries {
        lock := entries[key].lock;
        entries := entries[key := CachedLock(lock, now)];
      } else {
        if |entries| >= LOCKS_PER_SHARD {
          var oldest := FindOldestUnlocked(seen.evicting);
          victim := oldest;
          if oldest.Some? {
            entries := entries - {oldest.value};
          }
        }
        lock := unused;
        entries := entries[key := CachedLock(lock, now)];
      }
    }
  }

  /** A lookup keeps every busy entry where it is, touches no other player's lock, and names
      the player's one lock: the cached one if it survives pruning, otherwise a new one. */
  lemma LookUpKeeps(s: Shard, key: PlayerKey, now: nat, seen: Seen, victim: Option<PlayerKey>, unused: nat)
    requires Consistent(seen) && VictimFor(s, key, now, seen, victim)
    ensures var n := LookUp(s, key, now, seen, victim, unused);
            && key in n.entries
            && (n.entries[key].lock == unused || (key in s.entries && n.entries[key].lock == s.entries[key].lock))
            && (key in s.entries && !Idle(s.entries[key], seen.evicting) ==> n.entries[key].lock == s.entries[key].lock)
            && (forall k :: k in n.entries && k != key ==> k in s.entries && n.entries[k] == s.entries[k])
            && (forall k :: k in s.entries && !Idle(s.entries[k], seen.evicting) ==> k in n.entries)
  {
  }

  /** Pruning is due and drops this entry: idle, and not looked up for the whole time to live. */
  predicate Stale(s: Shard, now: nat, busy: set<nat>, k: PlayerKey)
    requires k in s.entries
  {
    && (s.operations + 1) % PRUNE_INTERVAL == 0
    && s.entries[k].lock !in busy
    && now >= s.entries[k].lastSeen + LOCK_IDLE_TTL
  }

  /** A lookup, exactly. The player's entry is seen now, under its old lock unless it was stale; of
      the others, the stale ones go, and a miss in a full shard also drops the victim. */
  lemma LookUpExactly(s: Shard, key: PlayerKey, now: nat, seen: Seen, victim: Option<PlayerKey>, unused: nat)
    requires s.operations <= U64_MAX
    ensures var n := LookUp(s, key, now, seen, victim, unused);
            var hit := key in s.entries && !Stale(s, now, seen.pruning, key);
            var survivors := set k | k in s.entries && !Stale(s, now, seen.pruning, k);
            var crowded := !hit && |survivors| >= LOCKS_PER_SHARD;
            && n.operations == (s.operations + 1) % 0x1_0000_0000_0000_0000
            && key in n.entries
            && n.entries[key] == CachedLock(if hit then s.entries[key].lock else unused, now)
            && (forall k :: k != key ==>
                  (k in n.entries <==> k in survivors && !(crowded && victim == Some(k))))
            && (forall k :: k in n.entries && k != key ==> n.entries[k] == s.entries[k])
  {
    var kept := Pruned(s, now, seen.pruning);
    forall k
      ensures k in kept <==> k in s.entries && !Stale(s, now, seen.pruning, k)
      ensures k in kept ==> kept[k] == s.entries[k]
    {
    }
    hide Pruned, Stale;
    assert kept.Keys == set k | k in s.entries && !Stale(s, now, seen.pruning, k);
  }

  /** The cache outgrows its bound only while every cached lock is in use. */
  lemma GrowthMeansAllBusy(s: Shard, key: PlayerKey, now: nat, seen: Seen, victim: Option<PlayerKey>, unused: nat)
    requires VictimFor(s, key, now, seen, victim)
    ensures var n := LookUp(s, key, now, seen, victim, unused);
            |n.entries| <= LOCKS_PER_SHARD || |n.entries| <= |s.entries| ||
            (forall k :: k in n.entries && k != key ==> !Idle(n.entries[k], seen.evicting))
  {
    var kept := Pruned(s, now, seen.pruning);
    assert kept.Keys <= s.entries.Keys;
    SubsetSize(kept.Keys, s.entries.Keys);
    hide Prune, Pruned, Ticked;
    var n := LookUp(s, key, now, seen, victim, unused);
    if key in kept {
      assert n.entries.Keys == kept.Keys;
    } else if |kept| < LOCKS_PER_SHARD || victim.None? {
      assert n.entries.Keys == kept.Keys + {key};
    } else {
      assert n.entries.Keys == kept.Keys - {victim.value} + {key};
    }
  }

  // ---------------------------------------------------------------- all interleavings

  datatype Stage = Waiting | Running | Leaving

  /** An execution past its lookup: it holds a reference to `lock` until it is dropped, and the
      lock itself while `Running`. */
  datatype Execution = Execution(key: PlayerKey, lock: nat, stage: Stage)

  datatype Executor = Executor(shards: seq<Shard>, live: map<nat, Execution>, nextLock: nat)

  /** `Look` is the section under the shard's own mutex. References are only ever created
      inside it and may be dropped while it runs, so every lock still referenced when it ends
      was seen busy, and some seen busy may since have been dropped. */
  datatype LockStep =
    | Look(task: nat, key: PlayerKey, now: nat, seen: Seen, victim: Option<PlayerKey>)
    | Acquire(task: nat)
    | Release(task: nat)
    | Drop(task: nat)

  function ShardOf(hash: PlayerKey -> nat, shards: nat, key: PlayerKey): (i: nat)
    requires 0 < shards
    ensures i < shards
  {
    hash(key) % shards
  }

  ghost predicate SeesReferences(e: Executor, busy: set<nat>) {
    forall t :: t in e.live ==> e.live[t].lock in busy
  }

  ghost predicate LockEnabled(hash: PlayerKey -> nat, e: Executor, step: LockStep) {
    match step
    case Look(task, key, now, seen, victim) =>
      && 0 < |e.shards|
      && task !in e.live
      && Consistent(seen) && SeesReferences(e, seen.evicting)
      && VictimFor(e.shards[ShardOf(hash, |e.shards|, key)], key, now, seen, victim)
    case Acquire(task) =>
      && task in e.live && e.live[task].stage == Waiting
      && (forall t :: t in e.live && e.live[t].stage == Running ==> e.live[t].lock != e.live[task].lock)
    case Release(task) => task in e.live && e.live[task].stage == Running
    case Drop(task) => task in e.live && e.live[task].stage != Running
  }

  ghost function LockExec(hash: PlayerKey -> nat, e: Executor, step: LockStep): Executor
    requires LockEnabled(hash, e, step)
  {
    match step
    case Look(task, key, now, seen, victim) =>
      var i := ShardOf(hash, |e.shards|, key);
      var shard := LookUp(e.shards[i], key, now, seen, victim, e.nextLock);
      LookUpKeeps(e.shards[i], key, now, seen, victim, e.nextLock);
      Executor(e.shards[i := shard], e.live[task := Execution(key, shard.entries[key].lock, Waiting)], e.nextLock + 1)
    case Acquire(task) => e.(live := e.live[task := e.live[task].(stage := Running)])
    case Release(task) => e.(live := e.live[task := e.live[task].(stage := Leaving)])
    case Drop(task) => e.(live := e.live - {task})
  }

  ghost predicate LockLegal(hash: PlayerKey -> nat, e: Executor, steps: seq<LockStep>)
    decreases |steps|
  {
    steps == [] || (LockEnabled(hash, e, steps[0]) && LockLegal(hash, LockExec(hash, e, steps[0]), steps[1..]))
  }

  ghost function LockRun(hash: PlayerKey -> nat, e: Executor, steps: seq<LockStep>): Executor
    requires LockLegal(hash, e, steps)
    decreases |steps|
  {
    if steps == [] then e else LockRun(hash, LockExec(hash, e, steps[0]), steps[1..])
  }

  /** The lock the cache would hand to `key` without creating one. */
  ghost predicate Cached(hash: PlayerKey -> nat, e: Executor, key: PlayerKey, lock: nat) {
    && 0 < |e.shards|
    && var entries := e.shards[ShardOf(hash, |e.shards|, key)].entries;
       key in entries && entries[key].lock == lock
  }

  /** Distinct players have distinct cached locks, all allocated already. */
  ghost predicate CacheInv(hash: PlayerKey -> nat, e: Executor) {
    && (forall k, l: nat :: Cached(hash, e, k, l) ==> l < e.nextLock)
    && (forall k, m, l: nat :: Cached(hash, e, k, l) && Cached(hash, e, m, l) ==> k == m)
  }

  /** Every live execution still holds its player's cached lock, and one at most runs under it. */
  ghost predicate LiveInv(hash: PlayerKey -> nat, e: Executor) {
    && (forall t :: t in e.live ==> Cached(hash, e, e.live[t].key, e.live[t].lock))
    && (forall t, u :: t in e.live && u in e.live && e.live[t].stage == Running && e.live[u].stage == Running ==>
          t == u || e.live[t].lock != e.live[u].lock)
  }

  /** How one lookup changes what is cached for any player. */
  lemma LookCached(hash: PlayerKey -> nat, e: Executor, step: LockStep, k: PlayerKey, l: nat)
    requires step.Look? && LockEnabled(hash, e, step)
    ensures var n := LockExec(hash, e, step);
            && (k != step.key && Cached(hash, n, k, l) ==> Cached(hash, e, k, l))
            && (Cached(hash, n, step.key, l) ==>
                l == n.live[step.task].lock && (l == e.nextLock || Cached(hash, e, step.key, l)))
            && (l in step.seen.evicting && Cached(hash, e, k, l) ==> Cached(hash, n, k, l))
            && Cached(hash, n, step.key, n.live[step.task].lock)
  {
    var i := ShardOf(hash, |e.shards|, step.key);
    LookUpKeeps(e.shards[i], step.key, step.now, step.seen, step.victim, e.nextLock);
  }

  ghost predicate LocksInv(hash: PlayerKey -> nat, e: Executor) {
    CacheInv(hash, e) && LiveInv(hash, e)
  }

  lemma LookKeepsCache(hash: PlayerKey -> nat, e: Executor, step: LockStep)
    requires CacheInv(hash, e)
    requires step.Look? && LockEnabled(hash, e, step)
    ensures CacheInv(hash, LockExec(hash, e, step))
  {
    var n := LockExec(hash, e, step);
    assert n.nextLock == e.nextLock + 1;
    hide LockExec, Cached, LockEnabled;
    forall k, l: nat
      ensures Cached(hash, n, k, l) ==> l < n.nextLock
    {
      LookCached(hash, e, step, k, l);
    }
    forall k, m, l: nat | Cached(hash, n, k, l) && Cached(hash, n, m, l)
      ensures k == m
    {
      LookCached(hash, e, step, k, l);
      LookCached(hash, e, step, m, l);
    }
  }

  lemma LookKeepsLive(hash: PlayerKey -> nat, e: Executor, step: LockStep)
    requires LiveInv(hash, e)
    requires step.Look? && LockEnabled(hash, e, step)
    ensures LiveInv(hash, LockExec(hash, e, step))
  {
    var n := LockExec(hash, e, step);
    var mine := n.live[step.task];
    assert n.live == e.live[step.task := mine] && mine.key == step.key && mine.stage == Waiting;
    assert SeesReferences(e, step.seen.evicting);
    hide LockExec, Cached, LockEnabled;
    forall t | t in n.live
      ensures Cached(hash, n, n.live[t].key, n.live[t].lock)
    {
      LookCached(hash, e, step, n.live[t].key, n.live[t].lock);
    }
  }

  lemma LockStepKeeps(hash: PlayerKey -> nat, e: Executor, step: LockStep)
    requires LocksInv(hash, e)
    requires LockEnabled(hash, e, step)
    ensures LocksInv(hash, LockExec(hash, e, step))
  {
    if step.Look? {
      LookKeepsCache(hash, e, step);
      LookKeepsLive(hash, e, step);
    } else {
      var n := LockExec(hash, e, step);
      assert n.shards == e.shards;
      assert forall k, l: nat :: Cached(hash, n, k, l) <==> Cached(hash, e, k, l);
    }
  }

  lemma {:induction false} LockRunKeeps(hash: PlayerKey -> nat, e: Executor, steps: seq<LockStep>)
    requires LocksInv(hash, e)
    requires LockLegal(hash, e, steps)
    ensures LocksInv(hash, LockRun(hash, e, steps))
    decreases |steps|
  {
    hide LocksInv, LockExec, LockEnabled;
    if steps != [] {
      LockStepKeeps(hash, e, steps[0]);
      LockRunKeeps(hash, LockExec(hash, e, steps[0]), steps[1..]);
    }
  }

  ghost predicate Empty(e: Executor) {
    && e.live == map[]
    && (forall i :: 0 <= i < |e.shards| ==> e.shards[i] == Shard(map[], 0))
  }

  /** Over every interleaving of lookups, prunings, evictions, cancellations and completions:
      two running operations belong to different players; operations of one player contend for
      one lock; and operations of different players never share one. */
  lemma OnePerPlayer(hash: PlayerKey -> nat, e: Executor, steps: seq<LockStep>)
    requires Empty(e)
    requires LockLegal(hash, e, steps)
    ensures var n := LockRun(hash, e, steps);
            && (forall t, u ::
                  t in n.live && u in n.live && n.live[t].stage == Running && n.live[u].stage == Running ==>
                  t == u || n.live[t].key != n.live[u].key)
            && (forall t, u :: t in n.live && u in n.live ==>
                (n.live[t].key == n.live[u].key <==> n.live[t].lock == n.live[u].lock))
  {
    assert forall k, l: nat :: !Cached(hash, e, k, l);
    LockRunKeeps(hash, e, steps);
    var n := LockRun(hash, e, steps);
    forall t, u | t in n.live && u in n.live
      ensures n.live[t].key == n.live[u].key <==> n.live[t].lock == n.live[u].lock
    {
      assert Cached(hash, n, n.live[t].key, n.live[t].lock);
      assert Cached(hash, n, n.live[u].key, n.live[u].lock);
    }
  }

  /** A player's lock is never stranded: when nobody runs an operation of the player, every
      waiting operation of that player may take the lock. */
  lemma WaiterMayRun(hash: PlayerKey -> nat, e: Executor, steps: seq<LockStep>, task: nat)
    requires Empty(e)
    requires LockLegal(hash, e, steps)
    requires var n := LockRun(hash, e, steps); task in n.live && n.live[task].stage == Waiting
    ensures var n := LockRun(hash, e, steps);
            LockEnabled(hash, n, Acquire(task)) <==>
            (forall t :: t in n.live && n.live[t].stage == Running ==> n.live[t].key != n.live[task].key)
  {
    OnePerPlayer(hash, e, steps);
  }

  // ---------------------------------------------------------------- least recently used

  /** The time of the last lookup of a player's lock. */
  ghost function LastLook(steps: seq<LockStep>, key: PlayerKey): Option<nat> {
    if steps == [] then None
    else
      var last := steps[|steps| - 1];
      if last.Look? && last.key == key then Some(last.now) else LastLook(steps[..|steps| - 1], key)
  }

  /** Every cached entry carries the time of its player's last lookup. */
  ghost predicate TimesInv(e: Executor, past: seq<LockStep>) {
    forall i, k :: 0 <= i < |e.shards| && k in e.shards[i].entries ==>
      LastLook(past, k) == Some(e.shards[i].entries[k].lastSeen)
  }

  /** Every player's entry is in the shard its hash names. */
  ghost predicate HomeInv(hash: PlayerKey -> nat, e: Executor) {
    forall i, k :: 0 <= i < |e.shards| && k in e.shards[i].entries ==> i == ShardOf(hash, |e.shards|, k)
  }

  lemma LookKeepsTimes(hash: PlayerKey -> nat, e: Executor, past: seq<LockStep>, step: LockStep)
    requires LockEnabled(hash, e, step) && TimesInv(e, past) && HomeInv(hash, e)
    ensures TimesInv(LockExec(hash, e, step), past + [step]) && HomeInv(hash, LockExec(hash, e, step))
  {
    var n := LockExec(hash, e, step);
    assert (past + [step])[..|past|] == past;
    if step.Look? {
      var home := ShardOf(hash, |e.shards|, step.key);
      LookUpKeeps(e.shards[home], step.key, step.now, step.seen, step.victim, e.nextLock);
      LookUpSees(e.shards[home], step.key, step.now, step.seen, step.victim, e.nextLock);
      hide LookUp;
      forall i, k | 0 <= i < |n.shards| && k in n.shards[i].entries
        ensures LastLook(past + [step], k) == Some(n.shards[i].entries[k].lastSeen)
        ensures i == ShardOf(hash, |n.shards|, k)
      {
        if k != step.key {
          assert k in e.shards[i].entries && n.shards[i].entries[k] == e.shards[i].entries[k];
        }
      }
    } else {
      assert n.shards == e.shards;
      assert forall k :: LastLook(past + [step], k) == LastLook(past, k);
    }
  }

  lemma LookUpSees(s: Shard, key: PlayerKey, now: nat, seen: Seen, victim: Option<PlayerKey>, unused: nat)
    ensures var n := LookUp(s, key, now, seen, victim, unused); key in n.entries && n.entries[key].lastSeen == now
  {
  }

  lemma {:induction false} RunKeepsTimes(
      hash: PlayerKey -> nat, e: Executor, past: seq<LockStep>, steps: seq<LockStep>)
    requires LockLegal(hash, e, steps) && TimesInv(e, past) && HomeInv(hash, e)
    ensures TimesInv(LockRun(hash, e, steps), past + steps) && HomeInv(hash, LockRun(hash, e, steps))
    decreases |steps|
  {
    hide TimesInv, HomeInv, LockExec, LockEnabled;
    if steps == [] {
      assert past + steps == past;
    } else {
      LookKeepsTimes(hash, e, past, steps[0]);
      RunKeepsTimes(hash, LockExec(hash, e, steps[0]), past + [steps[0]], steps[1..]);
      assert (past + [steps[0]]) + steps[1..] == past + steps;
    }
  }

  /** After any run, what a full shard evicts is an idle lock whose player's last lookup is no
      later than that of any other idle one. */
  lemma EvictsLeastRecent(hash: PlayerKey -> nat, e: Executor, steps: seq<LockStep>, step: LockStep, k: PlayerKey)
    requires Empty(e) && LockLegal(hash, e, steps) && step.Look? && step.victim.Some?
    requires LockEnabled(hash, LockRun(hash, e, steps), step)
    requires var n := LockRun(hash, e, steps);
             var kept := Pruned(n.shards[ShardOf(hash, |n.shards|, step.key)], step.now, step.seen.pruning);
             && step.key !in kept && |kept| >= LOCKS_PER_SHARD
             && k in kept && kept[k].lock !in step.seen.evicting
    ensures var victim, other := LastLook(steps, step.victim.value), LastLook(steps, k);
            victim.Some? && other.Some? && victim.value <= other.value
  {
    RunKeepsTimes(hash, e, [], steps);
    assert [] + steps == steps;
    var n := LockRun(hash, e, steps);
    var home := ShardOf(hash, |n.shards|, step.key);
    var kept := Pruned(n.shards[home], step.now, step.seen.pruning);
    hide LockRun, LockLegal, LastLook;
    assert OldestIdle(kept, step.seen.evicting, step.victim);
    assert k in n.shards[home].entries && step.victim.value in n.shards[home].entries;
  }
}
