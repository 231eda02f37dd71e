/** The order of the disk cache over whole runs: the most recently used first, and what is evicted used longest ago. */
module FileCacheOrder {
  import opened Bytes
  import opened FileCache
  import opened FileCacheRuns
  import opened Lru
  import opened Options

  // ---------- When a file was last used ----------

  /** The step hands out the cached file, or puts it into the cache. */
  predicate Uses(s: System, step: FileCacheRuns.Step, next: System, key: string) {
    match step
    case Open(id, wanted, _, _) => wanted == key && id in next.tasks && next.tasks[id].phase.Hit?
    case Settle(id, _, _) =>
      id in s.tasks && s.tasks[id].key == key && key !in s.cache.entries && key in next.cache.entries
    case _ => false
  }

  /** The number of the last step up to moment k that used the file; 0 for none. */
  function LastUsed(h: seq<System>, steps: seq<FileCacheRuns.Step>, k: nat, key: string): (n: nat)
    requires |h| == |steps| + 1 && k < |h|
    ensures n <= k
  {
    if k == 0 then 0
    else if Uses(h[k - 1], steps[k - 1], h[k], key) then k
    else LastUsed(h, steps, k - 1, key)
  }

  // ---------- Lists in order ----------

  type Rank = string -> int

  /** Ranks fall along the list. */
  ghost predicate Ranked(q: seq<Entry>, rank: Rank) {
    forall i, j :: 0 <= i < j < |q| ==> rank(q[i].key) > rank(q[j].key)
  }

  lemma {:induction false} RankedWithout(q: seq<Entry>, key: string, rank: Rank)
    requires Ranked(q, rank)
    ensures Ranked(Without(q, key), rank) && forall x <- Without(q, key) :: x in q && x.key != key
  {
    if q != [] {
      RankedWithout(q[..|q| - 1], key, rank);
    }
  }

  lemma RankedFront(item: Entry, rest: seq<Entry>, rank: Rank)
    requires Ranked(rest, rank) && forall x <- rest :: rank(x.key) < rank(item.key)
    ensures Ranked([item] + rest, rank)
  {
  }

  lemma SameRanks(q: seq<Entry>, rank: Rank, other: Rank)
    requires Ranked(q, rank) && forall x <- q :: other(x.key) == rank(x.key)
    ensures Ranked(q, other)
  {
  }

  lemma {:induction false} RankedEvicted(c: Cache, n: nat, fails: Fails, t: nat, rank: Rank)
    requires n <= |c.lru| && Ranked(c.lru, rank)
    ensures Ranked(Evicted(c, n, fails, t).cache.lru, rank)
  {
    if n > 0 && c.lru[n - 1].value.readers == 0 && !fails(t) {
      RankedWithout(c.lru, c.lru[n - 1].key, rank);
    } else if n > 0 {
      RankedEvicted(c, n - 1, fails, if c.lru[n - 1].value.readers == 0 then t + 1 else t, rank);
    }
  }

  lemma {:induction false} RankedRoom(c: Cache, fails: Fails, t: nat, rank: Rank)
    requires Ranked(c.lru, rank)
    ensures Ranked(RoomMade(c, fails, t).cache.lru, rank)
    decreases |c.lru|
  {
    if Tight(c) {
      RankedEvicted(c, |c.lru|, fails, t, rank);
      var e := Evicted(c, |c.lru|, fails, t);
      if e.done {
        RankedRoom(e.cache, fails, e.attempts, rank);
      }
    }
  }

  // ---------- Every step keeps the order ----------

  /** A used file ranks above all, the others as before. */
  function NewRank(s: System, step: FileCacheRuns.Step, next: System, rank: Rank, top: int): Rank {
    (key: string) => if Uses(s, step, next, key) then top else rank(key)
  }

  lemma StepKeepsOrder(s: System, step: FileCacheRuns.Step, content: Content, rank: Rank, top: int)
    requires Inv(s, content) && Enabled(s, step, content) && Ranked(s.cache.lru, rank)
    requires forall key :: rank(key) < top
    ensures var next := FileCacheRuns.Next(s, step, content);
            Ranked(next.cache.lru, NewRank(s, step, next, rank, top))
  {
    match step {
      case Open(id, key, opens, fails) => OpenKeepsOrder(s, id, key, opens, fails, content, rank, top);
      case Settle(id, commits, renames) => SettleKeepsOrder(s, id, commits, renames, content, rank, top);
      case _ =>
        var next := FileCacheRuns.Next(s, step, content);
        OthersKeepOrder(s, step, content, rank);
        SameRanks(next.cache.lru, rank, NewRank(s, step, next, rank, top));
    }
  }

  lemma OthersKeepOrder(s: System, step: FileCacheRuns.Step, content: Content, rank: Rank)
    requires Enabled(s, step, content) && Ranked(s.cache.lru, rank) && !step.Open? && !step.Settle?
    ensures Ranked(FileCacheRuns.Next(s, step, content).cache.lru, rank)
  {
    if step.Reserve? {
      RankedRoom(s.cache, step.deletes, 0, rank);
    }
  }

  lemma OpenKeepsOrder(s: System, id: nat, key: string, opens: bool, fails: bool, content: Content, rank: Rank,
                       top: int)
    requires Inv(s, content) && id !in s.tasks && Ranked(s.cache.lru, rank) && forall k :: rank(k) < top
    ensures var step := Open(id, key, opens, fails);
            var next := FileCacheRuns.Next(s, step, content);
            Ranked(next.cache.lru, NewRank(s, step, next, rank, top))
  {
    var step := Open(id, key, opens, fails);
    var next := FileCacheRuns.Next(s, step, content);
    var now := NewRank(s, step, next, rank, top);
    RankedWithout(s.cache.lru, key, rank);
    var rest := Without(s.cache.lru, key);
    if LookedUp(s.cache, key, opens, fails).found.Some? {
      SameRanks(rest, rank, now);
      RankedFront(next.cache.lru[0], rest, now);
    } else {
      SameRanks(rest, rank, now);
      SameRanks(s.cache.lru, rank, now);
    }
  }

  lemma SettleKeepsOrder(s: System, id: nat, commits: bool, renames: bool, content: Content, rank: Rank, top: int)
    requires Inv(s, content) && Enabled(s, Settle(id, commits, renames), content)
    requires Ranked(s.cache.lru, rank) && forall k :: rank(k) < top
    ensures var step := Settle(id, commits, renames);
            var next := FileCacheRuns.Next(s, step, content);
            Ranked(next.cache.lru, NewRank(s, step, next, rank, top))
  {
    var step := Settle(id, commits, renames);
    var next := FileCacheRuns.Next(s, step, content);
    var now := NewRank(s, step, next, rank, top);
    SameRanks(s.cache.lru, rank, now);
    if next.cache.lru != s.cache.lru {
      RankedFront(next.cache.lru[0], s.cache.lru, now);
    }
  }

  // ---------- Whole runs ----------

  function UseRank(h: seq<System>, steps: seq<FileCacheRuns.Step>, k: nat): Rank
    requires |h| == |steps| + 1 && k < |h|
  {
    (key: string) => LastUsed(h, steps, k, key)
  }

  /** At every moment of every run the entries are in the order of their last use, the latest first. */
  lemma {:induction false} EntriesInOrderOfLastUse(h: seq<System>, steps: seq<FileCacheRuns.Step>, limit: nat,
                                                   content: Content, k: nat)
    requires FileCacheRuns.IsRun(h, steps, limit, content) && k < |h|
    ensures forall i, j :: 0 <= i < j < |h[k].cache.lru| ==>
              LastUsed(h, steps, k, h[k].cache.lru[i].key) > LastUsed(h, steps, k, h[k].cache.lru[j].key)
  {
    if k > 0 {
      EntriesInOrderOfLastUse(h, steps, limit, content, k - 1);
      RunsKeepInvariant(h, steps, limit, content, k - 1);
      var rank := UseRank(h, steps, k - 1);
      StepKeepsOrder(h[k - 1], steps[k - 1], content, rank, k);
      SameRanks(h[k].cache.lru, NewRank(h[k - 1], steps[k - 1], h[k], rank, k), UseRank(h, steps, k));
    }
  }

  /** What eviction removes ranks below every entry without readers that it leaves. */
  lemma {:induction false} VictimsRankLower(c: Cache, fails: Fails, t: nat, rank: Rank, victim: string,
                                            survivor: string)
    requires Sound(c) && Ranked(c.lru, rank) && forall a :: t <= a ==> !fails(a)
    requires var d := RoomMade(c, fails, t).cache;
             victim in c.entries && victim !in d.entries && survivor in d.entries
             && d.entries[survivor].value.readers == 0
    ensures rank(victim) < rank(survivor)
    decreases |c.lru|
  {
    var e := Evicted(c, |c.lru|, fails, t);
    EvictedSound(c, |c.lru|, fails, t);
    AttemptsGrow(c, |c.lru|, fails, t);
    RankedEvicted(c, |c.lru|, fails, t, rank);
    RoomMadeSound(c, fails, t);
    if victim in e.cache.entries {
      VictimsRankLower(e.cache, fails, e.attempts, rank, victim, survivor);
    } else {
      OneVictimRanksLower(c, fails, t, rank, victim, survivor);
    }
  }

  lemma OneVictimRanksLower(c: Cache, fails: Fails, t: nat, rank: Rank, victim: string, survivor: string)
    requires Sound(c) && Ranked(c.lru, rank) && forall a :: t <= a ==> !fails(a)
    requires victim in c.entries && victim !in Evicted(c, |c.lru|, fails, t).cache.entries
    requires survivor in c.entries && survivor != victim && c.entries[survivor].value.readers == 0
    ensures rank(victim) < rank(survivor)
  {
    EvictedIsOldestFree(c, |c.lru|, fails, t);
    var d := Evicted(c, |c.lru|, fails, t).cache;
    var i: nat :| IsOldestFree(c.lru, |c.lru|, i) && d == Removed(c, c.lru[i]);
    assert c.lru[i].key == victim;
    var j :| 0 <= j < |c.lru| && c.lru[j] == c.entries[survivor];
    assert j != i && c.lru[j].key == survivor;
  }

  /** A reservation evicts files that were last used before every file that it leaves and nobody reads. */
  lemma VictimsWereUsedLongestAgo(h: seq<System>, steps: seq<FileCacheRuns.Step>, limit: nat, content: Content, k: nat,
                                  victim: string, survivor: string)
    requires FileCacheRuns.IsRun(h, steps, limit, content) && k < |steps| && steps[k].Reserve?
    requires forall t :: !steps[k].deletes(t)
    requires victim in h[k].cache.entries && victim !in h[k + 1].cache.entries
    requires survivor in h[k + 1].cache.entries && h[k + 1].cache.entries[survivor].value.readers == 0
    ensures LastUsed(h, steps, k, victim) < LastUsed(h, steps, k, survivor)
  {
    RunsKeepInvariant(h, steps, limit, content, k);
    EntriesInOrderOfLastUse(h, steps, limit, content, k);
    VictimsRankLower(h[k].cache, steps[k].deletes, 0, UseRank(h, steps, k), victim, survivor);
  }
}
