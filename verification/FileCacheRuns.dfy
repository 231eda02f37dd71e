/**
 Any number of readers on one cache, their steps interleaved in any order.  A file's true contents are
 `content(key)`; sources may fail anywhere, but end with end-of-file only after all of it.
 */
module FileCacheRuns {
  import opened Bytes
  import opened Counting
  import opened FileCache
  import Lru
  import opened Options

  type Content = string -> seq<Byte>

  /** Where one opening stands; between two phases other readers may take any number of steps. */
  datatype Phase =
    | Missed
    | Fetched
    | Passing
    | Hit(held: Held)
    | Filling(file: seq<Byte>, size: nat)
    | Finishing(file: seq<Byte>, size: nat, commit: bool)
    | Closed

  /** `given` is all that the reader was handed, `end` how it ended, if it has. */
  datatype Task = Task(key: string, phase: Phase, given: seq<Byte>, end: Option<End>)

  datatype System = System(cache: Cache, tasks: map<nat, Task>)

  datatype Step =
    | Open(id: nat, key: string, opens: bool, fails: bool)
    | Fetch(id: nat, result: Option<End>)
    | Reserve(id: nat, deletes: Fails, creates: bool)
    | Read(id: nat, chunk: seq<Byte>, end: Option<End>, writes: bool)
    | Settle(id: nat, commits: bool, renames: bool)
    | Close(id: nat)
    | Lose(key: string)

  predicate Writing(t: Task) { t.phase.Filling? || t.phase.Finishing? }

  predicate Reading(t: Task, key: string) { t.phase.Hit? && t.key == key }

  /** What a reader may be given: a part from the front, and end-of-file only after the whole. */
  predicate Legitimate(given: seq<Byte>, end: Option<End>, whole: seq<Byte>) {
    given <= whole && (end == Some(Eof) ==> given == whole)
  }

  predicate Enabled(s: System, step: Step, content: Content) {
    match step
    case Open(id, _, _, _) => id !in s.tasks
    case Lose(_) => true
    case Fetch(id, _) => id in s.tasks && s.tasks[id].phase.Missed?
    case Reserve(id, _, _) => id in s.tasks && s.tasks[id].phase.Fetched?
    case Settle(id, _, _) => id in s.tasks && s.tasks[id].phase.Finishing?
    case Close(id) => id in s.tasks &&
                      (s.tasks[id].phase.Passing? || s.tasks[id].phase.Hit? || s.tasks[id].phase.Filling?)
    case Read(id, chunk, end, _) =>
      && id in s.tasks && s.tasks[id].end.None?
      && match s.tasks[id].phase
         case Hit(held) => Legitimate(s.tasks[id].given + chunk, end, held.content)
         case Passing => Legitimate(s.tasks[id].given + chunk, end, content(s.tasks[id].key))
         case Filling(_, _) => Legitimate(s.tasks[id].given + chunk, end, content(s.tasks[id].key))
         case _ => false
  }

  function Put(s: System, cache: Cache, id: nat, t: Task): System { System(cache, s.tasks[id := t]) }

  function PhaseAfterRead(phase: Phase, chunk: seq<Byte>, end: Option<End>, writes: bool, objectLimit: nat): Phase {
    match phase
    case Filling(file, size) => (
      match FillRead(file, size, chunk, end, writes, objectLimit)
      case Going(f, n) => Filling(f, n)
      case Ending(f, n, commit) => Finishing(f, n, commit))
    case _ => phase
  }

  function Next(s: System, step: Step, content: Content): System
    requires Enabled(s, step, content)
  {
    var c := s.cache;
    match step
    case Lose(key) => System(c.(blobs := c.blobs - {key}), s.tasks)
    case Open(id, key, opens, fails) =>
      var l := LookedUp(c, key, opens, fails);
      Put(s, l.cache, id, Task(key, if l.found.Some? then Hit(l.found.value) else Missed, [], None))
    case Fetch(id, result) =>
      var t := s.tasks[id];
      Put(s, c, id, if result.None? then t.(phase := Fetched) else t.(phase := Closed))
    case Reserve(id, deletes, creates) =>
      var r := Reserved(c, deletes, creates);
      Put(s, r.cache, id, s.tasks[id].(phase := if r.granted then Filling([], 0) else Passing))
    case Read(id, chunk, end, writes) =>
      var t := s.tasks[id];
      Put(s, c, id,
          Task(t.key, PhaseAfterRead(t.phase, chunk, end, writes, ObjectLimit(c.limit)), t.given + chunk, end))
    case Settle(id, commits, renames) =>
      var t := s.tasks[id];
      Put(s, Finished(c, t.key, t.phase.size, t.phase.file, t.phase.commit && commits, renames), id,
          t.(phase := Passing))
    case Close(id) =>
      var t := s.tasks[id];
      match t.phase {
        case Hit(held) => Put(s, GivenBack(c, t.key, held.serial), id, t.(phase := Closed))
        case Filling(file, size) => Put(s, c, id, t.(phase := Finishing(file, size, false)))
        case _ => Put(s, c, id, t.(phase := Closed))
      }
  }

  // ---------- Counting tasks ----------

  ghost function Writers(tasks: map<nat, Task>): set<nat> { Matching(tasks, (id, t) => Writing(t)) }

  ghost function Readers(tasks: map<nat, Task>, key: string): set<nat> { Matching(tasks, (id, t) => Reading(t, key)) }

  // ---------- The invariant ----------

  /** Stored files are complete, and each belongs to an entry; every entry knows the length of its file. */
  ghost predicate Complete(c: Cache, content: Content) {
    && (forall key <- c.blobs :: key in c.entries && c.blobs[key] == content(key))
    && (forall key <- c.entries :: c.entries[key].cost == |content(key)|)
  }

  ghost predicate TaskOk(c: Cache, t: Task, content: Content) {
    && Legitimate(t.given, t.end, content(t.key))
    && match t.phase
       case Missed => t.given == [] && t.end.None?
       case Fetched => t.given == [] && t.end.None?
       case Hit(held) => held.content == content(t.key) && t.key in c.entries &&
                         c.entries[t.key].value.serial == held.serial
       case Filling(file, size) => file == t.given && size == |file| <= ObjectLimit(c.limit) && t.end.None?
       case Finishing(file, size, commit) => commit ==> file == content(t.key) && size == |file| <= ObjectLimit(c.limit)
       case _ => true
  }

  ghost predicate Counted(s: System) {
    && s.cache.active == |Writers(s.tasks)|
    && forall key <- s.cache.entries :: s.cache.entries[key].value.readers == |Readers(s.tasks, key)|
  }

  ghost predicate Inv(s: System, content: Content) {
    && Sound(s.cache)
    && Complete(s.cache, content)
    && Counted(s)
    && forall id <- s.tasks :: TaskOk(s.cache, s.tasks[id], content)
  }

  function ReadersOf(c: Cache, key: string): int { if key in c.entries then c.entries[key].value.readers else 0 }

  lemma ReadersCounted(s: System, key: string, content: Content)
    requires Inv(s, content)
    ensures ReadersOf(s.cache, key) == |Readers(s.tasks, key)|
  {
    if key !in s.cache.entries {
      forall id <- s.tasks ensures !Reading(s.tasks[id], key) {
        assert TaskOk(s.cache, s.tasks[id], content);
      }
      assert Readers(s.tasks, key) == {};
    }
  }

  /** An open hit is among the readers of its entry. */
  lemma HitIsCounted(s: System, id: nat, content: Content)
    requires Inv(s, content) && id in s.tasks && s.tasks[id].phase.Hit?
    ensures s.tasks[id].key in s.cache.entries && s.cache.entries[s.tasks[id].key].value.readers > 0
  {
    var key := s.tasks[id].key;
    assert TaskOk(s.cache, s.tasks[id], content);
    assert id in Readers(s.tasks, key);
    assert |Readers(s.tasks, key)| >= |{id}| by {
      assert Readers(s.tasks, key) == (Readers(s.tasks, key) - {id}) + {id};
    }
  }

  /** Entries that are being read are still there. */
  ghost predicate KeepsRead(c: Cache, d: Cache) {
    && d.limit == c.limit
    && forall key <- c.entries :: c.entries[key].value.readers != 0 ==>
         key in d.entries && d.entries[key].value.serial == c.entries[key].value.serial
  }

  /** The counters follow the one task that changes. */
  ghost predicate Recounts(c: Cache, d: Cache, tasks: map<nat, Task>, id: nat, t: Task) {
    && d.active == c.active - One(id in tasks && Writing(tasks[id])) + One(Writing(t))
    && forall key <- d.entries ::
         (d.entries[key].value.readers
          == ReadersOf(c, key) - One(id in tasks && Reading(tasks[id], key)) + One(Reading(t, key)))
  }

  lemma CountedStill(s: System, d: Cache, id: nat, t: Task, content: Content)
    requires Inv(s, content) && Recounts(s.cache, d, s.tasks, id, t)
    ensures Counted(Put(s, d, id, t))
  {
    CountWith(s.tasks, id, t, (id, t) => Writing(t));
    forall key <- d.entries ensures d.entries[key].value.readers == |Readers(s.tasks[id := t], key)| {
      ReadersCounted(s, key, content);
      CountWith(s.tasks, id, t, (id, t) => Reading(t, key));
    }
  }

  /** What it takes for a step of one task to keep the invariant. */
  lemma OneTaskSteps(s: System, d: Cache, id: nat, t: Task, content: Content)
    requires Inv(s, content)
    requires Sound(d) && Complete(d, content) && KeepsRead(s.cache, d) && TaskOk(d, t, content)
    requires Recounts(s.cache, d, s.tasks, id, t)
    ensures Inv(Put(s, d, id, t), content)
  {
    CountedStill(s, d, id, t, content);
    forall i <- s.tasks | i != id ensures TaskOk(d, s.tasks[i], content) {
      assert TaskOk(s.cache, s.tasks[i], content);
      if s.tasks[i].phase.Hit? {
        HitIsCounted(s, i, content);
      }
    }
  }

  // ---------- Every step keeps the invariant ----------

  lemma ShrunkKeeps(c: Cache, d: Cache, content: Content)
    requires Complete(c, content) && Shrunk(c, d)
    ensures Complete(d, content) && KeepsRead(c, d)
    ensures forall key <- d.entries :: d.entries[key].value.readers == ReadersOf(c, key)
  {
  }

  lemma OpenKeeps(s: System, id: nat, key: string, opens: bool, fails: bool, content: Content)
    requires Inv(s, content) && id !in s.tasks
    ensures Inv(Next(s, Open(id, key, opens, fails), content), content)
  {
    var c := s.cache;
    var l := LookedUp(c, key, opens, fails);
    LookedUpSound(c, key, opens, fails);
    if l.found.None? {
      ShrunkKeeps(c, l.cache, content);
      OneTaskSteps(s, l.cache, id, Task(key, Missed, [], None), content);
    } else {
      HitKeeps(s, id, key, fails, content);
    }
  }

  lemma HitKeeps(s: System, id: nat, key: string, fails: bool, content: Content)
    requires Inv(s, content) && id !in s.tasks && LookedUp(s.cache, key, true, fails).found.Some?
    ensures var l := LookedUp(s.cache, key, true, fails);
            Inv(Put(s, l.cache, id, Task(key, Hit(l.found.value), [], None)), content)
  {
    var l := LookedUp(s.cache, key, true, fails);
    var t := Task(key, Hit(l.found.value), [], None);
    assert Sound(l.cache) by {
      LookedUpSound(s.cache, key, true, fails);
    }
    assert Recounts(s.cache, l.cache, s.tasks, id, t);
    assert Complete(l.cache, content) && KeepsRead(s.cache, l.cache);
    OneTaskSteps(s, l.cache, id, t, content);
  }

  lemma ReserveKeeps(s: System, id: nat, deletes: Fails, creates: bool, content: Content)
    requires Inv(s, content) && Enabled(s, Reserve(id, deletes, creates), content)
    ensures Inv(Next(s, Reserve(id, deletes, creates), content), content)
  {
    var c := s.cache;
    var r := Reserved(c, deletes, creates);
    ReservedSound(c, deletes, creates);
    ShrunkKeeps(c, r.cache.(active := c.active), content);
    assert TaskOk(c, s.tasks[id], content);
    OneTaskSteps(s, r.cache, id, s.tasks[id].(phase := if r.granted then Filling([], 0) else Passing), content);
  }

  lemma ReadKeeps(s: System, step: Step, content: Content)
    requires Inv(s, content) && step.Read? && Enabled(s, step, content)
    ensures Inv(Next(s, step, content), content)
  {
    var c, t := s.cache, s.tasks[step.id];
    assert TaskOk(c, t, content);
    var phase := PhaseAfterRead(t.phase, step.chunk, step.end, step.writes, ObjectLimit(c.limit));
    OneTaskSteps(s, c, step.id, Task(t.key, phase, t.given + step.chunk, step.end), content);
  }

  lemma WriterCounted(s: System, id: nat, content: Content)
    requires Inv(s, content) && id in s.tasks && Writing(s.tasks[id])
    ensures s.cache.active > 0
  {
    assert id in Writers(s.tasks);
    assert Writers(s.tasks) == (Writers(s.tasks) - {id}) + {id};
  }

  lemma FinishedKeeps(c: Cache, key: string, size: nat, file: seq<Byte>, commit: bool, renames: bool, content: Content)
    requires Complete(c, content) && (commit ==> file == content(key) && size == |file|)
    ensures var d := Finished(c, key, size, file, commit, renames);
            && Complete(d, content) && KeepsRead(c, d) && d.active == c.active - 1
            && forall k <- d.entries :: d.entries[k].value.readers == ReadersOf(c, k)
  {
  }

  lemma SettleKeeps(s: System, id: nat, commits: bool, renames: bool, content: Content)
    requires Inv(s, content) && Enabled(s, Settle(id, commits, renames), content)
    ensures Inv(Next(s, Settle(id, commits, renames), content), content)
  {
    var c, t := s.cache, s.tasks[id];
    assert TaskOk(c, t, content);
    WriterCounted(s, id, content);
    var commit := t.phase.commit && commits;
    FinishedSound(c, t.key, t.phase.size, t.phase.file, commit, renames);
    FinishedKeeps(c, t.key, t.phase.size, t.phase.file, commit, renames, content);
    WriterLeaves(s, Finished(c, t.key, t.phase.size, t.phase.file, commit, renames), id, content);
  }

  lemma WriterLeaves(s: System, d: Cache, id: nat, content: Content)
    requires Inv(s, content) && id in s.tasks && s.tasks[id].phase.Finishing?
    requires Sound(d) && Complete(d, content) && KeepsRead(s.cache, d) && d.active == s.cache.active - 1
    requires forall k <- d.entries :: d.entries[k].value.readers == ReadersOf(s.cache, k)
    ensures Inv(Put(s, d, id, s.tasks[id].(phase := Passing)), content)
  {
    assert TaskOk(s.cache, s.tasks[id], content);
    OneTaskSteps(s, d, id, s.tasks[id].(phase := Passing), content);
  }

  lemma CloseHitKeeps(s: System, id: nat, held: Held, content: Content)
    requires Inv(s, content) && id in s.tasks && s.tasks[id].phase == Hit(held)
    ensures Inv(Put(s, GivenBack(s.cache, s.tasks[id].key, held.serial), id, s.tasks[id].(phase := Closed)), content)
  {
    var c, t := s.cache, s.tasks[id];
    assert TaskOk(c, t, content);
    GivenBackSound(c, t.key, held.serial);
    OneTaskSteps(s, GivenBack(c, t.key, held.serial), id, t.(phase := Closed), content);
  }

  lemma CloseKeeps(s: System, id: nat, content: Content)
    requires Inv(s, content) && Enabled(s, Close(id), content)
    ensures Inv(Next(s, Close(id), content), content)
  {
    var c, t := s.cache, s.tasks[id];
    assert TaskOk(c, t, content);
    match t.phase {
      case Hit(held) => CloseHitKeeps(s, id, held, content);
      case Filling(file, size) => OneTaskSteps(s, c, id, t.(phase := Finishing(file, size, false)), content);
      case _ => OneTaskSteps(s, c, id, t.(phase := Closed), content);
    }
  }

  lemma StepKeeps(s: System, step: Step, content: Content)
    requires Inv(s, content) && Enabled(s, step, content)
    ensures Inv(Next(s, step, content), content)
  {
    match step {
      case Open(id, key, opens, fails) => OpenKeeps(s, id, key, opens, fails, content);
      case Fetch(id, result) =>
        assert TaskOk(s.cache, s.tasks[id], content);
        var t := s.tasks[id];
        OneTaskSteps(s, s.cache, id, if result.None? then t.(phase := Fetched) else t.(phase := Closed), content);
      case Reserve(id, deletes, creates) => ReserveKeeps(s, id, deletes, creates, content);
      case Read(_, _, _, _) => ReadKeeps(s, step, content);
      case Settle(id, commits, renames) => SettleKeeps(s, id, commits, renames, content);
      case Close(id) => CloseKeeps(s, id, content);
      case Lose(key) =>
        forall id <- s.tasks ensures TaskOk(Next(s, step, content).cache, s.tasks[id], content) {
          assert TaskOk(s.cache, s.tasks[id], content);
        }
    }
  }

  // ---------- Runs ----------

  ghost predicate IsRun(h: seq<System>, steps: seq<Step>, limit: nat, content: Content) {
    && |h| == |steps| + 1
    && h[0] == System(Empty(limit), map[])
    && forall k :: 0 <= k < |steps| ==> Enabled(h[k], steps[k], content) && h[k + 1] == Next(h[k], steps[k], content)
  }

  lemma {:induction false} RunsKeepInvariant(h: seq<System>, steps: seq<Step>, limit: nat, content: Content, k: nat)
    requires IsRun(h, steps, limit, content) && k < |h|
    ensures Inv(h[k], content) && h[k].cache.limit == limit
  {
    if k > 0 {
      RunsKeepInvariant(h, steps, limit, content, k - 1);
      StepKeeps(h[k - 1], steps[k - 1], content);
      LimitStays(h[k - 1], steps[k - 1], content);
    }
  }

  lemma LimitStays(s: System, step: Step, content: Content)
    requires Inv(s, content) && Enabled(s, step, content)
    ensures Next(s, step, content).cache.limit == s.cache.limit
  {
    if step.Reserve? {
      RoomMadeSound(s.cache, step.deletes, 0);
    }
  }

  /** The accounting of the cache at every moment of every run. */
  lemma AccountsAreExact(h: seq<System>, steps: seq<Step>, limit: nat, content: Content, k: nat)
    requires IsRun(h, steps, limit, content) && k < |h|
    ensures var c := h[k].cache;
            && c.bytes == Lru.Total(c.lru) && c.bytes + c.active * ObjectLimit(limit) <= limit
            && c.active == |Writers(h[k].tasks)| <= MAX_ACTIVE
            && |c.lru| + c.active <= MAX_SLOTS
            && Lru.Distinct(c.lru) && (forall key :: key in c.entries <==> exists item <- c.lru :: item.key == key)
            && (forall item <- c.lru :: item.value.readers == |Readers(h[k].tasks, item.key)|)
  {
    RunsKeepInvariant(h, steps, limit, content, k);
    var c := h[k].cache;
    forall key | key in c.entries ensures exists item <- c.lru :: item.key == key {
      assert c.entries[key] in c.lru;
    }
  }

  /** What the cache stores is the whole file, whoever wrote it and whatever failed. */
  lemma StoredFilesAreWhole(h: seq<System>, steps: seq<Step>, limit: nat, content: Content, k: nat, key: string)
    requires IsRun(h, steps, limit, content) && k < |h| && key in h[k].cache.blobs
    ensures h[k].cache.blobs[key] == content(key)
    ensures key in h[k].cache.entries && h[k].cache.entries[key].cost == |content(key)|
  {
    RunsKeepInvariant(h, steps, limit, content, k);
  }

  /** An open hit knows the length of its file, even after that has vanished from the disk. */
  lemma HitKnowsLength(h: seq<System>, steps: seq<Step>, limit: nat, content: Content, k: nat, id: nat)
    requires IsRun(h, steps, limit, content) && k < |h| && id in h[k].tasks && h[k].tasks[id].phase.Hit?
    ensures var t := h[k].tasks[id];
            t.key in h[k].cache.entries && h[k].cache.entries[t.key].cost == |content(t.key)|
  {
    RunsKeepInvariant(h, steps, limit, content, k);
    assert TaskOk(h[k].cache, h[k].tasks[id], content);
  }

  /**
   For every reader, cached or not, the reads that may come next are those that a direct source may give:
   all that it was handed is a front part of the file, and end-of-file means the whole.
   */
  lemma ReadsAreDirect(h: seq<System>, steps: seq<Step>, limit: nat, content: Content, k: nat, id: nat,
                       chunk: seq<Byte>, end: Option<End>, writes: bool)
    requires IsRun(h, steps, limit, content) && k < |h| && id in h[k].tasks
    ensures var t := h[k].tasks[id];
            && Legitimate(t.given, t.end, content(t.key))
            && (t.end.None? && (t.phase.Hit? || t.phase.Passing? || t.phase.Filling?) ==>
                  (Enabled(h[k], Read(id, chunk, end, writes), content)
                   <==> Legitimate(t.given + chunk, end, content(t.key))))
  {
    RunsKeepInvariant(h, steps, limit, content, k);
    assert TaskOk(h[k].cache, h[k].tasks[id], content);
  }

  /** While a hit is open, no step of any reader takes its entry away. */
  lemma NeverEvictedWhileRead(h: seq<System>, steps: seq<Step>, limit: nat, content: Content, k: nat, id: nat)
    requires IsRun(h, steps, limit, content) && k < |steps|
    requires id in h[k].tasks && h[k].tasks[id].phase.Hit? && steps[k] != Close(id)
    ensures var t := h[k].tasks[id];
            && id in h[k + 1].tasks && h[k + 1].tasks[id].phase == t.phase
            && t.key in h[k].cache.entries && t.key in h[k + 1].cache.entries
            && h[k].cache.entries[t.key].value.serial == h[k + 1].cache.entries[t.key].value.serial
            == t.phase.held.serial
            && h[k + 1].cache.entries[t.key].value.readers > 0
  {
    RunsKeepInvariant(h, steps, limit, content, k);
    RunsKeepInvariant(h, steps, limit, content, k + 1);
    assert TaskOk(h[k].cache, h[k].tasks[id], content);
    SameTask(h[k], steps[k], id, content);
    HitIsCounted(h[k + 1], id, content);
    assert TaskOk(h[k + 1].cache, h[k + 1].tasks[id], content);
  }

  lemma SameTask(s: System, step: Step, id: nat, content: Content)
    requires Enabled(s, step, content) && id in s.tasks && s.tasks[id].phase.Hit? && step != Close(id)
    ensures id in Next(s, step, content).tasks
    ensures Next(s, step, content).tasks[id].phase == s.tasks[id].phase
    ensures Next(s, step, content).tasks[id].key == s.tasks[id].key
  {
  }

  /** What a step does to a stored file of which it knows nothing. */
  lemma StoredFileLeavesOnlyBy(h: seq<System>, steps: seq<Step>, limit: nat, content: Content, k: nat, key: string)
    requires IsRun(h, steps, limit, content) && k < |steps|
    requires key in h[k].cache.blobs && key !in h[k + 1].cache.blobs
    ensures match steps[k]
            case Lose(lost) => lost == key
            case Open(_, wanted, opens, _) => wanted == key && !opens && Readers(h[k].tasks, key) == {}
            case Reserve(_, _, _) => Tight(h[k].cache) && Readers(h[k].tasks, key) == {}
            case _ => false
  {
    RunsKeepInvariant(h, steps, limit, content, k);
    var c := h[k].cache;
    assert key in c.entries;
    match steps[k] {
      case Reserve(_, deletes, _) =>
        RoomMadeSound(c, deletes, 0);
        if Tight(c) {
          assert Shrunk(c, RoomMade(c, deletes, 0).cache);
          RemovedByEviction(c, deletes, 0, key);
        }
      case _ =>
    }
  }

  /** Eviction removes files that nobody reads. */
  lemma {:induction false} RemovedByEviction(c: Cache, fails: Fails, t: nat, key: string)
    requires Sound(c) && key in c.blobs && key in c.entries && key !in RoomMade(c, fails, t).cache.blobs
    ensures c.entries[key].value.readers == 0
    decreases |c.lru|
  {
    RoomMadeSound(c, fails, t);
    var e := Evicted(c, |c.lru|, fails, t);
    EvictedSound(c, |c.lru|, fails, t);
    if e.done && key in e.cache.blobs {
      RemovedByEviction(e.cache, fails, e.attempts, key);
    } else if e.done {
      EvictedHadNoReaders(c, |c.lru|, fails, t, key);
    }
  }

  lemma {:induction false} EvictedHadNoReaders(c: Cache, n: nat, fails: Fails, t: nat, key: string)
    requires n <= |c.lru| && Sound(c) && key in c.blobs && key in c.entries
    requires key !in Evicted(c, n, fails, t).cache.blobs
    ensures c.entries[key].value.readers == 0
  {
    if n > 0 && c.lru[n - 1].value.readers == 0 && !fails(t) {
      assert c.lru[n - 1] in c.lru;
    } else if n > 0 {
      EvictedHadNoReaders(c, n - 1, fails, if c.lru[n - 1].value.readers == 0 then t + 1 else t, key);
    }
  }

  /**
   A fill of a file that may be cached goes on with every read that is written, and ends with all of the file and the
   wish to keep it when the source has reached its end.
   */
  lemma WholeReadIsCommitted(h: seq<System>, steps: seq<Step>, limit: nat, content: Content, k: nat)
    requires IsRun(h, steps, limit, content) && k < |steps| && steps[k].Read? && steps[k].writes
    requires h[k].tasks[steps[k].id].phase.Filling? && (steps[k].end == None || steps[k].end == Some(Eof))
    requires |content(h[k].tasks[steps[k].id].key)| <= ObjectLimit(limit)
    ensures var whole, now := content(h[k].tasks[steps[k].id].key), h[k + 1].tasks[steps[k].id];
            now.phase == if steps[k].end == None then Filling(now.given, |now.given|)
                         else Finishing(whole, |whole|, true)
  {
    RunsKeepInvariant(h, steps, limit, content, k);
    assert TaskOk(h[k].cache, h[k].tasks[steps[k].id], content);
  }

  /** A file read to its end is stored when its fill settles. */
  lemma CommittedIsStored(h: seq<System>, steps: seq<Step>, limit: nat, content: Content, k: nat)
    requires IsRun(h, steps, limit, content) && k < |steps| && steps[k].Settle? && steps[k].commits && steps[k].renames
    requires h[k].tasks[steps[k].id].phase.commit && h[k].tasks[steps[k].id].key !in h[k].cache.entries
    ensures h[k].tasks[steps[k].id].key in h[k + 1].cache.blobs
  {
  }

  /** However long after, an opening of a stored file is served from the cache without a fetch. */
  lemma StoredThenHit(h: seq<System>, steps: seq<Step>, limit: nat, content: Content, k: nat, key: string,
                      reader: nat, fails: bool)
    requires IsRun(h, steps, limit, content) && k < |h|
    requires key in h[k].cache.blobs && reader !in h[k].tasks
    ensures var later := Next(h[k], Open(reader, key, true, fails), content);
            later.tasks[reader].phase.Hit? && later.tasks[reader].phase.held.content == content(key)
  {
    RunsKeepInvariant(h, steps, limit, content, k);
  }

  /** A file once committed is served from the cache at any later moment up to which no step has removed it. */
  lemma CommittedThenHit(h: seq<System>, steps: seq<Step>, limit: nat, content: Content, k: nat, j: nat, reader: nat,
                         fails: bool)
    requires IsRun(h, steps, limit, content) && k < j < |h| && steps[k].Settle? && steps[k].commits && steps[k].renames
    requires h[k].tasks[steps[k].id].phase.commit && h[k].tasks[steps[k].id].key !in h[k].cache.entries
    requires forall m :: k < m < j ==> !MayRemove(h[m], steps[m], h[k].tasks[steps[k].id].key)
    requires reader !in h[j].tasks
    ensures var key := h[k].tasks[steps[k].id].key;
            var later := Next(h[j], Open(reader, key, true, fails), content);
            later.tasks[reader].phase.Hit? && later.tasks[reader].phase.held.content == content(key)
  {
    var key := h[k].tasks[steps[k].id].key;
    StaysStored(h, steps, limit, content, k, j, key);
    StoredThenHit(h, steps, limit, content, j, key, reader, fails);
  }

  /** The steps that can remove a stored file: its loss, a failed opening of it, and making room. */
  predicate MayRemove(s: System, step: Step, key: string) {
    match step
    case Lose(lost) => lost == key
    case Open(_, wanted, opens, _) => wanted == key && !opens
    case Reserve(_, _, _) => Tight(s.cache)
    case _ => false
  }

  lemma {:induction false} StaysStored(h: seq<System>, steps: seq<Step>, limit: nat, content: Content, k: nat, j: nat,
                                       key: string)
    requires IsRun(h, steps, limit, content) && k < j < |h| && steps[k].Settle? && steps[k].commits && steps[k].renames
    requires h[k].tasks[steps[k].id].phase.commit && h[k].tasks[steps[k].id].key == key && key !in h[k].cache.entries
    requires forall m :: k < m < j ==> !MayRemove(h[m], steps[m], key)
    ensures key in h[j].cache.blobs
    decreases j
  {
    if j == k + 1 {
      CommittedIsStored(h, steps, limit, content, k);
    } else {
      StaysStored(h, steps, limit, content, k, j - 1, key);
      if key !in h[j].cache.blobs {
        StoredFileLeavesOnlyBy(h, steps, limit, content, j - 1, key);
      }
    }
  }
}
