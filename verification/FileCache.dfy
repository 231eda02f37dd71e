/**
 The disk cache of immutable files: each method is one region under the cache's lock.  Outcomes of file
 operations are arguments: `fails(t)` says whether the t-th attempt to delete a file in this region fails.
 */
module FileCache {
  import opened Bytes
  import opened Lru
  import opened Options

  const MAX_ACTIVE := 8
  const MAX_SLOTS := 4096
  const MAX_OBJECT := 2 * 1024 * 1024

  /** `serial` tells apart the entries that one key has had, as their addresses do. */
  datatype Reading = Reading(serial: nat, readers: int)

  type Entry = Item<Reading>

  type Fails = nat -> bool

  datatype Cache = Cache(limit: nat, bytes: int, active: int, entries: map<string, Entry>, lru: seq<Entry>,
                         blobs: map<string, seq<Byte>>, serial: nat)

  function ObjectLimit(limit: nat): nat { if limit < MAX_OBJECT then limit else MAX_OBJECT }

  function Empty(limit: nat): Cache { Cache(limit, 0, 0, map[], [], map[], 0) }

  function Removed(c: Cache, item: Entry): Cache {
    c.(entries := c.entries - {item.key}, lru := Without(c.lru, item.key), bytes := c.bytes - item.cost,
       blobs := c.blobs - {item.key})
  }

  datatype Eviction = Eviction(cache: Cache, done: bool, attempts: nat)

  /** Scan the first `n` entries from the back for one without readers that can be deleted. */
  function Evicted(c: Cache, n: nat, fails: Fails, t: nat): (r: Eviction)
    requires n <= |c.lru|
    ensures r.done ==> |r.cache.lru| < |c.lru|
    ensures !r.done ==> r.cache == c
  {
    if n == 0 then Eviction(c, false, t)
    else if c.lru[n - 1].value.readers != 0 then Evicted(c, n - 1, fails, t)
    else if fails(t) then Evicted(c, n - 1, fails, t + 1)
    else
      WithoutIsShorter(c.lru, n - 1);
      Eviction(Removed(c, c.lru[n - 1]), true, t + 1)
  }

  /** Whether another writer's worst case does not fit. */
  predicate Tight(c: Cache) {
    c.bytes + (c.active + 1) * ObjectLimit(c.limit) > c.limit || |c.lru| + c.active >= MAX_SLOTS
  }

  /** Evict until a writer fits; `done` tells whether it does. */
  function RoomMade(c: Cache, fails: Fails, t: nat): Eviction
    decreases |c.lru|
  {
    if !Tight(c) then Eviction(c, true, t)
    else
      var e := Evicted(c, |c.lru|, fails, t);
      if e.done then RoomMade(e.cache, fails, e.attempts) else e
  }

  datatype Reservation = Reservation(cache: Cache, granted: bool)

  function Reserved(c: Cache, fails: Fails, creates: bool): Reservation {
    if c.active >= MAX_ACTIVE || (c.active + 1) * ObjectLimit(c.limit) > c.limit then Reservation(c, false)
    else
      var room := RoomMade(c, fails, 0);
      if room.done && creates
      then Reservation(room.cache.(active := room.cache.active + 1), true)
      else Reservation(room.cache, false)
  }

  /** What a hit holds: the entry and the contents of the file it has open. */
  datatype Held = Held(serial: nat, content: seq<Byte>)

  datatype Lookup = Lookup(cache: Cache, found: Option<Held>)

  function WithReaders(item: Entry, readers: int): Entry { item.(value := item.value.(readers := readers)) }

  function LookedUp(c: Cache, key: string, opens: bool, fails: bool): Lookup {
    if key !in c.entries then Lookup(c, None)
    else
      var item := c.entries[key];
      if opens && key in c.blobs then
        var read := WithReaders(item, item.value.readers + 1);
        Lookup(c.(entries := c.entries[key := read], lru := [read] + Without(c.lru, key)),
               Some(Held(item.value.serial, c.blobs[key])))
      else if item.value.readers == 0 && !fails then Lookup(Removed(c, item), None)
      else Lookup(c, None)
  }

  function Replaced(q: seq<Entry>, item: Entry): seq<Entry> {
    seq(|q|, i requires 0 <= i < |q| => if q[i].key == item.key then item else q[i])
  }

  /** A hit gives its entry back; an entry that is no longer listed would be touched out of sight. */
  function GivenBack(c: Cache, key: string, serial: nat): Cache {
    if key in c.entries && c.entries[key].value.serial == serial then
      var read := WithReaders(c.entries[key], c.entries[key].value.readers - 1);
      c.(entries := c.entries[key := read], lru := Replaced(c.lru, read))
    else c
  }

  /** A writer ends; `commit` tells that its file is complete and closed and its caller still waits. */
  function Finished(c: Cache, key: string, size: nat, content: seq<Byte>, commit: bool, renames: bool): Cache {
    if commit && key !in c.entries && renames then
      var item := Item(key, Reading(c.serial, 0), size);
      c.(active := c.active - 1, entries := c.entries[key := item], lru := [item] + c.lru, bytes := c.bytes + size,
         blobs := c.blobs[key := content], serial := c.serial + 1)
    else c.(active := c.active - 1)
  }

  // ---------- Filling while streaming ----------

  datatype End = Eof | Failure(message: string)

  /** A partial file, being written or given up or complete. */
  datatype Progress = Going(file: seq<Byte>, size: nat) | Ending(file: seq<Byte>, size: nat, commit: bool)

  /** What one read from the source does to the partial file. */
  function FillRead(file: seq<Byte>, size: nat, chunk: seq<Byte>, end: Option<End>, writes: bool,
                    objectLimit: nat): Progress {
    var total := size + |chunk|;
    if total > objectLimit || (chunk != [] && !writes) then Ending(file, total, false)
    else match end
      case None => Going(file + chunk, total)
      case Some(e) => Ending(file + chunk, total, e == Eof)
  }

  // ---------- What every region keeps ----------

  /** Map and list hold the same entries, and all that is stored or promised to writers fits. */
  ghost predicate Sound(c: Cache) {
    && Indexes(c.entries, c.lru) && Distinct(c.lru)
    && c.bytes == Total(c.lru)
    && Budgeted(c.limit, c.bytes, c.active, |c.lru|)
  }

  predicate Budgeted(limit: nat, bytes: int, active: int, count: nat) {
    && 0 <= active <= MAX_ACTIVE
    && bytes + active * ObjectLimit(limit) <= limit
    && count + active <= MAX_SLOTS
  }

  /** `d` is `c` without some of its entries, none of which was being read. */
  ghost predicate Shrunk(c: Cache, d: Cache) {
    && d.limit == c.limit && d.active == c.active && d.serial == c.serial
    && (forall key <- d.entries :: key in c.entries && d.entries[key] == c.entries[key])
    && (forall key <- c.entries :: c.entries[key].value.readers != 0 ==> key in d.entries)
    && (forall key <- d.blobs ::
          key in c.blobs && d.blobs[key] == c.blobs[key] && (key in c.entries ==> key in d.entries))
  }

  lemma ShrunkTwice(a: Cache, b: Cache, c: Cache)
    requires Shrunk(a, b) && Shrunk(b, c)
    ensures Shrunk(a, c)
  {
  }

  lemma KeyOfEntry(c: Cache, key: string)
    requires Sound(c)
    ensures key in c.entries ==> c.entries[key].key == key
  {
  }

  lemma RemovedSound(c: Cache, item: Entry)
    requires Sound(c) && item in c.lru
    ensures Sound(Removed(c, item))
    ensures item.value.readers == 0 ==> Shrunk(c, Removed(c, item))
  {
    RemovedItem(c.entries, c.lru, item);
  }

  lemma EvictedSound(c: Cache, n: nat, fails: Fails, t: nat)
    requires Sound(c) && n <= |c.lru|
    ensures Sound(Evicted(c, n, fails, t).cache) && Shrunk(c, Evicted(c, n, fails, t).cache)
  {
    if n > 0 && c.lru[n - 1].value.readers == 0 && !fails(t) {
      RemovedSound(c, c.lru[n - 1]);
    } else if n > 0 {
      EvictedSound(c, n - 1, fails, if c.lru[n - 1].value.readers == 0 then t + 1 else t);
    }
  }

  /** The last of the first `n` entries that has no reader. */
  predicate IsOldestFree(q: seq<Entry>, n: nat, i: nat) {
    i < n <= |q| && q[i].value.readers == 0 && forall j :: i < j < n ==> q[j].value.readers != 0
  }

  /** The victim is the least recently used entry that has no reader, when deleting works. */
  lemma {:induction false} EvictedIsOldestFree(c: Cache, n: nat, fails: Fails, t: nat)
    requires n <= |c.lru| && forall a :: t <= a ==> !fails(a)
    ensures !Evicted(c, n, fails, t).done <==> forall j :: 0 <= j < n ==> c.lru[j].value.readers != 0
    ensures Evicted(c, n, fails, t).done ==>
              exists i: nat :: IsOldestFree(c.lru, n, i) && Evicted(c, n, fails, t).cache == Removed(c, c.lru[i])
  {
    if n > 0 && c.lru[n - 1].value.readers != 0 {
      EvictedIsOldestFree(c, n - 1, fails, t);
      if Evicted(c, n - 1, fails, t).done {
        var i: nat :| IsOldestFree(c.lru, n - 1, i) && Evicted(c, n - 1, fails, t).cache == Removed(c, c.lru[i]);
        assert IsOldestFree(c.lru, n, i);
      }
    } else if n > 0 {
      assert IsOldestFree(c.lru, n, n - 1);
    }
  }

  lemma {:induction false} RoomMadeSound(c: Cache, fails: Fails, t: nat)
    requires Sound(c)
    ensures Sound(RoomMade(c, fails, t).cache) && Shrunk(c, RoomMade(c, fails, t).cache)
    ensures RoomMade(c, fails, t).done ==> !Tight(RoomMade(c, fails, t).cache)
    decreases |c.lru|
  {
    if Tight(c) {
      var e := Evicted(c, |c.lru|, fails, t);
      EvictedSound(c, |c.lru|, fails, t);
      if e.done {
        RoomMadeSound(e.cache, fails, e.attempts);
        ShrunkTwice(c, e.cache, RoomMade(e.cache, fails, e.attempts).cache);
      }
    }
  }

  lemma OneMore(active: int, objectLimit: nat)
    ensures (active + 1) * objectLimit == active * objectLimit + objectLimit
  {
  }

  /** A granted writer has its worst case reserved. */
  lemma ReservedSound(c: Cache, fails: Fails, creates: bool)
    requires Sound(c)
    ensures Sound(Reserved(c, fails, creates).cache)
    ensures var r := Reserved(c, fails, creates);
            Shrunk(c, r.cache.(active := c.active)) && r.cache.active == c.active + if r.granted then 1 else 0
  {
    RoomMadeSound(c, fails, 0);
    GrantedSound(RoomMade(c, fails, 0).cache);
  }

  lemma GrantedSound(c: Cache)
    ensures Sound(c) && c.active < MAX_ACTIVE && !Tight(c) ==> Sound(c.(active := c.active + 1))
  {
    OneMore(c.active, ObjectLimit(c.limit));
  }

  // ---------- When a writer is admitted ----------

  predicate IsRead(item: Entry) { item.value.readers != 0 }

  /** The entries that are being read. */
  function Busy(c: Cache): seq<Entry> { Filtered(c.lru, IsRead) }

  /** Beside the entries that are being read, and all writers, another writer's worst case fits. */
  predicate BusyLeavesRoom(c: Cache) {
    && Total(Busy(c)) + (c.active + 1) * ObjectLimit(c.limit) <= c.limit
    && |Busy(c)| + c.active < MAX_SLOTS
  }

  lemma EvictedStaysBusy(c: Cache, fails: Fails, t: nat)
    requires Sound(c) && forall a :: t <= a ==> !fails(a)
    ensures var e := Evicted(c, |c.lru|, fails, t);
            && e.attempts >= t && Busy(e.cache) == Busy(c) && (!e.done ==> Busy(c) == c.lru)
  {
    AttemptsGrow(c, |c.lru|, fails, t);
    EvictedIsOldestFree(c, |c.lru|, fails, t);
    var e := Evicted(c, |c.lru|, fails, t);
    if e.done {
      var i: nat :| IsOldestFree(c.lru, |c.lru|, i) && e.cache == Removed(c, c.lru[i]);
      FilteredWithout(c.lru, i, IsRead);
    } else {
      AllFiltered(c.lru, IsRead);
    }
  }

  /** When deleting works, room is made exactly when the entries that are being read leave enough of it. */
  lemma {:induction false} RoomMadeIff(c: Cache, fails: Fails, t: nat)
    requires Sound(c) && forall a :: t <= a ==> !fails(a)
    ensures RoomMade(c, fails, t).done <==> BusyLeavesRoom(c)
    decreases |c.lru|
  {
    RoomBesideBusy(c);
    if Tight(c) {
      var e := Evicted(c, |c.lru|, fails, t);
      EvictedSound(c, |c.lru|, fails, t);
      EvictedStaysBusy(c, fails, t);
      if e.done {
        RoomMadeIff(e.cache, fails, e.attempts);
        SameRoom(c, e.cache);
      }
    }
  }

  lemma RoomBesideBusy(c: Cache)
    requires Sound(c)
    ensures !Tight(c) ==> BusyLeavesRoom(c)
    ensures Busy(c) == c.lru && Tight(c) ==> !BusyLeavesRoom(c)
  {
    FilteredIsLess(c.lru, IsRead);
  }

  lemma SameRoom(c: Cache, d: Cache)
    requires Busy(c) == Busy(d) && c.active == d.active && c.limit == d.limit
    ensures BusyLeavesRoom(c) <==> BusyLeavesRoom(d)
  {
  }

  lemma AttemptsGrow(c: Cache, n: nat, fails: Fails, t: nat)
    requires n <= |c.lru|
    ensures Evicted(c, n, fails, t).attempts >= t
  {
  }

  /** A writer is admitted exactly when there are fewer than eight, room can be made and the file is created. */
  lemma GrantedIff(c: Cache, fails: Fails, creates: bool)
    requires Sound(c)
    ensures Reserved(c, fails, creates).granted ==> creates && c.active < MAX_ACTIVE
    ensures (forall t :: !fails(t)) ==>
              (Reserved(c, fails, creates).granted <==> creates && c.active < MAX_ACTIVE && BusyLeavesRoom(c))
  {
    if forall t :: !fails(t) {
      RoomMadeIff(c, fails, 0);
    }
  }

  lemma LookedUpSound(c: Cache, key: string, opens: bool, fails: bool)
    requires Sound(c)
    ensures Sound(LookedUp(c, key, opens, fails).cache)
    ensures LookedUp(c, key, opens, fails).found.None? ==> Shrunk(c, LookedUp(c, key, opens, fails).cache)
  {
    if key in c.entries {
      if opens && key in c.blobs {
        HitSound(c, c.entries[key]);
      } else {
        RemovedSound(c, c.entries[key]);
      }
    }
  }

  /** The entry of that key has come to the front with one more reader, and the others are in their old order. */
  ghost predicate Renewed(before: seq<Entry>, after: seq<Entry>, key: string) {
    exists i :: 0 <= i < |before| && before[i].key == key && |after| > 0 &&
                after[0] == WithReaders(before[i], before[i].value.readers + 1) &&
                after[1..] == before[..i] + before[i + 1..]
  }

  /**
   What a look-up means: a stored file that opens is found and comes to the front, and an entry whose file does not
   open is gone, unless it is being read or cannot be deleted.
   */
  ghost predicate IsLookUp(c: Cache, l: Lookup, key: string, opens: bool, fails: bool) {
    && (l.found.Some? <==> opens && key in c.entries && key in c.blobs)
    && (l.found.Some? ==> l.found.value == Held(c.entries[key].value.serial, c.blobs[key])
                          && Renewed(c.lru, l.cache.lru, key))
    && (l.found.None? ==>
          (key in l.cache.entries <==> key in c.entries && (c.entries[key].value.readers != 0 || fails)))
  }

  lemma LookedUpMeaning(c: Cache, key: string, opens: bool, fails: bool)
    requires Sound(c)
    ensures IsLookUp(c, LookedUp(c, key, opens, fails), key, opens, fails)
  {
    if opens && key in c.entries && key in c.blobs {
      HitMeaning(c, key, fails);
    } else {
      MissMeaning(c, key, opens, fails);
    }
  }

  lemma HitMeaning(c: Cache, key: string, fails: bool)
    requires Sound(c) && key in c.entries && key in c.blobs
    ensures var l := LookedUp(c, key, true, fails);
            && l.found == Some(Held(c.entries[key].value.serial, c.blobs[key])) && Renewed(c.lru, l.cache.lru, key)
  {
    FrontedIsRenewed(c.lru, c.entries[key]);
  }

  lemma MissMeaning(c: Cache, key: string, opens: bool, fails: bool)
    requires Sound(c) && !(opens && key in c.entries && key in c.blobs)
    ensures var l := LookedUp(c, key, opens, fails);
            && l.found == None
            && (key in l.cache.entries <==> key in c.entries && (c.entries[key].value.readers != 0 || fails))
  {
  }

  lemma FrontedIsRenewed(q: seq<Entry>, item: Entry)
    requires Distinct(q) && item in q
    ensures Renewed(q, [WithReaders(item, item.value.readers + 1)] + Without(q, item.key), item.key)
  {
    var i :| 0 <= i < |q| && q[i] == item;
    WithoutKeeps(q, i);
    var after := [WithReaders(item, item.value.readers + 1)] + Without(q, item.key);
    assert after[1..] == q[..i] + q[i + 1..];
  }

  lemma HitSound(c: Cache, item: Entry)
    requires Sound(c) && item in c.lru
    ensures var read := WithReaders(item, item.value.readers + 1);
            Sound(c.(entries := c.entries[item.key := read], lru := [read] + Without(c.lru, item.key)))
  {
    FrontedItem(c.entries, c.lru, item, WithReaders(item, item.value.readers + 1));
  }

  lemma GivenBackSound(c: Cache, key: string, serial: nat)
    requires Sound(c)
    ensures Sound(GivenBack(c, key, serial))
  {
    if key in c.entries && c.entries[key].value.serial == serial {
      var read := WithReaders(c.entries[key], c.entries[key].value.readers - 1);
      ReplacedItem(c.entries, c.lru, read);
    }
  }

  lemma FinishedSound(c: Cache, key: string, size: nat, content: seq<Byte>, commit: bool, renames: bool)
    requires Sound(c) && c.active > 0 && (commit ==> size <= ObjectLimit(c.limit))
    ensures Sound(Finished(c, key, size, content, commit, renames))
  {
    OneMore(c.active - 1, ObjectLimit(c.limit));
    if commit && key !in c.entries && renames {
      AddedItem(c.entries, c.lru, Item(key, Reading(c.serial, 0), size));
    }
  }

  // Lists with their index.

  lemma RemovedItem(entries: map<string, Entry>, q: seq<Entry>, item: Entry)
    requires Indexes(entries, q) && Distinct(q) && item in q
    ensures Indexes(entries - {item.key}, Without(q, item.key)) && Distinct(Without(q, item.key))
    ensures Total(Without(q, item.key)) == Total(q) - item.cost && |Without(q, item.key)| == |q| - 1
  {
    WithoutItem(q, item);
    CutIndexes(entries, q, item, Without(q, item.key));
  }

  lemma WithoutItem(q: seq<Entry>, item: Entry)
    requires Distinct(q) && item in q
    ensures var p := Without(q, item.key);
            && Distinct(p) && |p| == |q| - 1 && Total(p) == Total(q) - item.cost
            && (forall x <- p :: x.key != item.key && x in q) && (forall x <- q :: x == item || x in p)
  {
    var i: nat :| i < |q| && q[i] == item;
    var a, b := CutAt(q, i);
    CutTotal(a, item, b);
    CutDistinct(a, item, b, q);
  }

  lemma CutAt(q: seq<Entry>, i: nat) returns (a: seq<Entry>, b: seq<Entry>)
    requires Distinct(q) && i < |q|
    ensures q == a + ([q[i]] + b) && Without(q, q[i].key) == a + b
  {
    WithoutKeeps(q, i);
    a, b := q[..i], q[i + 1..];
  }

  lemma CutTotal(a: seq<Entry>, item: Entry, b: seq<Entry>)
    ensures Total(a + b) + item.cost == Total(a + ([item] + b))
  {
    TotalSplit(a, b);
    TotalSplit(a, [item] + b);
    TotalFront(item, b);
  }

  lemma CutDistinct(a: seq<Entry>, item: Entry, b: seq<Entry>, q: seq<Entry>)
    requires q == a + ([item] + b) && Distinct(q)
    ensures Distinct(a + b) && |a + b| == |q| - 1
    ensures (forall x <- a + b :: x.key != item.key && x in q) && (forall x <- q :: x == item || x in a + b)
  {
    assert forall i :: 0 <= i < |a| ==> q[i] == a[i];
    assert forall i :: 0 <= i < |b| ==> q[|a| + 1 + i] == b[i];
    assert q[|a|] == item;
  }

  lemma CutIndexes(entries: map<string, Entry>, q: seq<Entry>, item: Entry, p: seq<Entry>)
    requires Indexes(entries, q)
    requires (forall x <- p :: x.key != item.key && x in q) && (forall x <- q :: x == item || x in p)
    ensures Indexes(entries - {item.key}, p)
  {
  }

  lemma FrontedItem(entries: map<string, Entry>, q: seq<Entry>, item: Entry, read: Entry)
    requires Indexes(entries, q) && Distinct(q) && item in q && read.key == item.key && read.cost == item.cost
    ensures Indexes(entries[item.key := read], [read] + Without(q, item.key)) && Distinct([read] + Without(q, item.key))
    ensures Total([read] + Without(q, item.key)) == Total(q) && |[read] + Without(q, item.key)| == |q|
  {
    var rest := Without(q, item.key);
    RemovedItem(entries, q, item);
    AddedItem(entries - {item.key}, rest, read);
    Reset(entries, item.key, read);
  }

  lemma Reset(entries: map<string, Entry>, key: string, item: Entry)
    ensures (entries - {key})[key := item] == entries[key := item]
  {
  }

  lemma AddedItem(entries: map<string, Entry>, q: seq<Entry>, item: Entry)
    requires Indexes(entries, q) && Distinct(q) && item.key !in entries
    ensures Indexes(entries[item.key := item], [item] + q) && Distinct([item] + q)
    ensures Total([item] + q) == Total(q) + item.cost
  {
    IndexesLonger(entries, q, item);
    TotalFront(item, q);
  }

  lemma {:induction false} ReplacedTotal(q: seq<Entry>, item: Entry)
    requires forall x <- q :: x.key == item.key ==> x.cost == item.cost
    ensures Total(Replaced(q, item)) == Total(q)
  {
    if q != [] {
      ReplacedTotal(q[..|q| - 1], item);
      assert Replaced(q, item)[..|q| - 1] == Replaced(q[..|q| - 1], item);
    }
  }

  lemma ReplacedMembers(q: seq<Entry>, before: Entry, item: Entry)
    requires Distinct(q) && before in q && before.key == item.key
    ensures Distinct(Replaced(q, item)) && item in Replaced(q, item)
    ensures forall x <- q :: x != before ==> x in Replaced(q, item)
    ensures forall x <- Replaced(q, item) :: x == item || (x in q && x.key != item.key)
  {
    var p := Replaced(q, item);
    var i :| 0 <= i < |q| && q[i] == before;
    assert p[i] == item;
    forall x <- q | x != before ensures x in p {
      var j :| 0 <= j < |q| && q[j] == x;
      assert p[j] == q[j];
    }
  }

  lemma ReplacedItem(entries: map<string, Entry>, q: seq<Entry>, item: Entry)
    requires Indexes(entries, q) && Distinct(q) && item.key in entries && entries[item.key].cost == item.cost
    ensures Indexes(entries[item.key := item], Replaced(q, item)) && Distinct(Replaced(q, item))
    ensures Total(Replaced(q, item)) == Total(q)
  {
    ReplacedTotal(q, item);
    ReplacedMembers(q, entries[item.key], item);
  }

  // ---------- The objects ----------

  class FileCache {
    const limit: nat
    const objectLimit: nat
    var bytes: int
    var active: int
    var entries: map<string, Entry>
    var lru: seq<Entry>
    var blobs: map<string, seq<Byte>>
    var serial: nat

    ghost function State(): Cache
      reads this
    {
      Cache(limit, bytes, active, entries, lru, blobs, serial)
    }

    ghost predicate Valid()
      reads this
    {
      objectLimit == ObjectLimit(limit) && Sound(State())
    }

    constructor (limit: nat)
      ensures Valid() && State() == Empty(limit)
    {
      this.limit := limit;
      objectLimit := ObjectLimit(limit);
      bytes, active, entries, lru, blobs, serial := 0, 0, map[], [], map[], 0;
    }

    method Remove(item: Entry, fails: bool) returns (done: bool)
      modifies this
      ensures done == !fails && State() == if fails then old(State()) else Removed(old(State()), item)
    {
      if fails {
        return false;
      }
      blobs := blobs - {item.key};
      entries := entries - {item.key};
      lru := Without(lru, item.key);
      bytes := bytes - item.cost;
      return true;
    }

    method Evict(fails: Fails, t: nat) returns (done: bool, attempts: nat)
      modifies this
      ensures Eviction(State(), done, attempts) == Evicted(old(State()), |old(lru)|, fails, t)
    {
      var n := |lru|;
      attempts := t;
      while n > 0
        invariant 0 <= n <= |lru| && State() == old(State())
        invariant Evicted(State(), n, fails, attempts) == Evicted(State(), |lru|, fails, t)
      {
        if lru[n - 1].value.readers == 0 {
          done := Remove(lru[n - 1], fails(attempts));
          attempts := attempts + 1;
          if done {
            return;
          }
        }
        n := n - 1;
      }
      return false, attempts;
    }

    /** The first region of an opening: a hit takes hold of its entry. */
    method LookUp(key: string, opens: bool, fails: bool) returns (found: Option<Held>)
      requires Valid()
      modifies this
      ensures Valid() && Lookup(State(), found) == LookedUp(old(State()), key, opens, fails)
      ensures IsLookUp(old(State()), Lookup(State(), found), key, opens, fails)
    {
      ghost var before := State();
      KeyOfEntry(before, key);
      found := None;
      if key in entries {
        var item := entries[key];
        if opens && key in blobs {
          TakeHold(WithReaders(item, item.value.readers + 1));
          found := Some(Held(item.value.serial, blobs[key]));
        } else if item.value.readers == 0 {
          var _ := Remove(item, fails);
        }
      }
      assert Lookup(State(), found) == LookedUp(before, key, opens, fails);
      LookedUpSound(before, key, opens, fails);
      LookedUpMeaning(before, key, opens, fails);
    }

    /** An entry comes to the front as it is now. */
    method TakeHold(read: Entry)
      modifies this
      ensures State() == old(State()).(entries := old(entries)[read.key := read],
                                       lru := [read] + Without(old(lru), read.key))
    {
      entries := entries[read.key := read];
      lru := [read] + Without(lru, read.key);
    }

    /** The second region: whether the caller may fill the cache while it streams. */
    method Reserve(fails: Fails, creates: bool) returns (granted: bool)
      requires Valid()
      modifies this
      ensures Valid() && Reservation(State(), granted) == Reserved(old(State()), fails, creates)
      ensures granted ==> creates && old(active) < MAX_ACTIVE && active == old(active) + 1
      ensures !granted ==> active == old(active)
      ensures (forall t :: !fails(t)) ==>
                (granted <==> creates && old(active) < MAX_ACTIVE && BusyLeavesRoom(old(State())))
    {
      ReservedSound(State(), fails, creates);
      GrantedIff(State(), fails, creates);
      if active >= MAX_ACTIVE || (active + 1) * objectLimit > limit {
        return false;
      }
      var made := MakeRoom(fails);
      if !made || !creates {
        return false;
      }
      active := active + 1;
      return true;
    }

    method MakeRoom(fails: Fails) returns (made: bool)
      requires objectLimit == ObjectLimit(limit)
      modifies this
      ensures var r := RoomMade(old(State()), fails, 0); State() == r.cache && made == r.done
    {
      var t := 0;
      while bytes + (active + 1) * objectLimit > limit || |lru| + active >= MAX_SLOTS
        invariant RoomMade(State(), fails, t) == RoomMade(old(State()), fails, 0)
        decreases |lru|
      {
        made, t := Evict(fails, t);
        if !made {
          return false;
        }
      }
      return true;
    }

    method GiveBack(key: string, serial: nat)
      requires Valid()
      modifies this
      ensures Valid() && State() == GivenBack(old(State()), key, serial)
    {
      ghost var before := State();
      KeyOfEntry(before, key);
      if key in entries && entries[key].value.serial == serial {
        Replace(WithReaders(entries[key], entries[key].value.readers - 1));
      }
      assert State() == GivenBack(before, key, serial);
      GivenBackSound(before, key, serial);
    }

    /** An entry becomes another one at its place. */
    method Replace(read: Entry)
      modifies this
      ensures State() == old(State()).(entries := old(entries)[read.key := read], lru := Replaced(old(lru), read))
    {
      entries := entries[read.key := read];
      lru := Replaced(lru, read);
    }

    method Finish(key: string, size: nat, content: seq<Byte>, commit: bool, renames: bool)
      requires Valid() && active > 0 && (commit ==> size <= objectLimit)
      modifies this
      ensures Valid() && State() == Finished(old(State()), key, size, content, commit, renames)
    {
      FinishedSound(State(), key, size, content, commit, renames);
      active := active - 1;
      if commit && key !in entries && renames {
        Add(Item(key, Reading(serial, 0), size), content);
      }
    }

    /** A complete file comes in front. */
    method Add(item: Entry, content: seq<Byte>)
      modifies this
      ensures State() == old(State()).(entries := old(entries)[item.key := item], lru := [item] + old(lru),
                                       bytes := old(bytes) + item.cost,
                                       blobs := old(blobs)[item.key := content], serial := old(serial) + 1)
    {
      entries := entries[item.key := item];
      lru := [item] + lru;
      bytes := bytes + item.cost;
      blobs := blobs[item.key := content];
      serial := serial + 1;
    }
  }

  /** An open cached file. */
  class CacheHit {
    const cache: FileCache
    const key: string
    const held: Held
    var closed: bool

    constructor (cache: FileCache, key: string, held: Held)
      ensures this.cache == cache && this.key == key && this.held == held && !closed
    {
      this.cache, this.key, this.held, closed := cache, key, held, false;
    }

    method Close()
      requires cache.Valid()
      modifies this, cache
      ensures cache.Valid() && closed
      ensures cache.State()
           == if old(closed) then old(cache.State()) else GivenBack(old(cache.State()), key, held.serial)
    {
      if !closed {
        closed := true;
        cache.GiveBack(key, held.serial);
      }
    }
  }

  /** How the file operations and the caller behave while a partial file is handled. */
  datatype World = World(writes: bool, closes: bool, waits: bool, renames: bool)

  /** A download that also fills a partial file. */
  class CacheFill {
    const cache: FileCache
    const key: string
    var file: Option<seq<Byte>>
    var size: nat

    ghost predicate Valid()
      reads this, cache
    {
      && cache.Valid()
      && (file.Some? ==> cache.active > 0 && size == |file.value| && size <= cache.objectLimit)
    }

    constructor (cache: FileCache, key: string)
      requires cache.Valid() && cache.active > 0
      ensures Valid() && this.cache == cache && this.key == key && file == Some([])
    {
      this.cache, this.key, file, size := cache, key, Some([]), 0;
    }

    method Finish(commit: bool, world: World)
      requires cache.Valid() && (file.Some? ==> cache.active > 0 && (commit ==> size <= cache.objectLimit))
      modifies this, cache
      ensures cache.Valid() && file == None && size == old(size)
      ensures cache.State() == if old(file).None? then old(cache.State())
                               else Finished(old(cache.State()), key, size, old(file).value,
                                             commit && world.closes && world.waits, world.renames)
    {
      if file.None? {
        return;
      }
      var content := file.value;
      file := None;
      cache.Finish(key, size, content, commit && world.closes && world.waits, world.renames);
    }

    /** One read: the caller gets what the source gave, whatever becomes of the partial file. */
    method Read(chunk: seq<Byte>, end: Option<End>, world: World) returns (given: seq<Byte>, final: Option<End>)
      requires Valid()
      modifies this, cache
      ensures Valid() && given == chunk && final == end
      ensures old(file).None? ==> file == None && cache.State() == old(cache.State())
      ensures old(file).Some? ==>
                Noted(FillRead(old(file).value, old(size), chunk, end, world.writes, cache.objectLimit),
                      old(cache.State()), world)
    {
      ghost var p := if file.None? then Going([], 0) else FillRead(file.value, size, chunk, end, world.writes,
                                              cache.objectLimit);
      ghost var before := cache.State();
      if file.Some? {
        assert chunk == [] ==> file.value + chunk == file.value;
        size := size + |chunk|;
        if size > cache.objectLimit {
          Finish(false, world);
        } else if |chunk| > 0 {
          if world.writes {
            file := Some(file.value + chunk);
          } else {
            Finish(false, world);
          }
        }
        assert file.None? ==> p.Ending? && Noted(p, before, world);
        assert file.Some? ==> p.file == file.value && size == p.size && cache.State() == before &&
                              (end.None? <==> p.Going?);
        if end.Some? {
          Finish(end == Some(Eof), world);
        }
      }
      return chunk, end;
    }

    /** File, size and cache after a read that made this progress. */
    ghost predicate Noted(p: Progress, before: Cache, world: World)
      reads this, cache
    {
      && size == p.size
      && match p
         case Going(f, _) => file == Some(f) && cache.State() == before
         case Ending(f, n, commit) =>
           file == None &&
           cache.State() == Finished(before, key, n, f, commit && world.closes && world.waits, world.renames)
    }

    method Close(world: World)
      requires Valid()
      modifies this, cache
      ensures cache.Valid() && file == None
      ensures cache.State() == if old(file).None? then old(cache.State())
                               else Finished(old(cache.State()), key, old(size), old(file).value, false, world.renames)
    {
      Finish(false, world);
    }
  }
}
