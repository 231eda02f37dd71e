/** The cache of immutable bundle manifests, bounded in bytes and entries. */
module ManifestCache {
  import opened Lru
  import opened Options
  import opened Weights

  datatype Asset = Asset(cid: string, path: string, bundlePath: string, format: string, contentType: string, size: int)

  /** A map that is shared by reference. */
  class Table<V(==)> {
    var entries: map<string, V>

    constructor (entries: map<string, V>)
      ensures this.entries == entries
    {
      this.entries := entries;
    }
  }

  /** Copying a manifest copies its references; a missing map is a null reference. */
  datatype Manifest = Manifest(cid: string, name: string, kind: string, version: int, size: int, original: Asset,
                               variants: Table?<Asset>, metadata: Table?<string>)

  /** What a manifest says, with the contents of its maps. */
  datatype Content = Content(cid: string, name: string, kind: string, version: int, size: int, original: Asset,
                             variants: Option<map<string, Asset>>, metadata: Option<map<string, string>>)

  function Entries<V>(t: Table?<V>): Option<map<string, V>>
    reads t
  {
    if t == null then None else Some(t.entries)
  }

  function Meaning(m: Manifest): Content
    reads m.variants, m.metadata
  {
    Content(m.cid, m.name, m.kind, m.version, m.size, m.original, Entries(m.variants), Entries(m.metadata))
  }

  ghost function Shared<V>(t: Table?<V>): set<object> {
    if t == null then {} else var o: object := t; {o}
  }

  ghost function Tables(m: Manifest): set<object> { Shared(m.variants) + Shared(m.metadata) }

  method CloneTable<V>(t: Table?<V>) returns (c: Table?<V>)
    ensures c == null <==> t == null
    ensures c != null ==> fresh(c) && c.entries == t.entries
  {
    if t == null {
      return null;
    }
    c := new Table(t.entries);
  }

  method CloneManifest(m: Manifest) returns (c: Manifest)
    ensures Meaning(c) == Meaning(m) && fresh(Tables(c))
  {
    var variants := CloneTable(m.variants);
    var metadata := CloneTable(m.metadata);
    c := m.(variants := variants, metadata := metadata);
  }

  // ---------- Cost ----------

  function AssetCost(a: Asset): nat {
    256 + |a.cid| + |a.path| + |a.bundlePath| + |a.format| + |a.contentType|
  }

  ghost function EntriesCost<V>(entries: Option<map<string, V>>, weight: (string, V) -> nat): nat {
    if entries.None? then 0 else Weigh(entries.value, weight)
  }

  ghost function VariantsCost(entries: Option<map<string, Asset>>): nat {
    EntriesCost(entries, (k, a: Asset) => |k| + AssetCost(a))
  }

  ghost function MetadataCost(entries: Option<map<string, string>>): nat {
    EntriesCost(entries, (k, v: string) => 128 + |k| + |v|)
  }

  ghost function Cost(c: Content): nat {
    512 + 2 * |c.cid| + |c.name| + |c.kind|
    + AssetCost(c.original) + VariantsCost(c.variants) + MetadataCost(c.metadata)
  }

  /** A loop that takes the entries of a map in any order. */
  method Weighed<V(==)>(t: Table?<V>, weight: (string, V) -> nat) returns (n: nat)
    ensures n == EntriesCost(Entries(t), weight)
  {
    n := 0;
    if t != null {
      var rest := t.entries;
      while rest.Keys != {}
        invariant n + Weigh(rest, weight) == Weigh(t.entries, weight)
      {
        var k :| k in rest;
        WeighWithout(rest, k, weight);
        n := n + weight(k, rest[k]);
        rest := rest - {k};
      }
    }
  }

  /** What a manifest costs: its own strings, and for each entry of its maps the key, the value and a fixed part. */
  lemma CostMeaning(c: Content, k: string)
    ensures c.variants in [None, Some(map[])] && c.metadata in [None, Some(map[])] ==>
              Cost(c) == 512 + 2 * |c.cid| + |c.name| + |c.kind| + AssetCost(c.original)
    ensures c.variants.Some? && k in c.variants.value ==>
              Cost(c) == Cost(c.(variants := Some(c.variants.value - {k}))) + |k| + AssetCost(c.variants.value[k])
    ensures c.metadata.Some? && k in c.metadata.value ==>
              Cost(c) == Cost(c.(metadata := Some(c.metadata.value - {k}))) + 128 + |k| + |c.metadata.value[k]|
  {
    if c.variants.Some? && k in c.variants.value {
      WeighWithout(c.variants.value, k, (k, a: Asset) => |k| + AssetCost(a));
    }
    if c.metadata.Some? && k in c.metadata.value {
      WeighWithout(c.metadata.value, k, (k, v: string) => 128 + |k| + |v|);
    }
  }

  method ManifestCost(m: Manifest) returns (n: nat)
    ensures n == Cost(Meaning(m))
  {
    n := 512 + 2 * |m.cid| + |m.name| + |m.kind| + AssetCost(m.original);
    var variants := Weighed(m.variants, (k, a: Asset) => |k| + AssetCost(a));
    var metadata := Weighed(m.metadata, (k, v: string) => 128 + |k| + |v|);
    n := n + variants + metadata;
  }

  // ---------- The cache ----------

  const MAX_COST := 256 * 1024
  const MAX_ENTRIES := 1024

  type Entry = Item<Manifest>

  /** The list after a look-up: a hit moves to the front. */
  function Looked(q: seq<Entry>, cid: string): seq<Entry> {
    match Find(q, cid)
    case None => q
    case Some(item) => Fronted(q, item)
  }

  function Find(q: seq<Entry>, cid: string): (r: Option<Entry>)
    ensures r.Some? ==> r.value in q && r.value.key == cid
    ensures r.None? ==> forall item <- q :: item.key != cid
  {
    if q == [] then None else if q[0].key == cid then Some(q[0]) else Find(q[1..], cid)
  }

  /** The list after an insertion: what is too large or already there changes nothing. */
  function Added(q: seq<Entry>, item: Entry, limit: nat): seq<Entry> {
    if item.cost > limit || item.cost > MAX_COST || Find(q, item.key).Some? then q
    else [item] + Kept(q, item.cost, limit, MAX_ENTRIES)
  }

  predicate Names(q: seq<Entry>, cid: string) { exists item <- q :: item.key == cid }

  /** What a look-up means: the entry of that key comes to the front, and the others keep their order. */
  ghost predicate IsGet(before: seq<Entry>, after: seq<Entry>, cid: string, r: Option<Manifest>) {
    match r
    case None => !Names(before, cid) && after == before
    case Some(value) =>
      exists i :: 0 <= i < |before| && before[i].key == cid && before[i].value == value
                  && after == [before[i]] + (before[..i] + before[i + 1..])
  }

  /**
   What an insertion means: nothing for what is too large or there already; else the entry comes in front of as many
   of the others as fit beside it, taken from the front.
   */
  ghost predicate IsPut(before: seq<Entry>, after: seq<Entry>, item: Entry, limit: nat) {
    if item.cost > limit || item.cost > 256 * 1024 || Names(before, item.key) then after == before
    else exists n :: 0 <= n <= |before| && after == [item] + before[..n] && FillsUp(before, n, item.cost, limit)
  }

  ghost predicate FillsUp(before: seq<Entry>, n: nat, cost: nat, limit: nat)
    requires n <= |before|
  {
    && Total(before[..n]) + cost <= limit && n < 1024
    && (n < |before| ==> Total(before[..n + 1]) + cost > limit || n + 1 >= 1024)
  }

  lemma LookedMeaning(q: seq<Entry>, cid: string)
    requires Distinct(q)
    ensures IsGet(q, Looked(q, cid), cid, Held(q, cid))
  {
    match Find(q, cid) {
      case None =>
      case Some(item) =>
        var i :| 0 <= i < |q| && q[i] == item;
        WithoutKeeps(q, i);
    }
  }

  lemma AddedMeaning(q: seq<Entry>, item: Entry, limit: nat)
    ensures IsPut(q, Added(q, item, limit), item, limit)
  {
    if Find(q, item.key).None? && item.cost <= limit && item.cost <= MAX_COST {
      var kept := Kept(q, item.cost, limit, MAX_ENTRIES);
      KeptIsLongest(q, item.cost, limit, MAX_ENTRIES);
      assert kept == q[..|kept|];
      assert FillsUp(q, |kept|, item.cost, limit);
    }
  }

  class ManifestCache {
    var entries: map<string, Entry>
    var lru: seq<Entry>
    var bytes: nat
    const limit: nat

    /** Map and list hold the same entries, `bytes` is their exact cost, and the budget holds. */
    ghost predicate Valid()
      reads this
    {
      && Within(lru, limit, MAX_ENTRIES)
      && Indexes(entries, lru)
      && bytes == Total(lru)
      && NoneTooLarge(lru)
    }

    constructor (limit: nat)
      ensures Valid() && lru == [] && this.limit == limit
    {
      entries, lru, bytes := map[], [], 0;
      this.limit := limit;
    }

    method Get(cid: string) returns (r: Option<Manifest>)
      requires Valid()
      modifies this
      ensures Valid() && lru == Looked(old(lru), cid)
      ensures r == Held(old(lru), cid) && IsGet(old(lru), lru, cid, r)
    {
      LookedMeaning(lru, cid);
      if cid !in entries {
        return None;
      }
      var item := entries[cid];
      OneOfItsKey(lru, item);
      FrontedWithin(lru, item, limit, MAX_ENTRIES);
      IndexesSame(entries, lru, Fronted(lru, item));
      lru := Fronted(lru, item);
      return Some(item.value);
    }

    method Put(cid: string, value: Manifest)
      requires Valid()
      modifies this
      ensures Valid() && lru == Added(old(lru), Item(cid, value, Cost(Meaning(value))), limit)
      ensures IsPut(old(lru), lru, Item(cid, value, Cost(Meaning(value))), limit)
    {
      ghost var before := lru;
      var cost := ManifestCost(value);
      if cost <= limit && cost <= MAX_COST {
        if cid in entries {
          OneOfItsKey(lru, entries[cid]);
        } else {
          Insert(Item(cid, value, cost));
        }
      }
      assert lru == Added(before, Item(cid, value, Cost(Meaning(value))), limit);
      AddedMeaning(before, Item(cid, value, Cost(Meaning(value))), limit);
    }

    /** What fits comes in front, after what it pushes out has gone. */
    method Insert(item: Entry)
      requires Valid() && item.key !in entries && item.cost <= limit && item.cost <= MAX_COST
      modifies this
      ensures Valid() && lru == [item] + Kept(old(lru), item.cost, limit, MAX_ENTRIES)
    {
      AddedWithin(lru, item, limit, MAX_ENTRIES);
      MakeRoom(item.cost);
      InFront(entries, lru, item);
      entries := entries[item.key := item];
      lru := [item] + lru;
      bytes := bytes + item.cost;
    }

    /** The eviction loop; the list never runs empty while more room is wanted. */
    method MakeRoom(cost: nat)
      requires Valid() && cost <= limit
      modifies this
      ensures Valid() && lru == Kept(old(lru), cost, limit, MAX_ENTRIES)
      ensures entries.Keys <= old(entries.Keys)
    {
      IndexedSize(entries, lru);
      while bytes + cost > limit || |entries| >= MAX_ENTRIES
        invariant Valid() && |entries| == |lru| && entries.Keys <= old(entries.Keys)
        invariant Kept(lru, cost, limit, MAX_ENTRIES) == Kept(old(lru), cost, limit, MAX_ENTRIES)
        decreases |lru|
      {
        EvictLast();
      }
    }

    method EvictLast()
      requires Valid() && lru != []
      modifies this
      ensures Valid() && lru == old(lru)[..|old(lru)| - 1]
      ensures |entries| == |lru| && entries.Keys <= old(entries.Keys)
    {
      var last := lru[|lru| - 1];
      IndexesShorter(entries, lru);
      entries := entries - {last.key};
      bytes := bytes - last.cost;
      lru := lru[..|lru| - 1];
      IndexedSize(entries, lru);
    }
  }

  lemma InFront(entries: map<string, Entry>, q: seq<Entry>, item: Entry)
    requires Indexes(entries, q) && item.key !in entries && item.cost <= MAX_COST && NoneTooLarge(q)
    ensures Indexes(entries[item.key := item], [item] + q) && NoneTooLarge([item] + q)
    ensures Total([item] + q) == item.cost + Total(q)
  {
    IndexesLonger(entries, q, item);
    TotalFront(item, q);
  }

  predicate NoneTooLarge(q: seq<Entry>) { forall item <- q :: item.cost <= MAX_COST }

  ghost predicate Speaks(item: Entry, source: string -> Content)
    reads Tables(item.value)
  {
    Meaning(item.value) == source(item.key) && item.cost == Cost(source(item.key))
  }

  function Held(q: seq<Entry>, cid: string): Option<Manifest> {
    match Find(q, cid)
    case None => None
    case Some(item) => Some(item.value)
  }

  lemma {:induction false} OneOfItsKey(q: seq<Entry>, item: Entry)
    requires Distinct(q) && item in q
    ensures Find(q, item.key) == Some(item)
  {
    if q[0] != item {
      OneOfItsKey(q[1..], item);
    }
  }

  // ---------- Loading ----------

  /** Every entry still says what the source says, at the cost that was counted; its maps are owned by the cache. */
  ghost predicate Truthful(q: seq<Entry>, owned: set<object>, source: string -> Content)
    reads owned
  {
    forall item <- q :: Tables(item.value) <= owned && Speaks(item, source)
  }

  /**
   A cached answer, or the fetched one, which is kept for later.  `fetched` is what the fetch would give;
   None stands for its failure.  The caller gets maps of its own.
   */
  method Load(cache: ManifestCache, cid: string, fetched: Option<Manifest>, ghost source: string -> Content,
              ghost owned: set<object>)
    returns (r: Option<Manifest>)
    requires cache.Valid() && cache !in owned && Truthful(cache.lru, owned, source)
    requires fetched.Some? ==> Meaning(fetched.value) == source(cid) && Tables(fetched.value) <= owned
    modifies cache
    ensures cache.Valid() && Truthful(cache.lru, owned, source)
    ensures r.Some? ==> Meaning(r.value) == source(cid) && fresh(Tables(r.value))
    ensures r.Some? <==> old(Held(cache.lru, cid)).Some? || fetched.Some?
    ensures r.Some? && Cost(source(cid)) <= cache.limit && Cost(source(cid)) <= MAX_COST ==> Names(cache.lru, cid)
  {
    var found := GetTruly(cache, cid, source, owned);
    if found.Some? {
      r := CloneOf(found.value);
    } else if fetched.Some? {
      PutTruly(cache, cid, fetched.value, source, owned);
      r := CloneOf(fetched.value);
    } else {
      r := None;
    }
  }

  method GetTruly(cache: ManifestCache, cid: string, ghost source: string -> Content,
                  ghost owned: set<object>) returns (r: Option<Manifest>)
    requires cache.Valid() && cache !in owned && Truthful(cache.lru, owned, source)
    modifies cache
    ensures cache.Valid() && Truthful(cache.lru, owned, source)
    ensures r == old(Held(cache.lru, cid)) && (r.Some? ==> Meaning(r.value) == source(cid))
    ensures r.Some? ==> Names(cache.lru, cid)
  {
    TruthfulLooked(cache.lru, cid, owned, source);
    r := cache.Get(cid);
  }

  method PutTruly(cache: ManifestCache, cid: string, value: Manifest, ghost source: string -> Content,
                  ghost owned: set<object>)
    requires cache.Valid() && cache !in owned && Truthful(cache.lru, owned, source)
    requires Meaning(value) == source(cid) && Tables(value) <= owned
    modifies cache
    ensures cache.Valid() && Truthful(cache.lru, owned, source)
    ensures Cost(source(cid)) <= cache.limit && Cost(source(cid)) <= MAX_COST ==> Names(cache.lru, cid)
  {
    TruthfulAdded(cache.lru, cid, value, owned, source, cache.limit);
    AddedIsThere(cache.lru, Item(cid, value, Cost(Meaning(value))), cache.limit);
    cache.Put(cid, value);
  }

  lemma TruthfulLooked(q: seq<Entry>, cid: string, owned: set<object>, source: string -> Content)
    requires Truthful(q, owned, source)
    ensures Truthful(Looked(q, cid), owned, source)
    ensures Held(q, cid).Some? ==> Meaning(Held(q, cid).value) == source(cid)
  {
    LookedHasTheSame(q, cid);
  }

  lemma TruthfulAdded(q: seq<Entry>, cid: string, value: Manifest, owned: set<object>, source: string -> Content,
                      limit: nat)
    requires Truthful(q, owned, source) && Meaning(value) == source(cid) && Tables(value) <= owned
    ensures Truthful(Added(q, Item(cid, value, Cost(Meaning(value))), limit), owned, source)
  {
    AddedHasNoOthers(q, Item(cid, value, Cost(Meaning(value))), limit);
  }

  method CloneOf(m: Manifest) returns (r: Option<Manifest>)
    ensures r.Some? && Meaning(r.value) == Meaning(m) && fresh(Tables(r.value))
  {
    var c := CloneManifest(m);
    return Some(c);
  }

  lemma LookedHasTheSame(q: seq<Entry>, cid: string)
    ensures forall x <- Looked(q, cid) :: x in q
  {
    WithoutHasNoOthers(q, cid);
  }

  lemma AddedIsThere(q: seq<Entry>, item: Entry, limit: nat)
    ensures item.cost <= limit && item.cost <= MAX_COST ==> Names(Added(q, item, limit), item.key)
  {
    if item.cost <= limit && item.cost <= MAX_COST && Find(q, item.key).None? {
      assert Added(q, item, limit)[0] == item;
    }
  }

  lemma AddedHasNoOthers(q: seq<Entry>, item: Entry, limit: nat)
    ensures forall x <- Added(q, item, limit) :: x == item || x in q
  {
  }

  /** Whatever a caller writes into the maps it was given, the next load says what the source says. */
  method LoadWriteLoad(cache: ManifestCache, cid: string, fetched: Option<Manifest>, variants: map<string, Asset>,
                       metadata: map<string, string>, ghost source: string -> Content, ghost owned: set<object>)
    returns (r: Option<Manifest>)
    requires cache.Valid() && cache !in owned && Truthful(cache.lru, owned, source)
    requires fetched.Some? ==> Meaning(fetched.value) == source(cid) && Tables(fetched.value) <= owned
    modifies cache
    ensures cache.Valid() && Truthful(cache.lru, owned, source)
    ensures r.Some? ==> Meaning(r.value) == source(cid)
  {
    var first := Load(cache, cid, fetched, source, owned);
    if first.Some? {
      Overwrite(first.value, variants, metadata);
    }
    r := Load(cache, cid, fetched, source, owned);
  }

  method Overwrite(m: Manifest, variants: map<string, Asset>, metadata: map<string, string>)
    modifies Tables(m)
  {
    if m.variants != null {
      m.variants.entries := variants;
    }
    if m.metadata != null {
      m.metadata.entries := metadata;
    }
  }

  // ---------- Runs ----------

  datatype Call = Get(cid: string) | Put(item: Entry)

  function AfterCalls(calls: seq<Call>, limit: nat): seq<Entry> {
    if calls == [] then [] else AfterCall(AfterCalls(calls[..|calls| - 1], limit), calls[|calls| - 1], limit)
  }

  /** The calls that hit or add, as uses of the list. */
  function UsesOf(calls: seq<Call>, limit: nat): seq<Use<Manifest>> {
    if calls == [] then []
    else
      var before := calls[..|calls| - 1];
      match UseOf(AfterCalls(before, limit), calls[|calls| - 1], limit)
      case None => UsesOf(before, limit)
      case Some(use) => UsesOf(before, limit) + [use]
  }

  lemma HistoryGrows(uses: seq<Use<Manifest>>, use: Use<Manifest>, limit: nat)
    requires IsHistory(uses, limit, MAX_ENTRIES) && Possible(Used(uses, limit, MAX_ENTRIES), use, limit)
    ensures IsHistory(uses + [use], limit, MAX_ENTRIES)
    ensures Used(uses + [use], limit, MAX_ENTRIES) == Step(Used(uses, limit, MAX_ENTRIES), use, limit, MAX_ENTRIES)
  {
    var all := uses + [use];
    forall k | 0 <= k < |all| ensures Possible(Used(all[..k], limit, MAX_ENTRIES), all[k], limit) {
      assert k < |uses| ==> all[..k] == uses[..k];
      assert k == |uses| ==> all[..k] == uses;
    }
    assert all[..|all| - 1] == uses;
  }

  function UseOf(q: seq<Entry>, call: Call, limit: nat): Option<Use<Manifest>> {
    match call
    case Get(cid) => (match Find(q, cid) case None => None case Some(item) => Some(Hit(item)))
    case Put(item) => if item.cost > limit || item.cost > MAX_COST || Find(q, item.key).Some? then None
                      else Some(Add(item))
  }

  function AfterCall(q: seq<Entry>, call: Call, limit: nat): seq<Entry> {
    match call
    case Get(cid) => Looked(q, cid)
    case Put(item) => Added(q, item, limit)
  }

  lemma CallIsUse(q: seq<Entry>, call: Call, limit: nat)
    ensures match UseOf(q, call, limit)
            case None => AfterCall(q, call, limit) == q
            case Some(use) => Possible(q, use, limit) && AfterCall(q, call, limit) == Step(q, use, limit, MAX_ENTRIES)
  {
  }

  /** Every run of calls is a history of uses, so the list is bounded and its order is that of last use. */
  lemma {:induction false} RunsAreHistories(calls: seq<Call>, limit: nat)
    ensures IsHistory(UsesOf(calls, limit), limit, MAX_ENTRIES)
    ensures AfterCalls(calls, limit) == Used(UsesOf(calls, limit), limit, MAX_ENTRIES)
  {
    if calls != [] {
      var before, call := calls[..|calls| - 1], calls[|calls| - 1];
      RunsAreHistories(before, limit);
      var q := AfterCalls(before, limit);
      CallIsUse(q, call, limit);
      if UseOf(q, call, limit).Some? {
        HistoryGrows(UsesOf(before, limit), UseOf(q, call, limit).value, limit);
      }
    }
  }

  /** Budget and order of the cached entries after any run of calls. */
  lemma CachedInOrderOfLastUse(calls: seq<Call>, limit: nat)
    ensures Within(AfterCalls(calls, limit), limit, MAX_ENTRIES)
    ensures ByLastUse(AfterCalls(calls, limit), UsesOf(calls, limit))
  {
    RunsAreHistories(calls, limit);
    HistoryInOrder(UsesOf(calls, limit), limit, MAX_ENTRIES);
  }
}
