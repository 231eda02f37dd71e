/** Lists of entries, the most recently used first, cut to a budget from the back. */
module Lru {
  datatype Item<V> = Item(key: string, value: V, cost: nat)

  function Total<V>(q: seq<Item<V>>): (n: nat) {
    if q == [] then 0 else Total(q[..|q| - 1]) + q[|q| - 1].cost
  }

  ghost function Keys<V>(q: seq<Item<V>>): set<string> { set item <- q :: item.key }

  predicate Distinct<V>(q: seq<Item<V>>) {
    forall i, j :: 0 <= i < j < |q| ==> q[i].key != q[j].key
  }

  function Without<V>(q: seq<Item<V>>, key: string): seq<Item<V>>
  {
    if q == [] then []
    else if q[|q| - 1].key == key then Without(q[..|q| - 1], key)
    else Without(q[..|q| - 1], key) + [q[|q| - 1]]
  }

  /** Cut from the back until `cost` more bytes and one more entry fit. */
  function Kept<V>(q: seq<Item<V>>, cost: nat, limit: nat, slots: nat): (r: seq<Item<V>>)
    ensures r <= q
  {
    if q == [] || (Total(q) + cost <= limit && |q| < slots) then q
    else Kept(q[..|q| - 1], cost, limit, slots)
  }

  function Fronted<V>(q: seq<Item<V>>, item: Item<V>): seq<Item<V>> { [item] + Without(q, item.key) }

  lemma {:induction false} NothingToRemove<V>(q: seq<Item<V>>, key: string)
    requires forall item <- q :: item.key != key
    ensures Without(q, key) == q
  {
    if q != [] {
      NothingToRemove(q[..|q| - 1], key);
    }
  }

  lemma {:induction false} WithoutHasNoOthers<V>(q: seq<Item<V>>, key: string)
    ensures forall x <- Without(q, key) :: x in q
  {
    if q != [] {
      WithoutHasNoOthers(q[..|q| - 1], key);
    }
  }

  lemma {:induction false} WithoutKeeps<V>(q: seq<Item<V>>, i: nat)
    requires Distinct(q) && i < |q|
    ensures Without(q, q[i].key) == q[..i] + q[i + 1..]
  {
    var shorter := q[..|q| - 1];
    if i == |q| - 1 {
      NothingToRemove(shorter, q[i].key);
    } else {
      WithoutKeeps(shorter, i);
      assert shorter[..i] == q[..i] && shorter[i + 1..] + [q[|q| - 1]] == q[i + 1..];
    }
  }

  lemma WithoutIsShorter<V>(q: seq<Item<V>>, i: nat)
    requires i < |q|
    ensures |Without(q, q[i].key)| < |q|
  {
    WithoutIsNoLonger(q[..|q| - 1], q[i].key);
    if i < |q| - 1 {
      WithoutIsShorter(q[..|q| - 1], i);
    }
  }

  lemma {:induction false} WithoutIsNoLonger<V>(q: seq<Item<V>>, key: string)
    ensures |Without(q, key)| <= |q|
  {
    if q != [] {
      WithoutIsNoLonger(q[..|q| - 1], key);
    }
  }

  lemma {:induction false} TotalSplit<V>(p: seq<Item<V>>, q: seq<Item<V>>)
    ensures Total(p + q) == Total(p) + Total(q)
  {
    if q == [] {
      assert p + q == p;
    } else {
      TotalSplit(p, q[..|q| - 1]);
      assert (p + q)[..|p + q| - 1] == p + q[..|q| - 1];
    }
  }

  lemma TotalFront<V>(item: Item<V>, q: seq<Item<V>>)
    ensures Total([item] + q) == item.cost + Total(q)
  {
    TotalSplit([item], q);
    assert Total([item]) == item.cost + Total<V>([]);
  }

  /** The longest run of recently used entries that leaves enough room. */
  lemma {:induction false} KeptIsLongest<V>(q: seq<Item<V>>, cost: nat, limit: nat, slots: nat)
    requires cost <= limit && 0 < slots
    ensures Total(Kept(q, cost, limit, slots)) + cost <= limit && |Kept(q, cost, limit, slots)| < slots
    ensures forall n :: |Kept(q, cost, limit, slots)| < n <= |q| ==> Total(q[..n]) + cost > limit || n >= slots
  {
    if q != [] && !(Total(q) + cost <= limit && |q| < slots) {
      var shorter := q[..|q| - 1];
      KeptIsLongest(shorter, cost, limit, slots);
      forall n | |Kept(q, cost, limit, slots)| < n <= |q| ensures Total(q[..n]) + cost > limit || n >= slots {
        if n < |q| {
          assert shorter[..n] == q[..n];
        } else {
          assert q[..n] == q;
        }
      }
    }
  }

  // ---------- Parts of a list ----------

  function Filtered<V>(q: seq<Item<V>>, p: Item<V> -> bool): seq<Item<V>> {
    if q == [] then []
    else if p(q[|q| - 1]) then Filtered(q[..|q| - 1], p) + [q[|q| - 1]]
    else Filtered(q[..|q| - 1], p)
  }

  lemma {:induction false} FilteredIsLess<V>(q: seq<Item<V>>, p: Item<V> -> bool)
    ensures Total(Filtered(q, p)) <= Total(q) && |Filtered(q, p)| <= |q|
  {
    if q != [] {
      var front, last := q[..|q| - 1], q[|q| - 1];
      FilteredIsLess(front, p);
      assert (Filtered(front, p) + [last])[..|Filtered(front, p)|] == Filtered(front, p);
    }
  }

  lemma {:induction false} FilteredSplit<V>(a: seq<Item<V>>, b: seq<Item<V>>, p: Item<V> -> bool)
    ensures Filtered(a + b, p) == Filtered(a, p) + Filtered(b, p)
  {
    if b == [] {
      assert a + b == a;
    } else {
      assert (a + b)[..|a + b| - 1] == a + b[..|b| - 1];
      FilteredSplit(a, b[..|b| - 1], p);
    }
  }

  lemma {:induction false} AllFiltered<V>(q: seq<Item<V>>, p: Item<V> -> bool)
    requires forall i :: 0 <= i < |q| ==> p(q[i])
    ensures Filtered(q, p) == q
  {
    if q != [] {
      AllFiltered(q[..|q| - 1], p);
    }
  }

  /** Taking out what does not belong to the part leaves the part as it is. */
  lemma FilteredWithout<V>(q: seq<Item<V>>, i: nat, p: Item<V> -> bool)
    requires Distinct(q) && i < |q| && !p(q[i])
    ensures Filtered(Without(q, q[i].key), p) == Filtered(q, p)
  {
    WithoutKeeps(q, i);
    Pieces(q, i);
    FilteredCut(q[..i], q[i], q[i + 1..], p);
  }

  lemma Pieces<V>(q: seq<Item<V>>, i: nat)
    requires i < |q|
    ensures q == q[..i] + ([q[i]] + q[i + 1..])
  {
  }

  lemma FilteredCut<V>(a: seq<Item<V>>, item: Item<V>, b: seq<Item<V>>, p: Item<V> -> bool)
    requires !p(item)
    ensures Filtered(a + ([item] + b), p) == Filtered(a + b, p)
  {
    FilteredSplit(a, [item] + b, p);
    FilteredSplit([item], b, p);
    FilteredSplit(a, b, p);
    FilteredAlone(item, p);
    assert [] + Filtered(b, p) == Filtered(b, p);
  }

  lemma FilteredAlone<V>(item: Item<V>, p: Item<V> -> bool)
    requires !p(item)
    ensures Filtered([item], p) == []
  {
    assert [item][..0] == [];
  }

  /** A list within its budget, each key once. */
  predicate Within<V>(q: seq<Item<V>>, limit: nat, slots: nat) {
    Distinct(q) && Total(q) <= limit && |q| <= slots
  }

  lemma FrontedWithin<V>(q: seq<Item<V>>, item: Item<V>, limit: nat, slots: nat)
    requires Within(q, limit, slots) && item in q
    ensures Within(Fronted(q, item), limit, slots)
    ensures Total(Fronted(q, item)) == Total(q) && |Fronted(q, item)| == |q|
    ensures forall x :: x in Fronted(q, item) <==> x in q
  {
    var i :| 0 <= i < |q| && q[i] == item;
    WithoutKeeps(q, i);
    assert q == q[..i] + ([item] + q[i + 1..]);
    Rotated(q[..i], item, q[i + 1..], q);
    RotatedTotal(q[..i], item, q[i + 1..]);
  }

  lemma RotatedTotal<V>(a: seq<Item<V>>, item: Item<V>, b: seq<Item<V>>)
    ensures Total([item] + (a + b)) == Total(a + ([item] + b))
  {
    TotalFront(item, a + b);
    TotalSplit(a, b);
    TotalSplit(a, [item] + b);
    TotalFront(item, b);
  }

  lemma Rotated<V>(a: seq<Item<V>>, item: Item<V>, b: seq<Item<V>>, q: seq<Item<V>>)
    requires q == a + ([item] + b) && Distinct(q)
    ensures Distinct([item] + (a + b))
    ensures forall x :: x in [item] + (a + b) <==> x in q
  {
    assert forall i :: 0 <= i < |a| ==> q[i] == a[i];
    assert forall i :: 0 <= i < |b| ==> q[|a| + 1 + i] == b[i];
    assert q[|a|] == item;
    assert forall x :: x in q <==> x in a || x == item || x in b;
  }

  lemma AddedWithin<V>(q: seq<Item<V>>, item: Item<V>, limit: nat, slots: nat)
    requires Within(q, limit, slots) && item.key !in Keys(q) && item.cost <= limit && 0 < slots
    ensures Within([item] + Kept(q, item.cost, limit, slots), limit, slots)
  {
    KeptIsLongest(q, item.cost, limit, slots);
    TotalFront(item, Kept(q, item.cost, limit, slots));
    var kept := Kept(q, item.cost, limit, slots);
    forall x | x in kept ensures x.key != item.key {
      assert x in q;
    }
  }

  // ---------- The index beside the list ----------

  /** A map that finds each entry of the list by its key, and nothing else. */
  ghost predicate Indexes<V>(entries: map<string, Item<V>>, q: seq<Item<V>>) {
    && (forall key <- entries :: entries[key] in q && entries[key].key == key)
    && (forall item <- q :: item.key in entries && entries[item.key] == item)
  }

  lemma IndexesSame<V>(entries: map<string, Item<V>>, q: seq<Item<V>>, p: seq<Item<V>>)
    requires Indexes(entries, q) && forall x :: x in p <==> x in q
    ensures Indexes(entries, p)
  {
  }

  lemma IndexesShorter<V>(entries: map<string, Item<V>>, q: seq<Item<V>>)
    requires Indexes(entries, q) && Distinct(q) && q != []
    ensures Indexes(entries - {q[|q| - 1].key}, q[..|q| - 1])
  {
    var last, rest := q[|q| - 1], q[..|q| - 1];
    assert q == rest + [last];
    forall key <- entries | key != last.key ensures entries[key] in rest {
      assert entries[key] in q;
    }
  }

  lemma IndexesLonger<V>(entries: map<string, Item<V>>, q: seq<Item<V>>, item: Item<V>)
    requires Indexes(entries, q) && item.key !in entries
    ensures Indexes(entries[item.key := item], [item] + q)
  {
  }

  lemma {:induction false} IndexedSize<V>(entries: map<string, Item<V>>, q: seq<Item<V>>)
    requires Indexes(entries, q) && Distinct(q)
    ensures |entries| == |q|
  {
    if q == [] {
      assert forall key <- entries :: entries[key] in q;
    } else {
      var last := q[|q| - 1];
      IndexesShorter(entries, q);
      IndexedSize(entries - {last.key}, q[..|q| - 1]);
      assert (entries - {last.key}).Keys == entries.Keys - {last.key};
    }
  }

  // ---------- Which entries go ----------

  datatype Use<V> = Hit(item: Item<V>) | Add(item: Item<V>)

  function Step<V>(q: seq<Item<V>>, use: Use<V>, limit: nat, slots: nat): seq<Item<V>> {
    match use
    case Hit(item) => Fronted(q, item)
    case Add(item) => [item] + Kept(q, item.cost, limit, slots)
  }

  ghost predicate Possible<V>(q: seq<Item<V>>, use: Use<V>, limit: nat) {
    match use
    case Hit(item) => item in q
    case Add(item) => item.key !in Keys(q) && item.cost <= limit
  }

  /** The list after the first uses; calls that neither hit nor add leave it as it is and are not listed. */
  function Used<V>(uses: seq<Use<V>>, limit: nat, slots: nat): seq<Item<V>> {
    if uses == [] then [] else Step(Used(uses[..|uses| - 1], limit, slots), uses[|uses| - 1], limit, slots)
  }

  ghost predicate IsHistory<V>(uses: seq<Use<V>>, limit: nat, slots: nat) {
    0 < slots && forall k :: 0 <= k < |uses| ==> Possible(Used(uses[..k], limit, slots), uses[k], limit)
  }

  /** When the key was last used, counting from 1; 0 for never. */
  function LastUse<V>(uses: seq<Use<V>>, key: string): nat {
    if uses == [] then 0
    else if uses[|uses| - 1].item.key == key then |uses|
    else LastUse(uses[..|uses| - 1], key)
  }

  lemma {:induction false} LastUseInThePast<V>(uses: seq<Use<V>>, key: string)
    ensures LastUse(uses, key) <= |uses|
  {
    if uses != [] {
      LastUseInThePast(uses[..|uses| - 1], key);
    }
  }

  ghost predicate ByLastUse<V>(q: seq<Item<V>>, uses: seq<Use<V>>) {
    forall i, j :: 0 <= i < j < |q| ==> LastUse(uses, q[i].key) > LastUse(uses, q[j].key)
  }

  lemma WithoutKeepsOrder<V>(q: seq<Item<V>>, i: nat, uses: seq<Use<V>>)
    requires Distinct(q) && i < |q| && ByLastUse(q, uses)
    ensures ByLastUse(Without(q, q[i].key), uses)
    ensures forall x <- Without(q, q[i].key) :: x.key != q[i].key
  {
    WithoutKeeps(q, i);
  }

  lemma HistoryPrefix<V>(uses: seq<Use<V>>, limit: nat, slots: nat)
    requires uses != [] && IsHistory(uses, limit, slots)
    ensures IsHistory(uses[..|uses| - 1], limit, slots)
    ensures Possible(Used(uses[..|uses| - 1], limit, slots), uses[|uses| - 1], limit)
  {
    var before := uses[..|uses| - 1];
    forall k | 0 <= k < |before| ensures Possible(Used(before[..k], limit, slots), before[k], limit) {
      assert before[..k] == uses[..k];
    }
  }

  /** The list stays within its budget and in the order of last use. */
  lemma {:induction false} HistoryInOrder<V>(uses: seq<Use<V>>, limit: nat, slots: nat)
    requires IsHistory(uses, limit, slots)
    ensures Within(Used(uses, limit, slots), limit, slots) && ByLastUse(Used(uses, limit, slots), uses)
  {
    if uses != [] {
      var before, use := uses[..|uses| - 1], uses[|uses| - 1];
      HistoryPrefix(uses, limit, slots);
      HistoryInOrder(before, limit, slots);
      StepInOrder(Used(before, limit, slots), before, use, limit, slots);
      assert before + [use] == uses;
    }
  }

  lemma StepInOrder<V>(q: seq<Item<V>>, before: seq<Use<V>>, use: Use<V>, limit: nat, slots: nat)
    requires 0 < slots && Within(q, limit, slots) && ByLastUse(q, before) && Possible(q, use, limit)
    ensures Within(Step(q, use, limit, slots), limit, slots) && ByLastUse(Step(q, use, limit, slots), before + [use])
  {
    match use {
      case Hit(item) =>
        FrontedWithin(q, item, limit, slots);
        var i :| 0 <= i < |q| && q[i] == item;
        WithoutKeepsOrder(q, i, before);
        NewestInFront(Without(q, item.key), before, use);
      case Add(item) =>
        AddedWithin(q, item, limit, slots);
        var kept := Kept(q, item.cost, limit, slots);
        forall x <- kept ensures x.key != item.key {
          assert x in q;
        }
        NewestInFront(kept, before, use);
    }
  }

  lemma NewestInFront<V>(rest: seq<Item<V>>, before: seq<Use<V>>, use: Use<V>)
    requires ByLastUse(rest, before) && forall x <- rest :: x.key != use.item.key
    ensures ByLastUse([use.item] + rest, before + [use])
  {
    var uses := before + [use];
    assert uses[..|uses| - 1] == before;
    forall x <- rest ensures LastUse(uses, x.key) == LastUse(before, x.key) <= |before| {
      LastUseInThePast(before, x.key);
    }
  }

  lemma FrontIsNewer<V>(q: seq<Item<V>>, p: seq<Item<V>>, uses: seq<Use<V>>, victim: Item<V>, survivor: Item<V>)
    requires ByLastUse(q, uses) && p <= q && victim in q && victim !in p && survivor in p
    ensures LastUse(uses, victim.key) < LastUse(uses, survivor.key)
  {
    var v :| 0 <= v < |q| && q[v] == victim;
    var s :| 0 <= s < |p| && p[s] == survivor;
    assert forall i :: 0 <= i < |p| ==> q[i] == p[i];
  }

  /** Whatever an addition pushes out was used before everything it leaves in. */
  lemma VictimsAreLeastRecentlyUsed<V>(uses: seq<Use<V>>, item: Item<V>, limit: nat, slots: nat, victim: Item<V>,
                                       survivor: Item<V>)
    requires IsHistory(uses + [Add(item)], limit, slots)
    requires victim in Used(uses, limit, slots) && victim !in Used(uses + [Add(item)], limit, slots)
    requires survivor in Used(uses + [Add(item)], limit, slots) && survivor != item
    ensures LastUse(uses, victim.key) < LastUse(uses, survivor.key)
  {
    HistoryPrefix(uses + [Add(item)], limit, slots);
    assert (uses + [Add(item)])[..|uses|] == uses;
    HistoryInOrder(uses, limit, slots);
    var q := Used(uses, limit, slots);
    FrontIsNewer(q, Kept(q, item.cost, limit, slots), uses, victim, survivor);
  }
}
