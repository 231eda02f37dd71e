/** The JPEG side of metadata removal: markers up to the picture (ITU-T T.81, B.1.1). */
module Jpeg {
  import opened Bytes
  import opened ChunkWalk
  import opened Exif
  import opened Options
  import Seqs

  const SOI: seq<Byte> := [0xFF, 0xD8]
  // ---------- Markers as data ----------

  /** What follows SOI, with the number of fill bytes in front of each marker; the picture starts at SOS or EOI. */
  datatype Item =
    | Standalone(fill: nat, marker: Byte)
    | Segment(fill: nat, marker: Byte, payload: seq<Byte>)
    | Picture(fill: nat, tail: seq<Byte>)

  predicate IsEnd(marker: Byte) { marker == 0xDA || marker == 0xD9 }

  predicate IsStandalone(marker: Byte) { 0xD0 <= marker <= 0xD7 || marker == 0x01 }

  /** APP1, APP13 and COM. */
  predicate IsMetadata(marker: Byte) { marker == 0xE1 || marker == 0xED || marker == 0xFE }

  predicate WfItem(item: Item) {
    match item
    case Standalone(_, m) => IsStandalone(m)
    case Segment(_, m, payload) => m != 0xFF && !IsEnd(m) && !IsStandalone(m) && |payload| + 2 < 0x1_0000
    case Picture(_, tail) => |tail| >= 2 && tail[0] == 0xFF && IsEnd(tail[1])
  }

  /** Well-formed items of which the last, and only the last, is the picture. */
  predicate WfItems(items: seq<Item>) {
    && items != [] && WfItem(items[0])
    && (if items[0].Picture? then |items| == 1 else WfItems(items[1..]))
  }

  function Fill(n: nat): seq<Byte> { seq(n, _ => 0xFF) }

  function BareBytes(item: Item): seq<Byte> {
    match item
    case Standalone(_, m) => [0xFF, m]
    case Segment(_, m, payload) => [0xFF, m] + PutU16BE(|payload| + 2) + payload
    case Picture(_, tail) => tail
  }

  function ItemBytes(item: Item): seq<Byte> { Fill(item.fill) + BareBytes(item) }

  /** Reads one item; `fill` fill bytes were already passed. */
  function ReadFrom(d: seq<Byte>, fill: nat): Read<Item>
    decreases |d|
  {
    if |d| < 2 || d[0] != 0xFF then Unreadable
    else
      var m := d[1];
      if m == 0xFF then ReadFrom(d[1..], fill + 1)
      else if IsEnd(m) then Got(Picture(fill, d), [], true)
      else if IsStandalone(m) then Got(Standalone(fill, m), d[2..], false)
      else if |d| < 4 || U16BE(d, 2) < 2 || 2 + U16BE(d, 2) > |d| then Unreadable
      else
        var n := 2 + U16BE(d, 2);
        Got(Segment(fill, m, d[4..n]), d[n..], false)
  }

  function ReadItem(d: seq<Byte>): Read<Item> { ReadFrom(d, 0) }

  /** The same item behind another number of fill bytes. */
  function Refill(item: Item, n: nat): Item {
    match item
    case Standalone(_, m) => Standalone(n, m)
    case Segment(_, m, payload) => Segment(n, m, payload)
    case Picture(_, tail) => Picture(n, tail)
  }

  predicate Stays(item: Item) { item.Picture? || !IsMetadata(item.marker) }

  /** Kept items lose the fill bytes in front of them. */
  function Keep(item: Item): Option<Item> {
    if Stays(item) then Some(Refill(item, 0)) else None
  }

  // ---------- Reading and writing one item undo each other ----------

  lemma {:induction false} ReadIsExact(d: seq<Byte>, fill: nat)
    requires ReadFrom(d, fill).Got?
    ensures var g := ReadFrom(d, fill);
            && WfItem(g.chunk) && g.last == g.chunk.Picture? && |g.rest| < |d|
            && Fill(fill) + d == ItemBytes(g.chunk) + g.rest
    decreases |d|
  {
    var m := d[1];
    if m == 0xFF {
      ReadIsExact(d[1..], fill + 1);
      FillMore(d, fill);
    } else if IsEnd(m) {
      assert (Fill(fill) + d) + [] == Fill(fill) + d;
    } else if IsStandalone(m) {
      Seqs.Split(d, 2);
      Seqs.Assoc(Fill(fill), d[..2], d[2..]);
    } else {
      var n := 2 + U16BE(d, 2);
      U16BEIsPut(d, 2);
      FourParts(d, n);
      Seqs.Assoc(Fill(fill), [0xFF, m] + d[2..4] + d[4..n], d[n..]);
    }
  }

  lemma FillMore(d: seq<Byte>, fill: nat)
    requires d != [] && d[0] == 0xFF
    ensures Fill(fill) + d == Fill(fill + 1) + d[1..]
  {
  }

  lemma FourParts(d: seq<Byte>, n: nat)
    requires 4 <= n <= |d|
    ensures d == ([d[0], d[1]] + d[2..4] + d[4..n]) + d[n..]
  {
  }

  lemma ReadingIsExact()
    ensures Exact(ReadItem, ItemBytes)
  {
    forall d | ReadItem(d).Got? ensures d == ItemBytes(ReadItem(d).chunk) + ReadItem(d).rest {
      ReadIsExact(d, 0);
      assert Fill(0) + d == d;
    }
  }

  /** Where the parts of a written segment stand. */
  lemma SegmentLayout(m: Byte, payload: seq<Byte>, rest: seq<Byte>)
    requires |payload| + 2 < 0x1_0000
    ensures var d := BareBytes(Segment(0, m, payload)) + rest;
            var n := |payload| + 4;
            && |d| == n + |rest| && d[0] == 0xFF && d[1] == m && U16BE(d, 2) == |payload| + 2
            && d[4..n] == payload && d[n..] == rest
  {
    var size := PutU16BE(|payload| + 2);
    var d := [0xFF, m] + size + payload + rest;
    assert d[2] == size[0] && d[3] == size[1];
  }

  lemma {:induction false} ReadFill(n: nat, fill: nat, d: seq<Byte>)
    requires |d| >= 2 && d[0] == 0xFF
    ensures ReadFrom(Fill(n) + d, fill) == ReadFrom(d, fill + n)
  {
    var s := Fill(n) + d;
    if n == 0 {
      assert s == d;
    } else {
      assert s[1..] == Fill(n - 1) + d;
      ReadFill(n - 1, fill + 1, d);
    }
  }

  lemma ReadWritten(item: Item, post: seq<Byte>)
    requires WfItem(item) && (item.Picture? ==> post == [])
    ensures ReadItem(ItemBytes(item) + post) == Got(item, post, item.Picture?)
  {
    var d := BareBytes(item) + post;
    Seqs.Assoc(Fill(item.fill), BareBytes(item), post);
    match item {
      case Standalone(_, m) =>
        assert d[2..] == post;
      case Segment(_, m, payload) =>
        SegmentLayout(m, payload, post);
      case Picture(_, tail) =>
        assert d == tail;
    }
    ReadFill(item.fill, 0, d);
  }

  lemma {:induction false} WalkIsWf(d: seq<Byte>)
    requires Walk(d, ReadItem).Some?
    ensures WfItems(Walk(d, ReadItem).value.chunks) && Walk(d, ReadItem).value.rest == []
    decreases |d|
  {
    var g := ReadItem(d);
    NeverStops(d, 0);
    ReadIsExact(d, 0);
    if g.last {
      PictureRest(d, 0);
    } else {
      WalkIsWf(g.rest);
      var cs := Walk(g.rest, ReadItem).value.chunks;
      assert ([g.chunk] + cs)[1..] == cs;
    }
  }

  lemma {:induction false} PictureRest(d: seq<Byte>, fill: nat)
    requires ReadFrom(d, fill).Got? && ReadFrom(d, fill).last
    ensures ReadFrom(d, fill).rest == []
    decreases |d|
  {
    if d[1] == 0xFF {
      PictureRest(d[1..], fill + 1);
    }
  }

  lemma {:induction false} WrittenRereads(items: seq<Item>)
    requires WfItems(items)
    ensures Rereads(items, [], ReadItem, ItemBytes)
  {
    if items[0].Picture? {
      assert items[1..] == [];
      assert Serialize(items[1..], ItemBytes) + [] == [];
    } else {
      WrittenRereads(items[1..]);
    }
    ReadWritten(items[0], Serialize(items[1..], ItemBytes) + []);
  }

  lemma KeepSettled(items: seq<Item>)
    ensures Emitted(Emitted(items, Keep), Keep) == Emitted(items, Keep)
  {
    EmittedTwice(items, Keep);
  }

  lemma KeptMembers(items: seq<Item>, e: Item)
    ensures e in Emitted(items, Keep) <==> e.fill == 0 && Stays(e) && exists n: nat :: Refill(e, n) in items
  {
    EmittedMembers(items, Keep);
    if e in Emitted(items, Keep) {
      var c :| c in items && Keep(c) == Some(e);
      assert Refill(e, c.fill) == c;
    }
    if e.fill == 0 && Stays(e) && exists n: nat :: Refill(e, n) in items {
      var n: nat :| Refill(e, n) in items;
      assert Keep(Refill(e, n)) == Some(e);
    }
  }

  lemma {:induction false} KeptIsWf(items: seq<Item>)
    requires WfItems(items)
    ensures WfItems(Emitted(items, Keep))
  {
    var kept := Emitted(items, Keep);
    if items[0].Picture? {
      assert items[1..] == [] && kept == [Refill(items[0], 0)];
    } else {
      KeptIsWf(items[1..]);
      assert Stays(items[0]) ==> kept[0] == Refill(items[0], 0) && kept[1..] == Emitted(items[1..], Keep);
    }
  }

  // ---------- Orientation of a whole file ----------

  type Valuer = (Byte, seq<Byte>) -> nat

  /**
   The orientation walk from position `i`: it steps over a fill byte and its successor together, and returns
   the first positive value that `value` finds in a segment.
   */
  function FirstOnWalk(d: seq<Byte>, value: Valuer): nat
    decreases |d|
  {
    if |d| < 4 || d[0] != 0xFF then 0
    else
      var m := d[1];
      if IsEnd(m) then 0
      else if IsStandalone(m) || m == 0xFF then FirstOnWalk(d[2..], value)
      else
        var n := 2 + U16BE(d, 2);
        if n < 4 || n > |d| then 0
        else
          var v := value(m, d[4..n]);
          if v > 0 then v else FirstOnWalk(d[n..], value)
  }

  function Orientation(data: seq<Byte>): nat {
    if |data| < 2 then 0 else FirstOnWalk(data[2..], SegmentOrientation)
  }

  function ItemValue(item: Item, value: Valuer): nat {
    if item.Segment? then value(item.marker, item.payload) else 0
  }

  /** The first positive value that the segments carry, whatever fill bytes stand between them. */
  function FirstValue(items: seq<Item>, value: Valuer): nat {
    if items == [] then 0
    else if ItemValue(items[0], value) > 0 then ItemValue(items[0], value)
    else FirstValue(items[1..], value)
  }

  /** No item up to and including the first one that carries a value follows an odd run of fill bytes. */
  predicate EvenFill(items: seq<Item>, value: Valuer) {
    items == [] || (items[0].fill % 2 == 0 && (ItemValue(items[0], value) > 0 || EvenFill(items[1..], value)))
  }

  /** The orientation the marker segments of a file declare. */
  function DeclaredOrientation(items: seq<Item>): nat { FirstValue(items, SegmentOrientation) }

  predicate EvenFillUpToOrientation(items: seq<Item>) { EvenFill(items, SegmentOrientation) }

  lemma ConsValue(item: Item, items: seq<Item>, value: Valuer)
    ensures FirstValue([item] + items, value)
         == if ItemValue(item, value) > 0 then ItemValue(item, value) else FirstValue(items, value)
    ensures EvenFill([item] + items, value)
         == (item.fill % 2 == 0 && (ItemValue(item, value) > 0 || EvenFill(items, value)))
  {
    assert ([item] + items)[0] == item && ([item] + items)[1..] == items;
  }

  lemma {:induction false} WalkFill(n: nat, d: seq<Byte>, value: Valuer)
    requires |d| >= 2 && d[0] == 0xFF && d[1] != 0xFF
    ensures FirstOnWalk(Fill(n) + d, value) == if n % 2 == 0 then FirstOnWalk(d, value) else 0
  {
    var s := Fill(n) + d;
    if n == 0 {
      assert s == d;
    } else if n == 1 {
      assert s[0] == 0xFF && s[1] == 0xFF && s[2..] == d[1..];
    } else {
      WalkFill(n - 2, d, value);
      assert s[0] == 0xFF && s[1] == 0xFF && s[2..] == Fill(n - 2) + d;
    }
  }

  lemma WalkItem(item: Item, rest: seq<Byte>, value: Valuer)
    requires WfItem(item) && (if item.Picture? then rest == [] else |rest| >= 2)
    ensures var d := BareBytes(item) + rest;
            && |d| >= 2 && d[0] == 0xFF && d[1] != 0xFF
            && FirstOnWalk(d, value) == if ItemValue(item, value) > 0 then ItemValue(item, value)
                                        else if item.Picture? then 0 else FirstOnWalk(rest, value)
  {
    match item
    case Standalone(_, m) =>
      assert (BareBytes(item) + rest)[2..] == rest;
    case Segment(_, m, payload) =>
      SegmentLayout(m, payload, rest);
    case Picture(_, tail) =>
      assert BareBytes(item) + rest == tail;
  }

  /** What the walk reads from a file with fill bytes. */
  lemma {:induction false} WalkWritten(items: seq<Item>, value: Valuer)
    requires WfItems(items)
    ensures |Serialize(items, ItemBytes)| >= 2
    ensures FirstOnWalk(Serialize(items, ItemBytes), value)
         == (if EvenFill(items, value) || items[0].Picture? then FirstValue(items, value) else 0)
  {
    var item := items[0];
    var rest := Serialize(items[1..], ItemBytes);
    Seqs.Assoc(Fill(item.fill), BareBytes(item), rest);
    if item.Picture? {
      assert items[1..] == [] && rest == [];
    } else {
      WalkWritten(items[1..], value);
      if items[1].Picture? {
        assert items[1..][1..] == [];
      }
    }
    WalkItem(item, rest, value);
    WalkFill(item.fill, BareBytes(item) + rest, value);
  }

  lemma {:induction false} KeptCarryNothing(items: seq<Item>)
    ensures DeclaredOrientation(Emitted(items, Keep)) == 0
    ensures EvenFillUpToOrientation(Emitted(items, Keep))
  {
    if items != [] {
      KeptCarryNothing(items[1..]);
      ConsValue(Refill(items[0], 0), Emitted(items[1..], Keep), SegmentOrientation);
    }
  }

  method ReadJpegOrientation(data: seq<Byte>) returns (value: nat)
    ensures value == Orientation(data)
  {
    var i := 2;
    while i + 4 <= |data|
      invariant 2 <= i
      invariant Orientation(data) == OrientationFrom(data, i)
      decreases |data| - i
    {
      if data[i] != 0xFF {
        return 0;
      }
      var marker := data[i + 1];
      if marker == 0xDA || marker == 0xD9 {
        return 0;
      }
      if (0xD0 <= marker <= 0xD7) || marker == 0x01 || marker == 0xFF {
        OrientationSkips(data, i);
        i := i + 2;
        continue;
      }
      var length := U16BE(data, i + 2);
      if length < 2 || i + 2 + length > |data| {
        OrientationStuck(data, i);
        return 0;
      }
      var next := i + 2 + length;
      OrientationAtSegment(data, i, next);
      var payload := data[i + 4..next];
      if marker == 0xE1 && |payload| > 14 && payload[..6] == EXIF_HEADER {
        var value := ReadTiffOrientation(payload[6..]);
        if value > 0 {
          return value;
        }
      }
      i := next;
    }
    return 0;
  }

  /** What the orientation loop returns from position `i`. */
  function OrientationFrom(data: seq<Byte>, i: nat): nat {
    if i > |data| then 0 else FirstOnWalk(data[i..], SegmentOrientation)
  }

  lemma OrientationSkips(data: seq<Byte>, i: nat)
    requires i + 4 <= |data| && data[i] == 0xFF && (IsStandalone(data[i + 1]) || data[i + 1] == 0xFF)
    ensures OrientationFrom(data, i) == OrientationFrom(data, i + 2)
  {
    Seqs.DropDrop(data, i, 2);
  }

  lemma OrientationStuck(data: seq<Byte>, i: nat)
    requires i + 4 <= |data| && data[i + 1] != 0xFF && !IsStandalone(data[i + 1])
    requires U16BE(data, i + 2) < 2 || i + 2 + U16BE(data, i + 2) > |data|
    ensures OrientationFrom(data, i) == 0
  {
    assert U16BE(data[i..], 2) == U16BE(data, i + 2);
  }

  lemma OrientationAtSegment(data: seq<Byte>, i: nat, next: nat)
    requires i + 4 <= next <= |data| && next == i + 2 + U16BE(data, i + 2)
    requires data[i] == 0xFF && data[i + 1] != 0xFF && !IsEnd(data[i + 1]) && !IsStandalone(data[i + 1])
    ensures OrientationFrom(data, i) == (
              var v := SegmentOrientation(data[i + 1], data[i + 4..next]);
              if v > 0 then v else OrientationFrom(data, next))
  {
    SegmentOnWalk(data, i, next, SegmentOrientation);
  }

  lemma SegmentOnWalk(data: seq<Byte>, i: nat, next: nat, value: Valuer)
    requires i + 4 <= next <= |data| && next == i + 2 + U16BE(data, i + 2)
    requires data[i] == 0xFF && data[i + 1] != 0xFF && !IsEnd(data[i + 1]) && !IsStandalone(data[i + 1])
    ensures FirstOnWalk(data[i..], value) == (
              var v := value(data[i + 1], data[i + 4..next]);
              if v > 0 then v else FirstOnWalk(data[next..], value))
  {
    var d := data[i..];
    assert U16BE(d, 2) == U16BE(data, i + 2);
    Seqs.DropDrop(data, i, next - i);
    assert d[4..next - i] == data[i + 4..next];
  }

  // ---------- Stripping ----------

  /** The orientation block that precedes the kept items, empty unless the value is one of 2..8. */
  function OrientationBlock(orientation: nat): (b: seq<Byte>)
    ensures |b| == 0 || |b| == 36
  {
    if 1 < orientation <= 8 then OrientationSegment(orientation as Byte) else []
  }

  function Strip(data: seq<Byte>): seq<Byte> {
    if |data| < 2 then data
    else Finish(data, SOI + OrientationBlock(Orientation(data)), Walk(data[2..], ReadItem), Keep, ItemBytes)
  }

  method StripJpegMetadata(data: seq<Byte>) returns (out: seq<Byte>)
    ensures out == Strip(data)
  {
    var orientation := ReadJpegOrientation(data);
    out := SOI;
    if orientation > 1 && orientation <= 8 {
      out := out + OrientationSegment(orientation as Byte);
    }
    if |data| < 2 {
      return data;
    }
    assert out == SOI + OrientationBlock(orientation);
    out := CopyMarkers(data, out);
  }

  /** The loop over the markers; `head` is what comes before them. */
  method CopyMarkers(data: seq<Byte>, head: seq<Byte>) returns (out: seq<Byte>)
    requires |data| >= 2
    ensures out == Finish(data, head, Walk(data[2..], ReadItem), Keep, ItemBytes)
  {
    ghost var result := Finish(data, head, Walk(data[2..], ReadItem), Keep, ItemBytes);
    FinishFromStart(data, head, 2);
    out := head;
    ghost var fill := 0;
    var i := 2;
    while i + 1 < |data|
      invariant 2 <= i <= |data|
      invariant FinishFrom(data, out, i, fill) == result
      decreases |data| - i
    {
      if data[i] != 0xFF {
        FinishUnreadable(data, out, i, fill);
        return data;
      }
      var marker := data[i + 1];
      if marker == 0xFF {
        FinishAtFill(data, out, i, fill);
        i, fill := i + 1, fill + 1;
        continue;
      }
      if marker == 0xDA || marker == 0xD9 {
        FinishAtEnd(data, out, i, fill);
        return out + data[i..];
      }
      if (0xD0 <= marker <= 0xD7) || marker == 0x01 {
        FinishAtMarker(data, out, i, fill, i + 2);
        out := out + data[i..i + 2];
        i, fill := i + 2, 0;
        continue;
      }
      if i + 4 > |data| {
        FinishUnreadable(data, out, i, fill);
        return data;
      }
      var length := U16BE(data, i + 2);
      if length < 2 || i + 2 + length > |data| {
        FinishUnreadable(data, out, i, fill);
        return data;
      }
      var next := i + 2 + length;
      var segment := data[i..next];
      FinishAtMarker(data, out, i, fill, next);
      if marker != 0xE1 && marker != 0xED && marker != 0xFE {
        out := out + segment;
      }
      i, fill := next, 0;
    }
    FinishUnreadable(data, out, i, fill);
    return data;
  }

  /** What the loop returns from position `i`, `fill` fill bytes having been passed. */
  function FinishFrom(data: seq<Byte>, out: seq<Byte>, i: nat, fill: nat): seq<Byte>
    requires i <= |data|
  {
    match ReadFrom(data[i..], fill)
    case Unreadable => data
    case Stop => data
    case Got(item, rest, last) =>
      var out' := Appended(out, item, Keep, ItemBytes);
      if last then out' else Finish(data, out', Walk(rest, ReadItem), Keep, ItemBytes)
  }

  lemma FinishFromStart(data: seq<Byte>, out: seq<Byte>, i: nat)
    requires i <= |data|
    ensures FinishFrom(data, out, i, 0) == Finish(data, out, Walk(data[i..], ReadItem), Keep, ItemBytes)
  {
    var d := data[i..];
    NeverStops(d, 0);
    if ReadItem(d).Got? {
      ReadIsExact(d, 0);
      FinishStep(data, out, d, ReadItem, Keep, ItemBytes);
    }
  }

  lemma {:induction false} NeverStops(d: seq<Byte>, fill: nat)
    ensures !ReadFrom(d, fill).Stop?
    decreases |d|
  {
    if |d| >= 2 && d[0] == 0xFF && d[1] == 0xFF {
      NeverStops(d[1..], fill + 1);
    }
  }

  /** Number of bytes of the marker at `i` and its payload; 0 when it is unreadable. */
  function MarkerSize(data: seq<Byte>, i: nat): nat
    requires i + 2 <= |data|
  {
    if IsStandalone(data[i + 1]) then 2
    else if i + 4 > |data| || U16BE(data, i + 2) < 2 || i + 2 + U16BE(data, i + 2) > |data| then 0
    else 2 + U16BE(data, i + 2)
  }

  lemma FinishUnreadable(data: seq<Byte>, out: seq<Byte>, i: nat, fill: nat)
    requires i <= |data|
    requires i + 2 > |data| || data[i] != 0xFF ||
             (data[i + 1] != 0xFF && !IsEnd(data[i + 1]) && MarkerSize(data, i) == 0)
    ensures FinishFrom(data, out, i, fill) == data
  {
    if i + 4 <= |data| {
      assert U16BE(data[i..], 2) == U16BE(data, i + 2);
    }
  }

  lemma FinishAtFill(data: seq<Byte>, out: seq<Byte>, i: nat, fill: nat)
    requires i + 2 <= |data| && data[i] == data[i + 1] == 0xFF
    ensures FinishFrom(data, out, i, fill) == FinishFrom(data, out, i + 1, fill + 1)
  {
    Seqs.DropDrop(data, i, 1);
  }

  lemma FinishAtEnd(data: seq<Byte>, out: seq<Byte>, i: nat, fill: nat)
    requires i + 2 <= |data| && data[i] == 0xFF && IsEnd(data[i + 1])
    ensures FinishFrom(data, out, i, fill) == out + data[i..]
  {
    assert Fill(0) + data[i..] == data[i..];
  }

  /** Writing the item at `i`, when it stays, and reading on behind it gives the same file. */
  lemma FinishAtMarker(data: seq<Byte>, out: seq<Byte>, i: nat, fill: nat, next: nat)
    requires i + 2 <= |data| && data[i] == 0xFF && data[i + 1] != 0xFF && !IsEnd(data[i + 1])
    requires MarkerSize(data, i) > 0 && next == i + MarkerSize(data, i)
    ensures next <= |data|
    ensures FinishFrom(data, out, i, fill)
         == FinishFrom(data, if IsMetadata(data[i + 1]) then out else out + data[i..next], next, 0)
  {
    ReadAtMarker(data, i, fill, next);
    FinishFromStart(data, if IsMetadata(data[i + 1]) then out else out + data[i..next], next);
  }

  lemma ReadAtMarker(data: seq<Byte>, i: nat, fill: nat, next: nat)
    requires i + 2 <= |data| && data[i] == 0xFF && data[i + 1] != 0xFF && !IsEnd(data[i + 1])
    requires MarkerSize(data, i) > 0 && next == i + MarkerSize(data, i)
    ensures var g := ReadFrom(data[i..], fill);
            && next <= |data| && g.Got? && !g.last && !g.chunk.Picture? && g.chunk.marker == data[i + 1]
            && g.rest == data[next..]
            && ItemBytes(Refill(g.chunk, 0)) == data[i..next]
  {
    var d := data[i..];
    var n := MarkerSize(data, i);
    if !IsStandalone(data[i + 1]) {
      assert U16BE(d, 2) == U16BE(data, i + 2);
    }
    Seqs.DropDrop(data, i, n);
    ReadIsExact(d, 0);
    var g := ReadFrom(d, 0);
    assert Fill(0) + d == d;
    Seqs.TakeDrop(ItemBytes(g.chunk), g.rest);
    assert d[..n] == data[i..next];
  }

  // ---------- Theorems ----------

  function BlockItem(orientation: nat): seq<Item> {
    if 1 < orientation <= 8 then [Segment(0, 0xE1, OrientationPayload(orientation as Byte))] else []
  }

  lemma BlockIsItem(orientation: nat, items: seq<Item>)
    requires WfItems(items)
    ensures WfItems(BlockItem(orientation) + items)
    ensures OrientationBlock(orientation) + Serialize(items, ItemBytes)
         == Serialize(BlockItem(orientation) + items, ItemBytes)
    ensures Emitted(BlockItem(orientation) + items, Keep) == Emitted(items, Keep)
    ensures DeclaredOrientation(BlockItem(orientation) + items)
         == if 1 < orientation <= 8 then orientation else DeclaredOrientation(items)
    ensures EvenFillUpToOrientation(items) ==> EvenFillUpToOrientation(BlockItem(orientation) + items)
  {
    if 1 < orientation <= 8 {
      var item := Segment(0, 0xE1, OrientationPayload(orientation as Byte));
      Cons(item, items, ItemBytes, Keep);
      ConsValue(item, items, SegmentOrientation);
      BlockBytes(orientation as Byte);
      assert ([item] + items)[1..] == items;
      assert [] + Emitted(items, Keep) == Emitted(items, Keep);
    } else {
      assert BlockItem(orientation) + items == items;
    }
  }

  lemma BlockBytes(orientation: Byte)
    ensures ItemBytes(Segment(0, 0xE1, OrientationPayload(orientation))) == OrientationSegment(orientation)
    ensures SegmentOrientation(0xE1, OrientationPayload(orientation)) == orientation as int
  {
    var payload := OrientationPayload(orientation);
    assert Fill(0) + OrientationSegment(orientation) == OrientationSegment(orientation);
    assert payload[..6] == EXIF_HEADER && payload[6..] == OrientationTiff(orientation);
    TiffRoundTrip(orientation);
  }

  /** A successful result is one readable header: the block, the kept items and the picture. */
  lemma StripParses(data: seq<Byte>, items: seq<Item>)
    requires |data| >= 2 && Walk(data[2..], ReadItem) == Some(Parsed(items, []))
    ensures var written := BlockItem(Orientation(data)) + Emitted(items, Keep);
            && WfItems(items) && WfItems(Emitted(items, Keep)) && WfItems(written)
            && Strip(data) == SOI + Serialize(written, ItemBytes)
            && Strip(data)[2..] == Serialize(written, ItemBytes)
            && Walk(Strip(data)[2..], ReadItem) == Some(Parsed(written, []))
            && Orientation(Strip(data)) == DeclaredOrientation(written)
  {
    var o := Orientation(data);
    var kept := Emitted(items, Keep);
    var written := BlockItem(o) + kept;
    WalkIsWf(data[2..]);
    KeptIsWf(items);
    BlockIsItem(o, kept);
    Seqs.Assoc(SOI, OrientationBlock(o), Serialize(kept, ItemBytes));
    Seqs.TakeDrop(SOI, Serialize(written, ItemBytes));
    WrittenRereads(written);
    WalkSerialized(written, [], ReadItem, ItemBytes);
    assert Serialize(written, ItemBytes) + [] == Serialize(written, ItemBytes);
    KeptCarryNothing(items);
    WalkWritten(written, SegmentOrientation);
  }

  /** An orientation in 2..8 survives; after a successful strip any other value is gone. */
  lemma OrientationSurvives(data: seq<Byte>)
    requires |data| >= 2
    ensures 2 <= Orientation(data) <= 8 ==> Orientation(Strip(data)) == Orientation(data)
    ensures Walk(data[2..], ReadItem).Some? && !(2 <= Orientation(data) <= 8) ==> Orientation(Strip(data)) == 0
  {
    var walked := Walk(data[2..], ReadItem);
    if walked.Some? {
      WalkIsWf(data[2..]);
      var items := walked.value.chunks;
      StripParses(data, items);
      BlockIsItem(Orientation(data), Emitted(items, Keep));
      KeptCarryNothing(items);
    }
  }

  lemma StripIdempotent(data: seq<Byte>)
    ensures Strip(Strip(data)) == Strip(data)
  {
    if |data| >= 2 && Walk(data[2..], ReadItem).Some? {
      WalkIsWf(data[2..]);
      var items := Walk(data[2..], ReadItem).value.chunks;
      StripParses(data, items);
      OrientationSurvives(data);
      BlockIsItem(Orientation(data), Emitted(items, Keep));
      KeepSettled(items);
      assert OrientationBlock(Orientation(Strip(data))) == OrientationBlock(Orientation(data));
      Seqs.Assoc(SOI, OrientationBlock(Orientation(data)), Serialize(Emitted(items, Keep), ItemBytes));
    }
  }

  /**
   The complete account of a readable JPEG: the input is SOI and items, the last of them the picture from
   its SOS or EOI on; the output is SOI, at most one 36-byte block, and the items other than APP1, APP13 and
   COM in their order, each byte for byte but without the fill bytes in front of it.
   */
  lemma StripKeepsThePicture(data: seq<Byte>, items: seq<Item>)
    requires |data| >= 2 && data[..2] == SOI && Walk(data[2..], ReadItem) == Some(Parsed(items, []))
    ensures data == SOI + Serialize(items, ItemBytes)
    ensures Strip(data) == SOI + OrientationBlock(Orientation(data)) + Serialize(Emitted(items, Keep), ItemBytes)
    ensures Walk(Strip(data)[2..], ReadItem)
         == Some(Parsed(BlockItem(Orientation(data)) + Emitted(items, Keep), []))
    ensures forall e :: e in Emitted(items, Keep) <==> e.fill == 0 && Stays(e) && exists n: nat :: Refill(e, n) in items
  {
    ReadingIsExact();
    WalkIsExact(data[2..], ReadItem, ItemBytes);
    Seqs.Split(data, 2);
    assert Serialize(items, ItemBytes) + [] == Serialize(items, ItemBytes);
    StripParses(data, items);
    forall e
      ensures e in Emitted(items, Keep) <==> e.fill == 0 && Stays(e) && exists n: nat :: Refill(e, n) in items
    {
      KeptMembers(items, e);
    }
  }

  /** The items that stay, by the numbers of their markers: all but 0xE1, 0xED and 0xFE, without fill bytes. */
  function Remaining(items: seq<Item>): seq<Item> {
    if items == [] then []
    else if items[0].Segment? && items[0].marker in {0xE1, 0xED, 0xFE} then Remaining(items[1..])
    else [Refill(items[0], 0)] + Remaining(items[1..])
  }

  lemma {:induction false} KeptAreRemaining(items: seq<Item>)
    requires WfItems(items)
    ensures Emitted(items, Keep) == Remaining(items)
    ensures forall e <- Remaining(items) :: e.Segment? ==> e.marker != 0xE1 && e.marker != 0xED && e.marker != 0xFE
  {
    if items[0].Picture? {
      assert items[1..] == [];
    } else {
      KeptAreRemaining(items[1..]);
    }
  }

  /**
   A stripped file holds no APP1, APP13 or comment behind its orientation block, and every other item of the input in
   its place.
   */
  lemma NoMetadataStays(data: seq<Byte>, items: seq<Item>)
    requires |data| >= 2 && Walk(data[2..], ReadItem) == Some(Parsed(items, []))
    ensures var block := if 2 <= Orientation(data) <= 8 then 1 else 0;
            match Walk(Strip(data)[2..], ReadItem)
            case None => false
            case Some(p) =>
              && p.rest == [] && |p.chunks| >= block && p.chunks[block..] == Remaining(items)
              && forall i :: block <= i < |p.chunks| && p.chunks[i].Segment? ==>
                   var m := p.chunks[i].marker; m != 0xE1 && m != 0xED && m != 0xFE
  {
    WalkIsWf(data[2..]);
    StripParses(data, items);
    KeptAreRemaining(items);
    BehindBlock(BlockItem(Orientation(data)), Remaining(items));
  }

  lemma BehindBlock(block: seq<Item>, kept: seq<Item>)
    requires forall e <- kept :: e.Segment? ==> e.marker != 0xE1 && e.marker != 0xED && e.marker != 0xFE
    ensures (block + kept)[|block|..] == kept
    ensures forall i :: |block| <= i < |block + kept| && (block + kept)[i].Segment? ==>
              var m := (block + kept)[i].marker; m != 0xE1 && m != 0xED && m != 0xFE
  {
    forall i | |block| <= i < |block + kept| && (block + kept)[i].Segment?
      ensures var m := (block + kept)[i].marker; m != 0xE1 && m != 0xED && m != 0xFE
    {
      assert (block + kept)[i] == kept[i - |block|];
    }
  }

  /**
   The orientation the segments declare survives exactly when no odd run of fill bytes stands before a
   marker up to the declaring one: the orientation walk steps over fill bytes in pairs, the stripping
   walk one at a time.
   */
  lemma DeclaredOrientationSurvivesIff(data: seq<Byte>, items: seq<Item>)
    requires |data| >= 2 && Walk(data[2..], ReadItem) == Some(Parsed(items, []))
    requires 2 <= DeclaredOrientation(items) <= 8
    ensures Walk(Strip(data)[2..], ReadItem).Some?
    ensures DeclaredOrientation(Walk(Strip(data)[2..], ReadItem).value.chunks) == DeclaredOrientation(items)
       <==> EvenFillUpToOrientation(items)
  {
    ReadingIsExact();
    WalkIsExact(data[2..], ReadItem, ItemBytes);
    assert Serialize(items, ItemBytes) + [] == Serialize(items, ItemBytes);
    StripParses(data, items);
    WalkWritten(items, SegmentOrientation);
    OrientationSurvives(data);
  }

  /** One fill byte before the EXIF segment is enough to lose the orientation. */
  lemma OddFillLosesOrientation()
    ensures var items := [Segment(1, 0xE1, OrientationPayload(6)), Picture(0, [0xFF, 0xD9])];
            var data := SOI + Serialize(items, ItemBytes);
            && Walk(data[2..], ReadItem) == Some(Parsed(items, []))
            && DeclaredOrientation(items) == 6
            && Walk(Strip(data)[2..], ReadItem).Some?
            && DeclaredOrientation(Walk(Strip(data)[2..], ReadItem).value.chunks) != 6
  {
    var item := Segment(1, 0xE1, OrientationPayload(6));
    var end := Picture(0, [0xFF, 0xD9]);
    var items := [item] + [end];
    var data := SOI + Serialize(items, ItemBytes);
    assert items == [item, end];
    assert data[2..] == Serialize(items, ItemBytes);
    BlockBytes(6);
    ConsValue(item, [end], SegmentOrientation);
    assert WfItems(items) by {
      assert items[1..] == [end] && WfItems([end]);
    }
    WrittenRereads(items);
    WalkSerialized(items, [], ReadItem, ItemBytes);
    assert Serialize(items, ItemBytes) + [] == Serialize(items, ItemBytes);
    DeclaredOrientationSurvivesIff(data, items);
  }

  /** A result still starts with SOI. */
  lemma StripStarts(data: seq<Byte>)
    requires |data| >= 2 && data[0] == 0xFF && data[1] == 0xD8
    ensures |Strip(data)| >= 2 && Strip(data)[0] == 0xFF && Strip(data)[1] == 0xD8
  {
  }
}
