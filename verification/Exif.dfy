/**
 The EXIF orientation of a JPEG: the reader of the TIFF directory, the writer of the minimal orientation
 block, and the proof that the reader undoes the writer.
 */
module Exif {
  import opened Bytes
  import opened Options

  const EXIF_HEADER: seq<Byte> := [0x45, 0x78, 0x69, 0x66, 0x00, 0x00]

  // ---------- TIFF orientation ----------

  datatype Order = LittleEndian | BigEndian

  function U16(order: Order, s: seq<Byte>, i: nat): nat
    requires i + 2 <= |s|
  {
    if order.LittleEndian? then U16LE(s, i) else U16BE(s, i)
  }

  function U32(order: Order, s: seq<Byte>, i: nat): nat
    requires i + 4 <= |s|
  {
    if order.LittleEndian? then U32LE(s, i) else U32BE(s, i)
  }

  function ByteOrder(tiff: seq<Byte>): Option<Order>
    requires |tiff| >= 2
  {
    if tiff[..2] == [0x49, 0x49] then Some(LittleEndian)
    else if tiff[..2] == [0x4D, 0x4D] then Some(BigEndian)
    else None
  }

  /** Entry number `entry` of the directory at `offset` lies inside the block. */
  predicate EntryFits(tiff: seq<Byte>, offset: nat, entry: nat) {
    offset + 2 + entry * 12 + 12 <= |tiff|
  }

  predicate IsOrientation(order: Order, tiff: seq<Byte>, offset: nat, entry: nat)
    requires EntryFits(tiff, offset, entry)
  {
    U16(order, tiff, offset + 2 + entry * 12) == 0x0112
  }

  /** The directory of a block that has one: its byte order, offset and number of entries. */
  function Directory(tiff: seq<Byte>): Option<(Order, nat, nat)> {
    if |tiff| < 8 then None
    else match ByteOrder(tiff)
      case None => None
      case Some(order) =>
        var offset := U32(order, tiff, 4);
        if offset < 8 || offset + 2 > |tiff| then None
        else Some((order, offset, U16(order, tiff, offset)))
  }

  /** Entry `e` is the first orientation entry, and everything before it is readable. */
  ghost predicate FirstOrientationEntry(tiff: seq<Byte>, e: nat) {
    match Directory(tiff)
    case None => false
    case Some((order, offset, count)) =>
      && e < count && EntryFits(tiff, offset, e) && IsOrientation(order, tiff, offset, e)
      && forall k: nat :: k < e ==> EntryFits(tiff, offset, k) && !IsOrientation(order, tiff, offset, k)
  }

  /** The value read from the entries numbered `entry` and up. */
  function EntriesOrientation(order: Order, tiff: seq<Byte>, offset: nat, entry: nat, count: nat): nat
    decreases count - entry
  {
    if entry >= count || !EntryFits(tiff, offset, entry) then 0
    else if IsOrientation(order, tiff, offset, entry) then U16(order, tiff, offset + 2 + entry * 12 + 8)
    else EntriesOrientation(order, tiff, offset, entry + 1, count)
  }

  function TiffOrientation(tiff: seq<Byte>): nat {
    match Directory(tiff)
    case None => 0
    case Some((order, offset, count)) => EntriesOrientation(order, tiff, offset, 0, count)
  }

  lemma {:induction false} EntriesOrientationMeaning(order: Order, tiff: seq<Byte>, offset: nat, entry: nat, count: nat)
    ensures var v := EntriesOrientation(order, tiff, offset, entry, count);
            v != 0 ==>
              exists e: nat ::
                && entry <= e < count && EntryFits(tiff, offset, e) && IsOrientation(order, tiff, offset, e)
                && v == U16(order, tiff, offset + 2 + e * 12 + 8)
                && (forall k: nat :: entry <= k < e ==>
                      EntryFits(tiff, offset, k) && !IsOrientation(order, tiff, offset, k))
    ensures forall e: nat ::
              && entry <= e < count && EntryFits(tiff, offset, e) && IsOrientation(order, tiff, offset, e)
              && (forall k: nat :: entry <= k < e ==>
                    EntryFits(tiff, offset, k) && !IsOrientation(order, tiff, offset, k))
              ==> EntriesOrientation(order, tiff, offset, entry, count) == U16(order, tiff, offset + 2 + e * 12 + 8)
    decreases count - entry
  {
    if entry < count && EntryFits(tiff, offset, entry) && !IsOrientation(order, tiff, offset, entry) {
      EntriesOrientationMeaning(order, tiff, offset, entry + 1, count);
    }
  }

  /** The reader returns the value field of the first orientation entry, and 0 when there is none to reach. */
  lemma TiffOrientationIsFirstEntry(tiff: seq<Byte>)
    ensures TiffOrientation(tiff) != 0 ==> exists e: nat :: FirstOrientationEntry(tiff, e)
    ensures forall e: nat :: FirstOrientationEntry(tiff, e) ==>
              var (order, offset, _) := Directory(tiff).value;
              TiffOrientation(tiff) == U16(order, tiff, offset + 2 + e * 12 + 8)
  {
    match Directory(tiff)
    case None =>
    case Some((order, offset, count)) =>
      EntriesOrientationMeaning(order, tiff, offset, 0, count);
      if TiffOrientation(tiff) != 0 {
        var e: nat :|
          && 0 <= e < count && EntryFits(tiff, offset, e) && IsOrientation(order, tiff, offset, e)
          && (forall k: nat :: 0 <= k < e ==> EntryFits(tiff, offset, k) && !IsOrientation(order, tiff, offset, k));
        assert FirstOrientationEntry(tiff, e);
      }
  }

  /** Scanning loop of the orientation reader. */
  method ReadTiffOrientation(tiff: seq<Byte>) returns (value: nat)
    ensures value == TiffOrientation(tiff)
  {
    if |tiff| < 8 {
      return 0;
    }
    var order;
    if tiff[..2] == [0x49, 0x49] {
      order := LittleEndian;
    } else if tiff[..2] == [0x4D, 0x4D] {
      order := BigEndian;
    } else {
      return 0;
    }
    var offset := U32(order, tiff, 4);
    if offset < 8 || offset + 2 > |tiff| {
      return 0;
    }
    var count := U16(order, tiff, offset);
    var entry := 0;
    while entry < count
      invariant entry <= count
      invariant TiffOrientation(tiff) == EntriesOrientation(order, tiff, offset, entry, count)
    {
      var start := offset + 2 + entry * 12;
      if start + 12 > |tiff| {
        return 0;
      }
      if U16(order, tiff, start) == 0x0112 {
        return U16(order, tiff, start + 8);
      }
      entry := entry + 1;
    }
    return 0;
  }

  // ---------- The orientation block ----------

  function OrientationTiff(orientation: Byte): seq<Byte> {
    [ 0x4D, 0x4D, 0x00, 0x2A, 0x00, 0x00, 0x00, 0x08,
      0x00, 0x01,
      0x01, 0x12, 0x00, 0x03, 0x00, 0x00, 0x00, 0x01, 0x00, orientation, 0x00, 0x00,
      0x00, 0x00, 0x00, 0x00 ]
  }

  function OrientationPayload(orientation: Byte): seq<Byte> {
    EXIF_HEADER + OrientationTiff(orientation)
  }

  function OrientationSegment(orientation: Byte): seq<Byte> {
    [0xFF, 0xE1] + PutU16BE(|OrientationPayload(orientation)| + 2) + OrientationPayload(orientation)
  }

  /** The reader undoes the writer. */
  lemma TiffRoundTrip(orientation: Byte)
    ensures TiffOrientation(OrientationTiff(orientation)) == orientation as int
  {
    var t := OrientationTiff(orientation);
    assert U16BE(t, 8) == 1 && U16BE(t, 10) == 0x0112 && U16BE(t, 18) == orientation as int;
    assert U32BE(t, 4) == 8;
    assert ByteOrder(t) == Some(BigEndian) by {
      assert t[..2] == [0x4D, 0x4D] && t[..2][0] != 0x49;
    }
    assert Directory(t) == Some((BigEndian, 8, 1));
    assert EntryFits(t, 8, 0) && IsOrientation(BigEndian, t, 8, 0);
  }

  /** The value an APP1 segment declares, or 0. */
  function SegmentOrientation(marker: Byte, payload: seq<Byte>): nat {
    if marker == 0xE1 && |payload| > 14 && payload[..6] == EXIF_HEADER then TiffOrientation(payload[6..]) else 0
  }
}
