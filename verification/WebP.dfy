/** The WebP side of metadata removal: the chunks of a RIFF file (RFC 9649, section 2.7). */
module WebP {
  import opened Bytes
  import opened ChunkWalk
  import opened Options
  import Seqs

  /** A chunk; `pad` is the byte behind an odd payload, which the last chunk of a file may lack. */
  datatype Chunk = Chunk(kind: seq<Byte>, payload: seq<Byte>, pad: seq<Byte>)

  /** "EXIF" and "XMP ". */
  predicate IsMetadata(kind: seq<Byte>) { kind == [0x45, 0x58, 0x49, 0x46] || kind == [0x58, 0x4D, 0x50, 0x20] }

  predicate IsExtended(kind: seq<Byte>) { kind == [0x56, 0x50, 0x38, 0x58] }

  predicate Padded(c: Chunk) { |c.pad| == |c.payload| % 2 }

  predicate WfChunk(c: Chunk) {
    |c.kind| == 4 && |c.payload| < 0x1_0000_0000 && |c.pad| <= |c.payload| % 2
  }

  /** Only the last chunk may lack its pad byte. */
  predicate WfChunks(chunks: seq<Chunk>) {
    chunks == [] || (WfChunk(chunks[0]) && (Padded(chunks[0]) || |chunks| == 1) && WfChunks(chunks[1..]))
  }

  function ReadChunk(d: seq<Byte>): Read<Chunk> {
    if |d| < 8 then Stop
    else
      var size := U32LE(d, 4);
      var padded := size + size % 2;
      if 8 + padded <= |d| then Got(Chunk(d[..4], d[8..8 + size], d[8 + size..8 + padded]), d[8 + padded..], false)
      else if 8 + size == |d| then Got(Chunk(d[..4], d[8..], []), [], false)
      else Unreadable
  }

  function ChunkBytes(c: Chunk): seq<Byte> {
    c.kind + PutU32LE(|c.payload|) + c.payload + c.pad
  }

  /** The flag byte without the EXIF bit 0x08 and the XMP bit 0x04. */
  function ClearFlags(b: Byte): Byte { b / 0x10 * 0x10 + b % 0x04 }

  function Cleaned(payload: seq<Byte>): seq<Byte> {
    if payload == [] then [] else [ClearFlags(payload[0])] + payload[1..]
  }

  function Keep(c: Chunk): Option<Chunk> {
    if IsMetadata(c.kind) then None
    else if IsExtended(c.kind) then Some(c.(payload := Cleaned(c.payload)))
    else Some(c)
  }

  /** Clearing is the bitwise operation: both flags end up zero and every other bit stays. */
  lemma ClearFlagsBits(b: Byte)
    ensures ClearFlags(b) / 0x04 % 4 == 0
    ensures ClearFlags(b) % 0x04 == b % 0x04 && ClearFlags(b) / 0x10 == b / 0x10
    ensures ClearFlags(ClearFlags(b)) == ClearFlags(b)
  {
    var hi, lo := b / 0x10, b % 0x04;
    var c := ClearFlags(b);
    assert c as int == hi as int * 16 + lo as int;
    assert c / 0x10 == hi && c % 0x04 == lo && c / 0x04 == hi * 4;
  }

  // ---------- Reading and writing one chunk undo each other ----------

  lemma ReadIsExact(d: seq<Byte>)
    requires ReadChunk(d).Got?
    ensures var g := ReadChunk(d);
            && WfChunk(g.chunk) && (Padded(g.chunk) || g.rest == []) && |g.rest| < |d| && !g.last
            && d == ChunkBytes(g.chunk) + g.rest
  {
    U32LEIsPut(d, 4);
    var g := ReadChunk(d);
    FiveParts(d, |g.chunk.payload|, 8 + |g.chunk.payload| + |g.chunk.pad|);
  }

  lemma FiveParts(d: seq<Byte>, n: nat, end: nat)
    requires 8 + n <= end <= |d|
    ensures d == d[..4] + d[4..8] + d[8..8 + n] + d[8 + n..end] + d[end..]
  {
  }

  lemma ReadingIsExact()
    ensures Exact(ReadChunk, ChunkBytes)
  {
    forall d | ReadChunk(d).Got? ensures d == ChunkBytes(ReadChunk(d).chunk) + ReadChunk(d).rest {
      ReadIsExact(d);
    }
  }

  lemma ReadWritten(c: Chunk, post: seq<Byte>)
    requires WfChunk(c) && (Padded(c) || post == [])
    ensures ReadChunk(ChunkBytes(c) + post) == Got(c, post, false)
  {
    var n := |c.payload|;
    var size := PutU32LE(n);
    var d := c.kind + size + c.payload + c.pad + post;
    assert d[4] == size[0] && d[5] == size[1] && d[6] == size[2] && d[7] == size[3];
    assert U32LE(d, 4) == n;
    assert d[..4] == c.kind;
    assert d[8..8 + n] == c.payload;
    assert d[8 + n..8 + n + |c.pad|] == c.pad;
    assert d[8 + n + |c.pad|..] == post;
    if !Padded(c) {
      assert d[8..] == c.payload;
    }
  }

  lemma {:induction false} WalkIsWf(d: seq<Byte>)
    requires Walk(d, ReadChunk).Some?
    ensures var p := Walk(d, ReadChunk).value;
            && WfChunks(p.chunks) && |p.rest| < 8 && (d == [] ==> p.chunks == [])
    decreases |d|
  {
    var g := ReadChunk(d);
    if g.Got? {
      ReadIsExact(d);
      WalkIsWf(g.rest);
      var cs := Walk(g.rest, ReadChunk).value.chunks;
      assert ([g.chunk] + cs)[1..] == cs;
    }
  }

  lemma KeepIsWf(c: Chunk)
    requires WfChunk(c) && Keep(c).Some?
    ensures WfChunk(Keep(c).value) && Padded(Keep(c).value) == Padded(c)
  {
  }

  lemma {:induction false} KeptRereads(chunks: seq<Chunk>)
    requires WfChunks(chunks)
    ensures Rereads(Emitted(chunks, Keep), [], ReadChunk, ChunkBytes)
  {
    if chunks != [] {
      KeptRereads(chunks[1..]);
      var kept := Emitted(chunks, Keep);
      if Keep(chunks[0]).Some? {
        assert kept[0] == Keep(chunks[0]).value && kept[1..] == Emitted(chunks[1..], Keep);
        KeepIsWf(chunks[0]);
        if |chunks| == 1 {
          assert chunks[1..] == [] && kept[1..] == [];
        }
        ReadWritten(kept[0], Serialize(kept[1..], ChunkBytes) + []);
      }
    }
  }

  lemma KeepSettled(chunks: seq<Chunk>)
    ensures Emitted(Emitted(chunks, Keep), Keep) == Emitted(chunks, Keep)
  {
    forall c | Keep(c).Some? ensures Keep(Keep(c).value) == Keep(c) {
      if IsExtended(c.kind) && c.payload != [] {
        ClearFlagsBits(c.payload[0]);
        assert Cleaned(Cleaned(c.payload)) == Cleaned(c.payload);
      }
    }
    EmittedTwice(chunks, Keep);
  }

  // ---------- Stripping ----------

  /** The RIFF size field, bytes 4 to 7, set to the number of bytes behind it. */
  function WithSize(out: seq<Byte>): (r: seq<Byte>)
    requires |out| >= 12
    ensures |r| == |out| && U32LE(r, 4) == (|out| - 8) % 0x1_0000_0000
    ensures r[..4] == out[..4] && r[8..] == out[8..]
  {
    var size := PutU32LE(|out| - 8);
    var r := out[4 := size[0]][5 := size[1]][6 := size[2]][7 := size[3]];
    assert U32LE(r, 4) == U32LE(size, 0);
    r
  }

  function Strip(data: seq<Byte>): seq<Byte>
    requires |data| >= 12
  {
    match Walk(data[12..], ReadChunk)
    case None => data
    case Some(p) => WithSize(data[..12] + Serialize(Emitted(p.chunks, Keep), ChunkBytes))
  }

  method StripWebPMetadata(data: seq<Byte>) returns (out: seq<Byte>)
    requires |data| >= 12
    ensures out == Strip(data)
  {
    ghost var result := FinishFrom(data, data[..12], 12);
    out := data[..12];
    var i := 12;
    while i + 8 <= |data|
      invariant 12 <= i <= |data| && |out| >= 12
      invariant FinishFrom(data, out, i) == result
      decreases |data| - i
    {
      var kind := data[i..i + 4];
      var size := U32LE(data, i + 4);
      var padded := size + size % 2;
      if i + 8 + padded > |data| {
        if i + 8 + size == |data| {
          padded := size;
        } else {
          FinishUnreadable(data, out, i);
          return data;
        }
      }
      var next := i + 8 + padded;
      FinishAt(data, out, i, next);
      var chunk := data[i..next];
      if IsMetadata(kind) {
      } else if IsExtended(kind) {
        var cleaned := chunk;
        if |cleaned| > 8 {
          cleaned := cleaned[8 := ClearFlags(cleaned[8])];
        }
        out := out + cleaned;
      } else {
        out := out + chunk;
      }
      i := next;
    }
    FinishAtStop(data, out, i);
    out := WithSize(out);
  }

  /** The chunks still to come written behind `out`; None when they are unreadable. */
  function FinishFrom(data: seq<Byte>, out: seq<Byte>, i: nat): Option<seq<Byte>>
    requires i <= |data|
  {
    match Walk(data[i..], ReadChunk)
    case None => None
    case Some(p) => Some(out + Serialize(Emitted(p.chunks, Keep), ChunkBytes))
  }

  lemma FinishUnreadable(data: seq<Byte>, out: seq<Byte>, i: nat)
    requires i + 8 <= |data|
    requires var size := U32LE(data, i + 4); i + 8 + size + size % 2 > |data| && i + 8 + size != |data|
    ensures FinishFrom(data, out, i) == None
  {
    assert U32LE(data[i..], 4) == U32LE(data, i + 4);
  }

  lemma FinishAtStop(data: seq<Byte>, out: seq<Byte>, i: nat)
    requires i <= |data| < i + 8
    ensures FinishFrom(data, out, i) == Some(out)
  {
    assert out + [] == out;
  }

  /** What the loop has written after the chunk `chunk`. */
  function WithCopied(out: seq<Byte>, chunk: seq<Byte>, kind: seq<Byte>): seq<Byte> {
    if IsMetadata(kind) then out
    else if IsExtended(kind) && |chunk| > 8 then out + chunk[8 := ClearFlags(chunk[8])]
    else out + chunk
  }

  /** Writing the chunk at `i` as it is kept and reading on behind it gives the same file. */
  lemma FinishAt(data: seq<Byte>, out: seq<Byte>, i: nat, next: nat)
    requires i + 8 <= next <= |data|
    requires var size := U32LE(data, i + 4);
             next == i + 8 + size + size % 2 || (next == i + 8 + size == |data|)
    ensures FinishFrom(data, out, i) == FinishFrom(data, WithCopied(out, data[i..next], data[i..i + 4]), next)
  {
    var c := ReadAt(data, i, next);
    CopiedIsKept(out, c);
    if Walk(data[next..], ReadChunk).Some? {
      FinishWith(out, c, Walk(data[next..], ReadChunk));
    }
  }

  /** The chunk that takes the bytes from `i` to `next`. */
  lemma ReadAt(data: seq<Byte>, i: nat, next: nat) returns (c: Chunk)
    requires i + 8 <= next <= |data|
    requires var size := U32LE(data, i + 4);
             next == i + 8 + size + size % 2 || (next == i + 8 + size == |data|)
    ensures ReadChunk(data[i..]) == Got(c, data[next..], false) && |data[next..]| < |data[i..]|
    ensures WfChunk(c) && c.kind == data[i..i + 4] && ChunkBytes(c) == data[i..next]
  {
    var d := data[i..];
    assert U32LE(d, 4) == U32LE(data, i + 4);
    ReadIsExact(d);
    var g := ReadChunk(d);
    c := g.chunk;
    assert |ChunkBytes(c)| == next - i;
    Seqs.TakeDrop(ChunkBytes(c), g.rest);
    assert d[..next - i] == data[i..next];
    Seqs.DropDrop(data, i, next - i);
    assert d[..4] == data[i..i + 4];
  }

  lemma FinishWith(out: seq<Byte>, c: Chunk, p: Option<Parsed<Chunk>>)
    requires p.Some?
    ensures out + Serialize(Emitted([c] + p.value.chunks, Keep), ChunkBytes)
         == Appended(out, c, Keep, ChunkBytes) + Serialize(Emitted(p.value.chunks, Keep), ChunkBytes)
  {
    var tail := Emitted(p.value.chunks, Keep);
    Cons(c, p.value.chunks, ChunkBytes, Keep);
    if Keep(c).Some? {
      Cons(Keep(c).value, tail, ChunkBytes, Keep);
      Seqs.Assoc(out, ChunkBytes(Keep(c).value), Serialize(tail, ChunkBytes));
    } else {
      assert [] + tail == tail;
    }
  }

  lemma CopiedIsKept(out: seq<Byte>, c: Chunk)
    requires WfChunk(c)
    ensures WithCopied(out, ChunkBytes(c), c.kind) == Appended(out, c, Keep, ChunkBytes)
  {
    if IsExtended(c.kind) && c.payload != [] {
      CleanedBytes(c.kind + PutU32LE(|c.payload|), c.payload, c.pad);
    }
  }

  lemma CleanedBytes(head: seq<Byte>, payload: seq<Byte>, pad: seq<Byte>)
    requires |head| == 8 && payload != []
    ensures var b := head + payload + pad;
            b[8 := ClearFlags(b[8])] == head + Cleaned(payload) + pad
  {
    var b := head + payload + pad;
    assert b[8] == payload[0];
  }

  // ---------- Theorems ----------

  /** The input is a 12-byte header, chunks and fewer than eight bytes that no chunk header fits in. */
  lemma InputIsChunks(data: seq<Byte>, p: Parsed<Chunk>)
    requires |data| >= 12 && Walk(data[12..], ReadChunk) == Some(p)
    ensures data == data[..12] + (Serialize(p.chunks, ChunkBytes) + p.rest)
    ensures WfChunks(p.chunks) && |p.rest| < 8
  {
    ReadingIsExact();
    WalkIsExact(data[12..], ReadChunk, ChunkBytes);
    Seqs.Split(data, 12);
    WalkIsWf(data[12..]);
  }

  lemma KeptReadBack(chunks: seq<Chunk>)
    requires WfChunks(chunks)
    ensures var kept := Emitted(chunks, Keep);
            Walk(Serialize(kept, ChunkBytes), ReadChunk) == Some(Parsed(kept, []))
  {
    var kept := Emitted(chunks, Keep);
    KeptRereads(chunks);
    WalkSerialized(kept, [], ReadChunk, ChunkBytes);
    assert Serialize(kept, ChunkBytes) + [] == Serialize(kept, ChunkBytes);
  }

  /**
   The complete account of a readable WebP: the output is the header with its size field set, and the chunks
   that are not metadata in their order, VP8X without its EXIF and XMP flags and every other byte for byte.
   */
  lemma StripKeepsThePicture(data: seq<Byte>, p: Parsed<Chunk>)
    requires |data| >= 12 && Walk(data[12..], ReadChunk) == Some(p)
    ensures |Strip(data)| >= 12
    ensures Strip(data)[..4] == data[..4] && Strip(data)[8..12] == data[8..12]
    ensures U32LE(Strip(data), 4) == (|Strip(data)| - 8) % 0x1_0000_0000
    ensures Strip(data)[12..] == Serialize(Emitted(p.chunks, Keep), ChunkBytes)
    ensures Walk(Strip(data)[12..], ReadChunk) == Some(Parsed(Emitted(p.chunks, Keep), []))
  {
    var body := Serialize(Emitted(p.chunks, Keep), ChunkBytes);
    assert Walk(body, ReadChunk) == Some(Parsed(Emitted(p.chunks, Keep), [])) by {
      WalkIsWf(data[12..]);
      KeptReadBack(p.chunks);
    }
    HeaderAndBody(data[..12], body);
    HeaderMarks(data);
  }

  lemma HeaderMarks(data: seq<Byte>)
    requires |data| >= 12
    ensures data[..12][..4] == data[..4] && data[..12][8..12] == data[8..12]
  {
  }

  /** The chunks that stay, by name; in VP8X the bits 0x04 and 0x08 of the first byte are cleared. */
  function Remaining(chunks: seq<Chunk>): seq<Chunk> {
    if chunks == [] then []
    else
      var c, rest := chunks[0], Remaining(chunks[1..]);
      if c.kind == Ascii("EXIF") || c.kind == Ascii("XMP ") then rest
      else if c.kind == Ascii("VP8X") && c.payload != [] then
        [c.(payload := c.payload[0 := ClearFlags(c.payload[0])])] + rest
      else [c] + rest
  }

  lemma Names()
    ensures Ascii("EXIF") == [0x45, 0x58, 0x49, 0x46] && Ascii("XMP ") == [0x58, 0x4D, 0x50, 0x20]
    ensures Ascii("VP8X") == [0x56, 0x50, 0x38, 0x58]
  {
  }

  lemma {:induction false} KeptAreRemaining(chunks: seq<Chunk>)
    ensures Emitted(chunks, Keep) == Remaining(chunks)
  {
    if chunks != [] {
      Names();
      KeptAreRemaining(chunks[1..]);
      var payload := chunks[0].payload;
      assert payload != [] ==> [ClearFlags(payload[0])] + payload[1..] == payload[0 := ClearFlags(payload[0])];
    }
  }

  /** A stripped file reads as the chunks of the input without EXIF and XMP. */
  lemma NoMetadataStays(data: seq<Byte>, p: Parsed<Chunk>)
    requires |data| >= 12 && Walk(data[12..], ReadChunk) == Some(p)
    ensures |Strip(data)| >= 12 && Walk(Strip(data)[12..], ReadChunk) == Some(Parsed(Remaining(p.chunks), []))
  {
    StripKeepsThePicture(data, p);
    KeptAreRemaining(p.chunks);
  }

  lemma HeaderAndBody(header: seq<Byte>, body: seq<Byte>)
    requires |header| == 12
    ensures var r := WithSize(header + body);
            r[..4] == header[..4] && r[8..12] == header[8..12] && r[12..] == body
  {
    var r := WithSize(header + body);
    assert r[8..] == (header + body)[8..];
    assert r[12..] == r[8..][4..] && r[8..12] == r[8..][..4];
    assert (header + body)[8..][4..] == body;
    assert (header + body)[..4] == header[..4];
  }

  /** Stripping never makes a file longer. */
  lemma StripShrinks(data: seq<Byte>)
    requires |data| >= 12
    ensures |Strip(data)| <= |data|
  {
    var walked := Walk(data[12..], ReadChunk);
    if walked.Some? {
      InputIsChunks(data, walked.value);
      SerializedShrinks(walked.value.chunks, Keep, ChunkBytes);
    }
  }

  /**
   The size field is the length minus 8 exactly when the chunks that are kept take less than 4 GiB; a file below
   that size is always right.
   */
  lemma SizeFieldIff(data: seq<Byte>, p: Parsed<Chunk>)
    requires |data| >= 12 && Walk(data[12..], ReadChunk) == Some(p)
    ensures |Strip(data)| >= 12
    ensures U32LE(Strip(data), 4) == |Strip(data)| - 8
       <==> 4 + |Serialize(Emitted(p.chunks, Keep), ChunkBytes)| < 0x1_0000_0000
    ensures |data| - 8 < 0x1_0000_0000 ==> U32LE(Strip(data), 4) == |Strip(data)| - 8
  {
    StripKeepsThePicture(data, p);
    StripShrinks(data);
    var out := Strip(data);
    Seqs.Split(out, 12);
    FitsIff(|out| - 8, U32LE(out, 4));
  }

  lemma FitsIff(n: nat, field: nat)
    requires field == n % 0x1_0000_0000
    ensures field == n <==> n < 0x1_0000_0000
  {
  }

  /** A file of one picture chunk, with less than a chunk header behind it. */
  lemma OneChunk(header: seq<Byte>, c: Chunk, tail: seq<Byte>)
    requires |header| == 12 && WfChunk(c) && Padded(c) && |tail| < 8 && Keep(c) == Some(c)
    ensures var data := header + (ChunkBytes(c) + tail);
            && Walk(data[12..], ReadChunk) == Some(Parsed([c], tail))
            && Strip(data) == WithSize(header + ChunkBytes(c))
  {
    Seqs.TakeDrop(header, ChunkBytes(c) + tail);
    ReadWritten(c, tail);
    assert ReadChunk(tail) == Stop && [c] + [] == [c];
    OneEmitted(c);
  }

  lemma OneEmitted(c: Chunk)
    requires Keep(c) == Some(c)
    ensures Serialize(Emitted([c], Keep), ChunkBytes) == ChunkBytes(c)
  {
    Cons(c, [], ChunkBytes, Keep);
    assert [c] + [] == [c] && ChunkBytes(c) + [] == ChunkBytes(c);
  }

  const PICTURE: seq<Byte> := [0x56, 0x50, 0x38, 0x20]

  /** A picture in one chunk whose size field is too small for the file around it. */
  lemma LargePictureHasWrongSize(header: seq<Byte>)
    requires |header| == 12
    ensures var c := Chunk(PICTURE, seq(0xFFFF_FFFC, _ => 0x00), []);
            var data := header + (ChunkBytes(c) + []);
            && Walk(data[12..], ReadChunk) == Some(Parsed([c], []))
            && |Strip(data)| >= 12 && U32LE(Strip(data), 4) != |Strip(data)| - 8
  {
    var c := Chunk(PICTURE, seq(0xFFFF_FFFC, _ => 0x00), []);
    assert !IsMetadata(c.kind) && !IsExtended(c.kind);
    OneChunk(header, c, []);
    OneEmitted(c);
    SizeFieldIff(header + (ChunkBytes(c) + []), Parsed([c], []));
  }

  /** A picture with one byte behind its chunk: the byte is dropped, though the chunk was read. */
  lemma ByteBehindChunkIsDropped(header: seq<Byte>)
    requires |header| == 12
    ensures var c := ChunkBytes(Chunk(PICTURE, [], []));
            Strip(header + (c + [0x00])) == WithSize(header + c) && |WithSize(header + c)| < |header + (c + [0x00])|
  {
    var c := Chunk(PICTURE, [], []);
    assert !IsMetadata(c.kind) && !IsExtended(c.kind);
    OneChunk(header, c, [0x00]);
  }

  /** A chunk that is neither metadata nor announces any. */
  predicate SaysNothing(c: Chunk) {
    !IsMetadata(c.kind) && (IsExtended(c.kind) && c.payload != [] ==> c.payload[0] / 0x04 % 4 == 0)
  }

  /**
   Exactly which files come back as they were: those that cannot be read, and those without metadata, flags for it
   or bytes behind the last chunk, whose size field is right.
   */
  lemma UnchangedIff(data: seq<Byte>)
    requires |data| >= 12
    ensures Strip(data) == data <==>
            match Walk(data[12..], ReadChunk)
            case None => true
            case Some(p) =>
              p.rest == [] && U32LE(data, 4) == (|data| - 8) % 0x1_0000_0000 && forall c <- p.chunks :: SaysNothing(c)
  {
    var walked := Walk(data[12..], ReadChunk);
    if walked.Some? {
      var p := walked.value;
      StripKeepsThePicture(data, p);
      AllSayNothing(p.chunks);
      if p.rest == [] && U32LE(data, 4) == (|data| - 8) % 0x1_0000_0000 && Emitted(p.chunks, Keep) == p.chunks {
        InputIsChunks(data, p);
        assert Serialize(p.chunks, ChunkBytes) + [] == Serialize(p.chunks, ChunkBytes);
        SizeIsSet(data);
      }
    }
  }

  lemma AllSayNothing(chunks: seq<Chunk>)
    ensures Emitted(chunks, Keep) == chunks <==> forall c <- chunks :: SaysNothing(c)
  {
    EmittedSame(chunks, Keep);
    forall c <- chunks ensures Keep(c) == Some(c) <==> SaysNothing(c) {
      KeptAsItIs(c);
    }
  }

  lemma KeptAsItIs(c: Chunk)
    ensures Keep(c) == Some(c) <==> SaysNothing(c)
  {
    if c.payload != [] {
      FlagsClearIff(c.payload[0]);
      assert Cleaned(c.payload)[0] == ClearFlags(c.payload[0]);
      assert ClearFlags(c.payload[0]) == c.payload[0] ==> Cleaned(c.payload) == c.payload;
    }
  }

  lemma FlagsClearIff(b: Byte)
    ensures ClearFlags(b) == b <==> b / 0x04 % 4 == 0
  {
    var n := b as int;
    assert n == n / 16 * 16 + n / 4 % 4 * 4 + n % 4;
  }

  lemma StripIdempotent(data: seq<Byte>)
    requires |data| >= 12
    ensures |Strip(data)| >= 12 && Strip(Strip(data)) == Strip(data)
  {
    var walked := Walk(data[12..], ReadChunk);
    if walked.Some? {
      var out := Strip(data);
      StripKeepsThePicture(data, walked.value);
      KeepSettled(walked.value.chunks);
      var body := Serialize(Emitted(walked.value.chunks, Keep), ChunkBytes);
      Seqs.Split(out, 12);
      assert Strip(out) == WithSize(out);
      SizeIsSet(out);
    }
  }

  lemma SizeIsSet(out: seq<Byte>)
    requires |out| >= 12 && U32LE(out, 4) == (|out| - 8) % 0x1_0000_0000
    ensures WithSize(out) == out
  {
    U32LEIsPut(out, 4);
    var r := WithSize(out);
    U32LEIsPut(r, 4);
    PutDependsOnLowBits(U32LE(out, 4), U32LE(r, 4));
    assert r[4..8] == out[4..8];
    assert r == r[..4] + r[4..8] + r[8..];
    assert out == out[..4] + out[4..8] + out[8..];
  }

  lemma PutDependsOnLowBits(m: nat, n: nat)
    requires m % 0x1_0000_0000 == n % 0x1_0000_0000
    ensures PutU32LE(m) == PutU32LE(n)
  {
  }

  /** A result keeps the two format marks of the header. */
  lemma StripStarts(data: seq<Byte>)
    requires |data| >= 12
    ensures |Strip(data)| >= 12 && Strip(data)[..4] == data[..4] && Strip(data)[8..12] == data[8..12]
  {
    var walked := Walk(data[12..], ReadChunk);
    if walked.Some? {
      StripKeepsThePicture(data, walked.value);
    }
  }
}
