/** The PNG side of metadata removal: chunks up to IEND (W3C PNG second edition, section 5.3). */
module Png {
  import opened Bytes
  import opened ChunkWalk
  import opened Options
  import Seqs

  datatype Chunk = Chunk(kind: seq<Byte>, payload: seq<Byte>, crc: seq<Byte>)

  predicate IsEnd(kind: seq<Byte>) { kind == [0x49, 0x45, 0x4E, 0x44] }

  /** eXIf, tEXt, zTXt, iTXt and tIME. */
  predicate IsMetadata(kind: seq<Byte>) {
    || kind == [0x65, 0x58, 0x49, 0x66]
    || kind == [0x74, 0x45, 0x58, 0x74]
    || kind == [0x7A, 0x54, 0x58, 0x74]
    || kind == [0x69, 0x54, 0x58, 0x74]
    || kind == [0x74, 0x49, 0x4D, 0x45]
  }

  predicate WfChunk(c: Chunk) {
    |c.kind| == 4 && |c.crc| == 4 && |c.payload| < 0x1_0000_0000
  }

  /** Well-formed chunks of which the last, and only the last, is IEND. */
  predicate WfChunks(chunks: seq<Chunk>) {
    && chunks != [] && WfChunk(chunks[0])
    && (if IsEnd(chunks[0].kind) then |chunks| == 1 else WfChunks(chunks[1..]))
  }

  function ReadChunk(d: seq<Byte>): Read<Chunk> {
    if |d| < 12 || 12 + U32BE(d, 0) > |d| then Unreadable
    else
      var n := U32BE(d, 0);
      Got(Chunk(d[4..8], d[8..8 + n], d[8 + n..12 + n]), d[12 + n..], IsEnd(d[4..8]))
  }

  function ChunkBytes(c: Chunk): seq<Byte> {
    PutU32BE(|c.payload|) + c.kind + c.payload + c.crc
  }

  function Keep(c: Chunk): Option<Chunk> {
    if IsMetadata(c.kind) then None else Some(c)
  }

  // ---------- Reading and writing one chunk undo each other ----------

  lemma ReadIsExact(d: seq<Byte>)
    requires ReadChunk(d).Got?
    ensures WfChunk(ReadChunk(d).chunk)
    ensures d == ChunkBytes(ReadChunk(d).chunk) + ReadChunk(d).rest
  {
    U32BEIsPut(d, 0);
    FiveParts(d, U32BE(d, 0));
  }

  lemma ReadingIsExact()
    ensures Exact(ReadChunk, ChunkBytes)
  {
    forall d | ReadChunk(d).Got? ensures d == ChunkBytes(ReadChunk(d).chunk) + ReadChunk(d).rest {
      ReadIsExact(d);
    }
  }

  lemma FiveParts(d: seq<Byte>, n: nat)
    requires 12 + n <= |d|
    ensures d == d[0..4] + d[4..8] + d[8..8 + n] + d[8 + n..12 + n] + d[12 + n..]
  {
  }

  lemma ReadWritten(c: Chunk, post: seq<Byte>)
    requires WfChunk(c)
    ensures ReadChunk(ChunkBytes(c) + post) == Got(c, post, IsEnd(c.kind))
  {
    var n := |c.payload|;
    var size := PutU32BE(n);
    var d := size + c.kind + c.payload + c.crc + post;
    assert d[0] == size[0] && d[1] == size[1] && d[2] == size[2] && d[3] == size[3];
    assert U32BE(d, 0) == n;
    assert d[4..8] == c.kind;
    assert d[8..8 + n] == c.payload;
    assert d[8 + n..12 + n] == c.crc;
    assert d[12 + n..] == post;
  }

  lemma {:induction false} WalkIsWf(d: seq<Byte>)
    requires Walk(d, ReadChunk).Some?
    ensures WfChunks(Walk(d, ReadChunk).value.chunks)
    decreases |d|
  {
    var g := ReadChunk(d);
    ReadIsExact(d);
    if !g.last {
      WalkIsWf(g.rest);
      var cs := Walk(g.rest, ReadChunk).value.chunks;
      assert ([g.chunk] + cs)[1..] == cs;
    }
  }

  /** Dropping metadata leaves a readable chunk sequence that still ends with IEND. */
  lemma {:induction false} KeptRereads(chunks: seq<Chunk>)
    requires WfChunks(chunks)
    ensures Emitted(chunks, Keep) != [] && Rereads(Emitted(chunks, Keep), [], ReadChunk, ChunkBytes)
  {
    var c := chunks[0];
    var kept := Emitted(chunks, Keep);
    if IsEnd(c.kind) {
      assert Emitted(chunks[1..], Keep) == [];
      assert kept == [c] && kept[1..] == [];
    } else {
      KeptRereads(chunks[1..]);
      assert Keep(c).Some? ==> kept[0] == c && kept[1..] == Emitted(chunks[1..], Keep);
    }
    if Keep(c).Some? {
      ReadWritten(c, Serialize(kept[1..], ChunkBytes) + []);
    }
  }

  // ---------- Stripping ----------

  function Strip(data: seq<Byte>): seq<Byte>
    requires |data| >= 8
  {
    Finish(data, data[..8], Walk(data[8..], ReadChunk), Keep, ChunkBytes)
  }

  method StripPngMetadata(data: seq<Byte>) returns (out: seq<Byte>)
    requires |data| >= 8
    ensures out == Strip(data)
  {
    ghost var result := Strip(data);
    out := data[..8];
    var i := 8;
    while i + 12 <= |data|
      invariant 8 <= i <= |data|
      invariant FinishFrom(data, out, i) == result
      decreases |data| - i
    {
      var length := U32BE(data, i);
      if i + 12 + length > |data| {
        FinishUnreadable(data, out, i);
        return data;
      }
      var next := i + 12 + length;
      var kind := data[i + 4..i + 8];
      var chunk := data[i..next];
      FinishAt(data, out, i, next, kind, chunk);
      ghost var copied := Copied(out, kind, chunk);
      if !IsMetadata(kind) {
        out := out + chunk;
      }
      assert out == copied;
      i := next;
      if IsEnd(kind) {
        return out;
      }
    }
    FinishShort(data, out, i);
    return data;
  }

  /** What is written when a chunk of that kind comes. */
  function Copied(out: seq<Byte>, kind: seq<Byte>, chunk: seq<Byte>): seq<Byte> {
    if IsMetadata(kind) then out else out + chunk
  }

  /** The chunk at position `i`. */
  lemma ReadAt(data: seq<Byte>, i: nat)
    requires i + 12 <= |data| && i + 12 + U32BE(data, i) <= |data|
    ensures var g := ReadChunk(data[i..]);
            var next := i + 12 + U32BE(data, i);
            && g.Got? && g.chunk.kind == data[i + 4..i + 8] && g.last == IsEnd(g.chunk.kind)
            && g.rest == data[next..] && ChunkBytes(g.chunk) == data[i..next]
  {
    var d := data[i..];
    assert U32BE(d, 0) == U32BE(data, i);
    var n := U32BE(data, i);
    ReadIsExact(d);
    Seqs.DropDrop(data, i, 12 + n);
    assert d[4..8] == data[i + 4..i + 8];
    var g := ReadChunk(d);
    Seqs.TakeDrop(ChunkBytes(g.chunk), g.rest);
    assert d[..12 + n] == data[i..i + 12 + n];
  }

  function FinishFrom(data: seq<Byte>, out: seq<Byte>, i: nat): seq<Byte>
    requires i <= |data|
  {
    Finish(data, out, Walk(data[i..], ReadChunk), Keep, ChunkBytes)
  }

  lemma FinishShort(data: seq<Byte>, out: seq<Byte>, i: nat)
    requires i <= |data| < i + 12
    ensures FinishFrom(data, out, i) == data
  {
  }

  lemma FinishUnreadable(data: seq<Byte>, out: seq<Byte>, i: nat)
    requires i + 12 <= |data| < i + 12 + U32BE(data, i)
    ensures FinishFrom(data, out, i) == data
  {
    assert U32BE(data[i..], 0) == U32BE(data, i);
  }

  /** Writing the chunk at `i`, when it is kept, and reading on gives the same file. */
  lemma FinishAt(data: seq<Byte>, out: seq<Byte>, i: nat, next: nat, kind: seq<Byte>, chunk: seq<Byte>)
    requires i + 12 <= |data| && next == i + 12 + U32BE(data, i) <= |data|
    requires kind == data[i + 4..i + 8] && chunk == data[i..next]
    ensures IsEnd(kind) ==> FinishFrom(data, out, i) == Copied(out, kind, chunk)
    ensures !IsEnd(kind) ==> FinishFrom(data, out, i) == FinishFrom(data, Copied(out, kind, chunk), next)
  {
    ReadAt(data, i);
    FinishStep(data, out, data[i..], ReadChunk, Keep, ChunkBytes);
    assert Appended(out, ReadChunk(data[i..]).chunk, Keep, ChunkBytes) == Copied(out, kind, chunk);
  }

  // ---------- Theorems ----------

  /**
   The complete account of a readable PNG: the input is signature, chunks and whatever follows IEND; the
   output is the signature and the chunks that are not metadata, byte for byte and in order, and reads back
   as those chunks with nothing behind IEND.
   */
  lemma StripKeepsThePicture(data: seq<Byte>, p: Parsed<Chunk>)
    requires |data| >= 8 && Walk(data[8..], ReadChunk) == Some(p)
    ensures data == data[..8] + (Serialize(p.chunks, ChunkBytes) + p.rest)
    ensures Strip(data)[..8] == data[..8]
    ensures Walk(Strip(data)[8..], ReadChunk) == Some(Parsed(Emitted(p.chunks, Keep), []))
    ensures forall c :: c in Emitted(p.chunks, Keep) <==> c in p.chunks && !IsMetadata(c.kind)
  {
    assert data[8..] == Serialize(p.chunks, ChunkBytes) + p.rest by {
      ReadingIsExact();
      WalkIsExact(data[8..], ReadChunk, ChunkBytes);
    }
    Seqs.Split(data, 8);
    var kept := Emitted(p.chunks, Keep);
    KeptReadBack(data[8..], p);
    Seqs.TakeDrop(data[..8], Serialize(kept, ChunkBytes));
    EmittedMembers(p.chunks, Keep);
  }

  /** The chunks that stay, by name. */
  function Remaining(chunks: seq<Chunk>): seq<Chunk> {
    if chunks == [] then []
    else if chunks[0].kind in [Ascii("eXIf"), Ascii("tEXt"), Ascii("zTXt"), Ascii("iTXt"), Ascii("tIME")]
    then Remaining(chunks[1..])
    else [chunks[0]] + Remaining(chunks[1..])
  }

  lemma Names()
    ensures Ascii("eXIf") == [0x65, 0x58, 0x49, 0x66] && Ascii("tEXt") == [0x74, 0x45, 0x58, 0x74]
    ensures Ascii("zTXt") == [0x7A, 0x54, 0x58, 0x74] && Ascii("iTXt") == [0x69, 0x54, 0x58, 0x74]
    ensures Ascii("tIME") == [0x74, 0x49, 0x4D, 0x45]
  {
  }

  lemma NamedMetadata(kind: seq<Byte>)
    ensures IsMetadata(kind) <==>
            kind in [Ascii("eXIf"), Ascii("tEXt"), Ascii("zTXt"), Ascii("iTXt"), Ascii("tIME")]
  {
    Names();
  }

  lemma {:induction false} KeptAreRemaining(chunks: seq<Chunk>)
    ensures Emitted(chunks, Keep) == Remaining(chunks)
  {
    if chunks != [] {
      NamedMetadata(chunks[0].kind);
      KeptAreRemaining(chunks[1..]);
    }
  }

  /** A stripped file reads as the chunks of the input without those of the five names. */
  lemma NoMetadataStays(data: seq<Byte>, p: Parsed<Chunk>)
    requires |data| >= 8 && Walk(data[8..], ReadChunk) == Some(p)
    ensures |Strip(data)| >= 8 && Walk(Strip(data)[8..], ReadChunk) == Some(Parsed(Remaining(p.chunks), []))
  {
    StripKeepsThePicture(data, p);
    KeptAreRemaining(p.chunks);
  }

  lemma KeptReadBack(d: seq<Byte>, p: Parsed<Chunk>)
    requires Walk(d, ReadChunk) == Some(p)
    ensures var kept := Emitted(p.chunks, Keep); Walk(Serialize(kept, ChunkBytes), ReadChunk) == Some(Parsed(kept, []))
  {
    var kept := Emitted(p.chunks, Keep);
    WalkIsWf(d);
    KeptRereads(p.chunks);
    WalkSerialized(kept, [], ReadChunk, ChunkBytes);
    assert Serialize(kept, ChunkBytes) + [] == Serialize(kept, ChunkBytes);
  }

  lemma StripIdempotent(data: seq<Byte>)
    requires |data| >= 8
    ensures |Strip(data)| >= 8 && Strip(Strip(data)) == Strip(data)
  {
    var walked := Walk(data[8..], ReadChunk);
    if walked.Some? {
      StripKeepsThePicture(data, walked.value);
      EmittedTwice(walked.value.chunks, Keep);
    }
  }

  /**
   Exactly which files come back as they were: those that cannot be read, and those with neither metadata nor
   anything behind IEND.
   */
  lemma UnchangedIff(data: seq<Byte>)
    requires |data| >= 8
    ensures Strip(data) == data <==>
            match Walk(data[8..], ReadChunk)
            case None => true
            case Some(p) => p.rest == [] && forall c <- p.chunks :: !IsMetadata(c.kind)
  {
    match Walk(data[8..], ReadChunk) {
      case None =>
      case Some(p) =>
        StripKeepsThePicture(data, p);
        EmittedSame(p.chunks, Keep);
        assert Serialize(p.chunks, ChunkBytes) + [] == Serialize(p.chunks, ChunkBytes);
    }
  }

  /** A file that consists of IEND and one byte more: the byte is dropped, though the rest was read. */
  lemma ByteBehindEndIsDropped(signature: seq<Byte>)
    requires |signature| == 8
    ensures var end := ChunkBytes(Chunk([0x49, 0x45, 0x4E, 0x44], [], [0xAE, 0x42, 0x60, 0x82]));
            Strip(signature + (end + [0x00])) == signature + end != signature + (end + [0x00])
  {
    var c := Chunk([0x49, 0x45, 0x4E, 0x44], [], [0xAE, 0x42, 0x60, 0x82]);
    var data := signature + (ChunkBytes(c) + [0x00]);
    Seqs.TakeDrop(signature, ChunkBytes(c) + [0x00]);
    ReadWritten(c, [0x00]);
    assert Emitted([c], Keep) == [c];
    assert Serialize([c], ChunkBytes) == ChunkBytes(c);
    assert |data| == |signature + ChunkBytes(c)| + 1;
  }

  /** A result keeps the signature and holds at least one chunk. */
  lemma StripStarts(data: seq<Byte>)
    requires |data| > 8
    ensures |Strip(data)| > 8 && Strip(data)[..8] == data[..8]
  {
    var walked := Walk(data[8..], ReadChunk);
    if walked.Some? {
      StripKeepsThePicture(data, walked.value);
      WalkIsWf(data[8..]);
      KeptRereads(walked.value.chunks);
    }
  }
}
