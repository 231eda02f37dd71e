/**
 Files that are a run of chunks.  A format is given by `read`, which takes the first chunk off a byte string,
 and `bytes`, which writes a chunk; `emit` says what becomes of a chunk when the file is copied.
 */
module ChunkWalk {
  import opened Bytes
  import opened Options
  import Seqs

  /** What stands at the front of a byte string; after a `last` chunk reading ends. */
  datatype Read<C> =
    | Unreadable
    | Stop
    | Got(chunk: C, rest: seq<Byte>, last: bool)

  type Reader<C> = seq<Byte> -> Read<C>

  datatype Parsed<C> = Parsed(chunks: seq<C>, rest: seq<Byte>)

  function Walk<C>(d: seq<Byte>, read: Reader<C>): Option<Parsed<C>>
    decreases |d|
  {
    match read(d)
    case Unreadable => None
    case Stop => Some(Parsed([], d))
    case Got(c, rest, last) =>
      if |rest| >= |d| then None
      else if last then Some(Parsed([c], rest))
      else match Walk(rest, read)
        case None => None
        case Some(q) => Some(Parsed([c] + q.chunks, q.rest))
  }

  function Serialize<C>(chunks: seq<C>, bytes: C -> seq<Byte>): seq<Byte> {
    if chunks == [] then [] else bytes(chunks[0]) + Serialize(chunks[1..], bytes)
  }

  function Emitted<C>(chunks: seq<C>, emit: C -> Option<C>): seq<C> {
    if chunks == [] then []
    else match emit(chunks[0])
      case None => Emitted(chunks[1..], emit)
      case Some(c) => [c] + Emitted(chunks[1..], emit)
  }

  lemma Cons<C>(c: C, chunks: seq<C>, bytes: C -> seq<Byte>, emit: C -> Option<C>)
    ensures Serialize([c] + chunks, bytes) == bytes(c) + Serialize(chunks, bytes)
    ensures Emitted([c] + chunks, emit)
         == (if emit(c).Some? then [emit(c).value] else []) + Emitted(chunks, emit)
  {
    assert ([c] + chunks)[0] == c && ([c] + chunks)[1..] == chunks;
  }

  /** `read` takes exactly the bytes that `bytes` writes. */
  ghost predicate Exact<C(!new)>(read: Reader<C>, bytes: C -> seq<Byte>) {
    forall d :: read(d).Got? ==> d == bytes(read(d).chunk) + read(d).rest
  }

  /** Nothing is lost in reading: the chunks and the rest spell the input. */
  lemma {:induction false} WalkIsExact<C(!new)>(d: seq<Byte>, read: Reader<C>, bytes: C -> seq<Byte>)
    requires Exact(read, bytes) && Walk(d, read).Some?
    ensures var p := Walk(d, read).value; d == Serialize(p.chunks, bytes) + p.rest
    decreases |d|
  {
    match read(d)
    case Stop =>
    case Got(c, rest, last) =>
      if last {
        Cons(c, [], bytes, c => None);
        assert [c] + [] == [c];
      } else {
        WalkIsExact(rest, read, bytes);
        var q := Walk(rest, read).value;
        Cons(c, q.chunks, bytes, c => None);
        Seqs.Assoc(bytes(c), Serialize(q.chunks, bytes), q.rest);
      }
  }

  /** Every chunk, written in front of what follows it, is read back. */
  ghost predicate Rereads<C>(chunks: seq<C>, rest: seq<Byte>, read: Reader<C>, bytes: C -> seq<Byte>) {
    if chunks == [] then read(rest).Stop?
    else
      var post := Serialize(chunks[1..], bytes) + rest;
      var got := read(bytes(chunks[0]) + post);
      && |bytes(chunks[0])| > 0 && got.Got? && got.chunk == chunks[0] && got.rest == post
      && (if got.last then |chunks| == 1 else Rereads(chunks[1..], rest, read, bytes))
  }

  lemma {:induction false} WalkSerialized<C>(chunks: seq<C>, rest: seq<Byte>, read: Reader<C>, bytes: C -> seq<Byte>)
    requires Rereads(chunks, rest, read, bytes)
    ensures Walk(Serialize(chunks, bytes) + rest, read) == Some(Parsed(chunks, rest))
  {
    if chunks == [] {
      assert Serialize(chunks, bytes) + rest == rest;
    } else {
      var post := Serialize(chunks[1..], bytes) + rest;
      Seqs.Assoc(bytes(chunks[0]), Serialize(chunks[1..], bytes), rest);
      assert chunks == [chunks[0]] + chunks[1..];
      if read(bytes(chunks[0]) + post).last {
        assert chunks == [chunks[0]];
        assert Serialize(chunks[1..], bytes) + rest == rest;
      } else {
        WalkSerialized(chunks[1..], rest, read, bytes);
      }
    }
  }

  /** The file that results when `out` is written and the chunks still to come are `p`. */
  function Finish<C>(data: seq<Byte>, out: seq<Byte>, p: Option<Parsed<C>>, emit: C -> Option<C>,
                     bytes: C -> seq<Byte>): seq<Byte> {
    match p
    case None => data
    case Some(q) => out + Serialize(Emitted(q.chunks, emit), bytes)
  }

  function Appended<C>(out: seq<Byte>, c: C, emit: C -> Option<C>, bytes: C -> seq<Byte>): seq<Byte> {
    match emit(c)
    case None => out
    case Some(e) => out + bytes(e)
  }

  /** Writing the first chunk and going on with the rest gives the same file. */
  lemma FinishStep<C>(data: seq<Byte>, out: seq<Byte>, d: seq<Byte>, read: Reader<C>, emit: C -> Option<C>,
                      bytes: C -> seq<Byte>)
    requires read(d).Got? && |read(d).rest| < |d|
    ensures Finish(data, out, Walk(d, read), emit, bytes)
         == if read(d).last then Appended(out, read(d).chunk, emit, bytes)
            else Finish(data, Appended(out, read(d).chunk, emit, bytes), Walk(read(d).rest, read), emit, bytes)
  {
    var g := read(d);
    var p := if g.last then Some(Parsed([], g.rest)) else Walk(g.rest, read);
    if p.Some? {
      var tail := Emitted(p.value.chunks, emit);
      Cons(g.chunk, p.value.chunks, bytes, emit);
      assert g.last ==> [g.chunk] + [] == [g.chunk];
      if emit(g.chunk).Some? {
        Cons(emit(g.chunk).value, tail, bytes, emit);
        Seqs.Assoc(out, bytes(emit(g.chunk).value), Serialize(tail, bytes));
      } else {
        assert [] + tail == tail;
      }
      assert g.last ==> Appended(out, g.chunk, emit, bytes) + [] == Appended(out, g.chunk, emit, bytes);
    }
  }

  /** What is emitted is emitted unchanged. */
  ghost predicate Settled<C(!new)>(emit: C -> Option<C>) {
    forall c :: emit(c).Some? ==> emit(emit(c).value) == emit(c)
  }

  lemma {:induction false} EmittedTwice<C(!new)>(chunks: seq<C>, emit: C -> Option<C>)
    requires Settled(emit)
    ensures Emitted(Emitted(chunks, emit), emit) == Emitted(chunks, emit)
  {
    if chunks != [] {
      EmittedTwice(chunks[1..], emit);
      if emit(chunks[0]).Some? {
        var e := emit(chunks[0]).value;
        Cons(e, Emitted(chunks[1..], emit), c => [], emit);
      }
    }
  }

  lemma {:induction false} EmittedIsNoLonger<C>(chunks: seq<C>, emit: C -> Option<C>)
    ensures |Emitted(chunks, emit)| <= |chunks|
  {
    if chunks != [] {
      EmittedIsNoLonger(chunks[1..], emit);
    }
  }

  /** Everything is emitted as it is exactly when each chunk is. */
  lemma {:induction false} EmittedSame<C>(chunks: seq<C>, emit: C -> Option<C>)
    ensures Emitted(chunks, emit) == chunks <==> forall c <- chunks :: emit(c) == Some(c)
  {
    if chunks != [] {
      var c, rest := chunks[0], chunks[1..];
      EmittedIsNoLonger(rest, emit);
      EmittedSame(rest, emit);
      assert chunks == [c] + rest;
      if Emitted(chunks, emit) == chunks {
        assert Emitted(rest, emit) == Emitted(chunks, emit)[1..];
      }
    }
  }

  /** Writing only what is emitted, none of it longer than before, gives no longer a file. */
  lemma {:induction false} SerializedShrinks<C(!new)>(chunks: seq<C>, emit: C -> Option<C>, bytes: C -> seq<Byte>)
    requires forall c :: emit(c).Some? ==> |bytes(emit(c).value)| <= |bytes(c)|
    ensures |Serialize(Emitted(chunks, emit), bytes)| <= |Serialize(chunks, bytes)|
  {
    if chunks != [] {
      SerializedShrinks(chunks[1..], emit, bytes);
      if emit(chunks[0]).Some? {
        Cons(emit(chunks[0]).value, Emitted(chunks[1..], emit), bytes, emit);
      }
    }
  }

  lemma {:induction false} EmittedMembers<C>(chunks: seq<C>, emit: C -> Option<C>)
    ensures forall e :: e in Emitted(chunks, emit) <==> exists c :: c in chunks && emit(c) == Some(e)
  {
    if chunks != [] {
      EmittedMembers(chunks[1..], emit);
      assert forall c :: c in chunks <==> c == chunks[0] || c in chunks[1..];
    }
  }
}
