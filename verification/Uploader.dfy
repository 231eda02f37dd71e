/** Uploading an encoded video: its playlists are written anew with the identifiers of the files they name. */
module Uploader {
  import opened LinkedAgreement
  import opened LinkedPlaylists
  import opened Options
  import opened PlaylistRef
  import Seqs
  import opened Text

  /** The identifier of a file beside the playlist, if it was uploaded. */
  type Lookup = string -> Option<string>

  const MAP_TAG := "#EXT-X-MAP:"
  const INIT := "init.mp4"
  const MP4 := ".mp4"
  const M4S := ".m4s"

  /** The first occurrence replaced. */
  function ReplaceFirst(s: string, was: string, now: string): string {
    match Find(s, was)
    case None => s
    case Some(i) => s[..i] + now + s[i + |was|..]
  }

  predicate IsSegmentName(name: string) { HasPrefix(name, "seg_") && HasSuffix(name, M4S) }

  function UploadedLine(line: string, lookup: Lookup): string {
    var trimmed := Trim(line);
    if HasPrefix(trimmed, MAP_TAG) && lookup(INIT).Some? then
      ReplaceFirst(line, MARKER + (INIT + ['"']), MARKER + (lookup(INIT).value + MP4 + ['"']))
    else if IsSegmentName(trimmed) && lookup(trimmed).Some? then lookup(trimmed).value + M4S
    else line
  }

  function UploadedLines(lines: seq<string>, lookup: Lookup): (r: seq<string>)
    ensures |r| == |lines| && forall i :: 0 <= i < |lines| ==> r[i] == UploadedLine(lines[i], lookup)
  {
    seq(|lines|, i requires 0 <= i < |lines| => UploadedLine(lines[i], lookup))
  }

  method RewriteVariantPlaylist(content: string, lookup: Lookup) returns (r: string)
    ensures r == Lines(UploadedLines(Split(content, '\n'), lookup))
  {
    var lines := Split(content, '\n');
    var result := "";
    ghost var done := UploadedLines(lines, lookup);
    for i := 0 to |lines|
      invariant result == Lines(done[..i])
    {
      var line := lines[i];
      var trimmed := Trim(line);
      OneLineMore(done, i);
      assert done[i] == UploadedLine(line, lookup);
      if HasPrefix(trimmed, MAP_TAG) {
        var cid := lookup(INIT);
        if cid.Some? {
          result := result + ReplaceFirst(line, MARKER + (INIT + ['"']), MARKER + (cid.value + MP4 + ['"'])) + "\n";
          continue;
        }
      }
      if HasPrefix(trimmed, "seg_") && HasSuffix(trimmed, M4S) {
        var cid := lookup(trimmed);
        if cid.Some? {
          result := result + (cid.value + M4S) + "\n";
          continue;
        }
      }
      result := result + line + "\n";
    }
    assert done[..|lines|] == done;
    return result;
  }

  /** A word in a line gives way to another one, and the rest stays. */
  ghost predicate IsReplaced(line: string, out: string, was: string, now: string) {
    exists before: string, after: string :: line == before + was + after && out == before + now + after
  }

  /**
   What becomes of a line: a map tag names the stored initial segment in place of `init.mp4`, a known segment the
   stored one, and every other line stays as it is.
   */
  lemma UploadedLineMeaning(line: string, lookup: Lookup)
    ensures var out, name, init := UploadedLine(line, lookup), Trim(line), "URI=\"init.mp4\"";
            if "#EXT-X-MAP:" <= name && lookup("init.mp4").Some? && Contains(line, init) then
              IsReplaced(line, out, init, "URI=\"" + lookup("init.mp4").value + ".mp4\"")
            else if !("#EXT-X-MAP:" <= name) && "seg_" <= name && HasSuffix(name, ".m4s") && lookup(name).Some? then
              out == lookup(name).value + ".m4s"
            else out == line
  {
    InitWords();
    if HasPrefix(Trim(line), MAP_TAG) {
      TagIsNoSegment(Trim(line));
      if lookup(INIT).Some? && Contains(line, MARKER + (INIT + ['"'])) {
        ReplacedFirst(line, MARKER + (INIT + ['"']), MARKER + (lookup(INIT).value + MP4 + ['"']));
        MarkerWords(lookup(INIT).value);
      }
    }
  }

  lemma TagIsNoSegment(name: string)
    requires HasPrefix(name, MAP_TAG)
    ensures !HasPrefix(name, "seg_")
  {
    assert name[0] == MAP_TAG[0] == '#';
  }

  lemma InitWords()
    ensures MARKER + (INIT + ['"']) == "URI=\"init.mp4\""
  {
  }

  lemma MarkerWords(cid: string)
    ensures MARKER + (cid + MP4 + ['"']) == "URI=\"" + cid + ".mp4\""
  {
  }

  lemma ReplacedFirst(line: string, was: string, now: string)
    requires Contains(line, was)
    ensures IsReplaced(line, ReplaceFirst(line, was, now), was, now)
  {
    var i := Find(line, was).value;
    var before, after := line[..i], line[i + |was|..];
    AtPlace(line, i, was);
    assert line == before + was + after && ReplaceFirst(line, was, now) == before + now + after;
  }

  lemma OneLineMore(done: seq<string>, i: nat)
    requires i < |done|
    ensures Lines(done[..i + 1]) == Lines(done[..i]) + done[i] + "\n"
  {
    LinesSnoc(done[..i], done[i]);
    assert done[..i + 1] == done[..i] + [done[i]];
  }

  // ---------- From the encoder's playlist to requests ----------

  /** What a line of the encoder's playlist refers to, once uploaded. */
  function Referred(line: string, lookup: Lookup): Option<Ref> {
    if HasPrefix(Trim(line), MAP_TAG) then
      if PlaylistUri(line) == Some(INIT) && lookup(INIT).Some? then Some(Ref(lookup(INIT).value, MP4)) else None
    else if IsSegmentName(Trim(line)) && lookup(Trim(line)).Some? then Some(Ref(lookup(Trim(line)).value, M4S))
    else None
  }

  /** Every reference in the lines is a known segment or map with a valid identifier. */
  ghost predicate AllKnown(lines: seq<string>, lookup: Lookup) {
    forall line <- lines :: VariantPick(line).Some? ==>
      Referred(line, lookup).Some? && ValidCid(Referred(line, lookup).value.cid)
  }

  /** The uploaded files in the order of the lines that refer to them. */
  function Expected(lines: seq<string>, lookup: Lookup): seq<Option<Ref>> {
    if lines == [] then []
    else if VariantPick(lines[0]).Some? then [Referred(lines[0], lookup)] + Expected(lines[1..], lookup)
    else Expected(lines[1..], lookup)
  }

  lemma FramedWhole(before: string, marker: string, value: string, rest: string)
    ensures Framed(before, marker, value, rest) == before + (marker + (value + ['"'])) + rest
  {
    Seqs.Assoc(value, ['"'], rest);
    Seqs.Assoc(marker, value + ['"'], rest);
    Seqs.Assoc(before, marker, value + (['"'] + rest));
    Seqs.Assoc(before, marker + (value + ['"']), rest);
  }

  lemma ReplacedValue(before: string, marker: string, was: string, rest: string, now: string)
    requires Find(Framed(before, marker, was, rest), marker) == Some(|before|)
    ensures ReplaceFirst(Framed(before, marker, was, rest), marker + (was + ['"']), marker + (now + ['"']))
         == Framed(before, marker, now, rest)
  {
    FramedWhole(before, marker, was, rest);
    FramedWhole(before, marker, now, rest);
    Seqs.Cut3(before, marker + (was + ['"']), rest);
    Seqs.TakeDrop(marker + (was + ['"']), rest);
    FindLonger(Framed(before, marker, was, rest), marker, was + ['"']);
  }

  /** Where a longer search with its quote finds something, a value is found. */
  lemma MatchHasValue(line: string, marker: string, was: string)
    requires Find(line, marker + (was + ['"'])).Some?
    ensures UriOf(line, marker).Some?
  {
    var long := marker + (was + ['"']);
    var j := Find(line, long).value;
    assert line[j..][..|long|] == line[j..j + |long|];
    PrefixCut(line[j..], marker, was + ['"']);
    FoundNoLater(line, marker, j);
    var i := Find(line, marker).value;
    assert line[j + |long| - 1] == long[|long| - 1] == '"';
    assert line[i + |marker|..][j + |long| - 1 - i - |marker|] == '"';
  }

  lemma {:induction false} FoundNoLater(s: string, p: string, j: nat)
    requires j <= |s| && p <= s[j..]
    ensures Find(s, p).Some? && Find(s, p).value <= j
  {
    if !(p <= s) {
      assert j > 0 by {
        assert s[0..] == s;
      }
      assert s[j..] == s[1..][j - 1..];
      FoundNoLater(s[1..], p, j - 1);
    }
  }

  /** The first visible character does not depend on what follows another visible one. */
  lemma {:induction false} HeadStays(a: string, m: string, x: string, y: string)
    requires m != "" && !IsSpace(m[0])
    ensures TrimLeft(a + m + x) != "" && TrimLeft(a + m + y) != ""
    ensures TrimLeft(a + m + x)[0] == TrimLeft(a + m + y)[0]
  {
    if a == "" {
      assert a + m + x == m + x && a + m + y == m + y;
    } else {
      assert (a + m + x)[1..] == a[1..] + m + x && (a + m + y)[1..] == a[1..] + m + y;
      HeadStays(a[1..], m, x, y);
    }
  }

  lemma TagIsHead(line: string)
    ensures IsTag(line) <==> TrimLeft(line) != "" && TrimLeft(line)[0] == '#'
  {
    TrimLeftCuts(line);
    if TrimLeft(line) != "" {
      TrimRightHead(TrimLeft(line));
    }
  }

  /** A tag whose value is replaced stays a tag, and the new value reads back. */
  lemma MapLineReads(line: string, marker: string, was: string, now: string)
    requires marker != "" && !IsSpace(marker[0]) && '"' !in now
    requires IsTag(line) && UriOf(line, marker) == Some(was)
    ensures var u := ReplaceFirst(line, marker + (was + ['"']), marker + (now + ['"']));
            IsTag(u) && UriOf(u, marker) == Some(now)
  {
    var before, rest := UriParts(line, marker);
    ReplacedValue(before, marker, was, rest, now);
    FindStays(before, marker, was + (['"'] + rest), now + (['"'] + rest));
    FramedUri(before, marker, now, rest);
    HeadStays(before, marker, was + (['"'] + rest), now + (['"'] + rest));
    TagIsHead(line);
    TagIsHead(Framed(before, marker, now, rest));
  }

  lemma ExtensionsArePlain()
    ensures IsPlainExt(MP4) && IsPlainExt(M4S) && '"' !in MP4 && '\n' !in MP4 && '\n' !in M4S && Solid(M4S)
    ensures '\n' !in MARKER && '"' !in INIT && MAP_TAG[0] == '#'
  {
  }

  lemma MapTagIsTag(line: string)
    requires HasPrefix(Trim(line), MAP_TAG)
    ensures IsTag(line)
  {
    ExtensionsArePlain();
    assert Trim(line)[0] == MAP_TAG[0];
  }

  lemma SegmentNameIsNoTag(line: string)
    requires IsSegmentName(Trim(line))
    ensures !IsTag(line) && Trim(line) != "" && !HasPrefix(Trim(line), MAP_TAG)
  {
    ExtensionsArePlain();
    assert Trim(line)[0] == "seg_"[0];
  }

  lemma MapTagIsNoSegment(line: string)
    requires IsTag(line)
    ensures !IsSegmentName(Trim(line)) && Trim(line) != ""
  {
    assert "seg_"[0] != '#';
  }

  lemma TagReads(u: string, cid: string, ext: string, parse: Parse)
    requires Relative(parse) && ValidCid(cid) && IsPlainExt(ext)
    requires IsTag(u) && Trim(u) != "" && PlaylistUri(u) == Some(cid + ext)
    ensures VariantPick(u).Some? && RefOf(VariantPick(u).value, parse) == Some(Ref(cid, ext))
  {
    PrintedName(cid, ext, parse);
  }

  lemma NameReads(cid: string, ext: string, parse: Parse)
    requires Relative(parse) && ValidCid(cid) && IsPlainExt(ext) && Solid(ext)
    ensures VariantPick(cid + ext).Some? && RefOf(VariantPick(cid + ext).value, parse) == Some(Ref(cid, ext))
  {
    CidChars(cid);
    var u := cid + ext;
    assert IsLetterOrDigit(u[0]);
    TrimSolid(u);
    PrintedName(cid, ext, parse);
  }

  lemma MapReads(line: string, lookup: Lookup, parse: Parse)
    requires Relative(parse) && HasPrefix(Trim(line), MAP_TAG) && PlaylistUri(line) == Some(INIT)
    requires lookup(INIT).Some? && ValidCid(lookup(INIT).value)
    ensures var u := UploadedLine(line, lookup);
            VariantPick(u).Some? && RefOf(VariantPick(u).value, parse) == Some(Ref(lookup(INIT).value, MP4))
  {
    var cid := lookup(INIT).value;
    var u := ReplaceFirst(line, MARKER + (INIT + ['"']), MARKER + (cid + MP4 + ['"']));
    MapTagIsTag(line);
    MapTagReplaced(line, cid);
    MapTagIsNoSegment(u);
    assert IsPlainExt(MP4) by { ExtensionsArePlain(); }
    TagReads(u, cid, MP4, parse);
  }

  lemma MapTagReplaced(line: string, cid: string)
    requires IsTag(line) && PlaylistUri(line) == Some(INIT) && ValidCid(cid)
    ensures var u := ReplaceFirst(line, MARKER + (INIT + ['"']), MARKER + (cid + MP4 + ['"']));
            IsTag(u) && PlaylistUri(u) == Some(cid + MP4)
  {
    assert '"' !in cid + MP4 by {
      CidChars(cid);
      ExtensionsArePlain();
    }
    assert MARKER != "" && !IsSpace(MARKER[0]) by {
      MarkerSolid();
      assert MARKER[0] in MARKER;
    }
    MapLineReads(line, MARKER, INIT, cid + MP4);
  }

  lemma SegmentReads(line: string, lookup: Lookup, parse: Parse)
    requires Relative(parse) && IsSegmentName(Trim(line))
    requires lookup(Trim(line)).Some? && ValidCid(lookup(Trim(line)).value)
    ensures var u := UploadedLine(line, lookup);
            VariantPick(u).Some? && RefOf(VariantPick(u).value, parse) == Some(Ref(lookup(Trim(line)).value, M4S))
  {
    var cid := lookup(Trim(line)).value;
    SegmentNameIsNoTag(line);
    assert UploadedLine(line, lookup) == cid + M4S;
    ExtensionsArePlain();
    NameReads(cid, M4S, parse);
  }

  lemma OtherLineStays(line: string, lookup: Lookup)
    requires VariantPick(line).None?
    ensures UploadedLine(line, lookup) == line
  {
    if HasPrefix(Trim(line), MAP_TAG) {
      MapTagIsTag(line);
      MapTagIsNoSegment(line);
      if Find(line, MARKER + (INIT + ['"'])).Some? {
        MatchHasValue(line, MARKER, INIT);
      }
    } else if IsSegmentName(Trim(line)) {
      SegmentNameIsNoTag(line);
    }
  }

  lemma UploadedLineReads(line: string, lookup: Lookup, parse: Parse)
    requires Relative(parse)
    requires VariantPick(line).Some? ==> Referred(line, lookup).Some? && ValidCid(Referred(line, lookup).value.cid)
    ensures var u := UploadedLine(line, lookup);
            if VariantPick(line).None? then u == line
            else VariantPick(u).Some? && RefOf(VariantPick(u).value, parse) == Referred(line, lookup)
  {
    if VariantPick(line).None? {
      OtherLineStays(line, lookup);
    } else if HasPrefix(Trim(line), MAP_TAG) {
      MapReads(line, lookup, parse);
    } else {
      SegmentReads(line, lookup, parse);
    }
  }

  lemma {:induction false} UploadedRefs(lines: seq<string>, lookup: Lookup, parse: Parse)
    requires Relative(parse) && AllKnown(lines, lookup)
    ensures References(UploadedLines(lines, lookup), VariantPick, VariantRead(parse)) == Expected(lines, lookup)
  {
    if lines != [] {
      var all := UploadedLines(lines, lookup);
      UploadedRefs(lines[1..], lookup, parse);
      assert all[1..] == UploadedLines(lines[1..], lookup);
      UploadedLineReads(lines[0], lookup, parse);
    }
  }

  lemma UploadedLineIsOneLine(line: string, lookup: Lookup)
    requires '\n' !in line
    requires VariantPick(line).Some? ==> Referred(line, lookup).Some? && ValidCid(Referred(line, lookup).value.cid)
    ensures '\n' !in UploadedLine(line, lookup)
  {
    if VariantPick(line).None? {
      OtherLineStays(line, lookup);
    } else if HasPrefix(Trim(line), MAP_TAG) {
      NameIsOneLine(lookup(INIT).value, MP4);
      assert '\n' !in MARKER by {
        ExtensionsArePlain();
      }
      ReplacedIsOneLine(line, MARKER + (INIT + ['"']), MARKER + (lookup(INIT).value + MP4 + ['"']));
    } else {
      SegmentNameIsNoTag(line);
      NameIsOneLine(lookup(Trim(line)).value, M4S);
    }
  }

  lemma NameIsOneLine(cid: string, ext: string)
    requires ValidCid(cid) && (ext == MP4 || ext == M4S)
    ensures '\n' !in cid + ext
  {
    CidChars(cid);
    ExtensionsArePlain();
  }

  lemma ReplacedIsOneLine(line: string, was: string, now: string)
    requires '\n' !in line && '\n' !in now
    ensures '\n' !in ReplaceFirst(line, was, now)
  {
  }

  lemma {:induction false} ExpectedAreValid(lines: seq<string>, lookup: Lookup, k: nat)
    requires AllKnown(lines, lookup) && k < |Expected(lines, lookup)|
    ensures Expected(lines, lookup)[k].Some? && ValidCid(Expected(lines, lookup)[k].value.cid)
  {
    if VariantPick(lines[0]).None? {
      ExpectedAreValid(lines[1..], lookup, k);
    } else if k > 0 {
      ExpectedAreValid(lines[1..], lookup, k - 1);
    }
  }

  /**
   From the encoder to the request: index k of the uploaded playlist names the file, and its extension, that
   the k-th reference of the encoder's playlist named, and there are no further indices.
   */
  lemma UploadedIndexResolves(content: string, lookup: Lookup, parse: Parse, k: nat)
    requires Relative(parse) && AllKnown(Split(content, '\n'), lookup)
    ensures var expected := Expected(Split(content, '\n'), lookup);
            var uploaded := Lines(UploadedLines(Split(content, '\n'), lookup));
            && VariantRefs(uploaded, parse) == expected
            && (k < |expected| ==> Nth(VariantRefs(uploaded, parse), k) == expected[k] && expected[k].Some?)
            && (k >= |expected| ==> Nth(VariantRefs(uploaded, parse), k) == None)
  {
    var lines := Split(content, '\n');
    var all := UploadedLines(lines, lookup);
    JoinOfSplit(content, '\n');
    forall l <- all ensures '\n' !in l {
      var i :| 0 <= i < |all| && all[i] == l;
      UploadedLineIsOneLine(lines[i], lookup);
    }
    SplitOfLines(all);
    ReferencesConcat(all, [""], VariantPick, VariantRead(parse));
    assert References([""], VariantPick, VariantRead(parse)) == [];
    UploadedRefs(lines, lookup, parse);
    var expected := Expected(lines, lookup);
    forall j: nat | j < |expected| ensures expected[j].Some? {
      ExpectedAreValid(lines, lookup, j);
    }
    NthIsThere(expected, k);
  }
}
