/** What a player reads in the playlist that it is sent, and which of its requests are answered. */
module PlayerRequests {
  import opened LinkedAgreement
  import opened LinkedPlaylists
  import opened Options
  import opened PlaylistRef
  import Seqs
  import opened StreamRoutes
  import opened Text
  import Uploader
  import opened Urls

  // ---------- The lines of a text ----------

  /** A suffix as it is encoded: a query without white space and quotes. */
  predicate IsQuery(suffix: string) { IsSuffix(suffix) && Solid(suffix) && '"' !in suffix }

  /** Where line l begins in the text that the lines make, some of which may hold newlines. */
  function StartOf(lines: seq<string>, l: nat): nat
    requires l <= |lines|
  {
    if l == 0 then 0 else |Split(Join(lines[..l], '\n'), '\n')|
  }

  lemma FirstPiece(s: string, c: char)
    ensures Split(s, c)[0] == Until(s, c)
  {
    var i := IndexOf(s, c);
    assert i == |s| ==> s[..i] == s;
  }

  lemma StartsThere(lines: seq<string>, l: nat)
    requires l < |lines|
    ensures var sent := Split(Join(lines, '\n'), '\n');
            StartOf(lines, l) < |sent| && sent[StartOf(lines, l)] == Until(lines[l], '\n')
  {
    var rest := lines[l..];
    assert rest == [lines[l]] + rest[1..];
    HeadPiece(rest);
    assert lines == lines[..l] + rest;
    if l > 0 {
      JoinConcat(lines[..l], rest, '\n');
      SplitAt(Join(lines[..l], '\n'), Join(rest, '\n'), '\n');
    }
  }

  lemma HeadPiece(lines: seq<string>)
    requires lines != []
    ensures Split(Join(lines, '\n'), '\n')[0] == Until(lines[0], '\n')
  {
    FirstPiece(lines[0], '\n');
    if |lines| > 1 {
      SplitAt(lines[0], Join(lines[1..], '\n'), '\n');
    }
  }

  // ---------- What is read of a printed line ----------

  /** What a player reads of a printed line: where it breaks, of what comes first. */
  function Read(line: string): Option<string> { VariantPick(Until(line, '\n')) }

  predicate EndsBlank(s: string) { s != "" && IsSpace(s[|s| - 1]) }

  /** Whether a printed reference is read as it was printed, in a tag or on a line of its own. */
  predicate ReadWhole(tag: bool, ext: string, suffix: string) {
    '\n' !in ext && if tag then '"' !in ext else suffix != "" || !EndsBlank(ext)
  }

  /** What is read of a reference that ends in an extension: all of it, or nothing, or one with a shorter extension. */
  ghost predicate IsReading(value: Option<string>, head: string, ext: string, suffix: string, whole: bool) {
    if whole then value == Some(head + (ext + suffix))
    else value.Some? ==> exists e :: e != "" && e < ext && value == Some(head + (e + ""))
  }

  /** The printed reference before its extension. */
  function Head(p: nat, k: nat): string { Join(["..", SEGMENT, Digits(p)], '/') + ['/'] + Digits(k) }

  lemma HeadFirst(p: nat, k: nat, ext: string, suffix: string)
    ensures SegmentReference(p, k, ext, suffix) == Head(p, k) + (ext + suffix)
  {
    JoinSnoc(["..", SEGMENT, Digits(p)], Digits(k) + (ext + suffix), '/');
    Seqs.Assoc(Join(["..", SEGMENT, Digits(p)], '/') + ['/'], Digits(k), ext + suffix);
  }

  predicate IsHead(head: string) { head != "" && head[0] == '.' && Solid(head) && '"' !in head }

  lemma HeadIsHead(p: nat, k: nat)
    ensures IsHead(Head(p, k))
  {
    var parts := ["..", SEGMENT, Digits(p)];
    ValueOfDigits(p);
    ValueOfDigits(k);
    JoinLacks(parts, '/', '"');
    assert Join(parts, '/')[0] == '.';
    forall c <- Head(p, k) ensures !IsSpace(c) {
      if IsSpace(c) {
        assert !IsDigit(c) && c != '/' && Solid(SEGMENT);
        JoinLacks(parts, '/', c);
      }
    }
  }

  lemma {:induction false} TrimRightTail(head: string, t: string)
    requires head != "" && Solid(head)
    ensures TrimRight(head + t) == head + TrimRight(t)
  {
    if t == "" {
      assert head + t == head && head[|head| - 1] in head;
    } else if IsSpace(t[|t| - 1]) {
      assert (head + t)[..|head + t| - 1] == head + t[..|t| - 1];
      TrimRightTail(head, t[..|t| - 1]);
    }
  }

  /** On a line of its own, a reference is read up to the white space at the end. */
  lemma BareIsTrimmed(head: string, t: string)
    requires IsHead(head)
    ensures VariantPick(head + t) == Some(head + TrimRight(t))
  {
    var line := head + t;
    assert line[0] == '.' && !IsSpace('.');
    assert TrimLeft(line) == line;
    TrimRightTail(head, t);
    PickedBare(line, head + TrimRight(t));
  }

  lemma PickedBare(line: string, value: string)
    requires Trim(line) == value && value != "" && value[0] == '.'
    ensures VariantPick(line) == Some(value)
  {
    assert "#"[0] != '.';
  }

  lemma NoBlankEnd(s: string)
    ensures TrimRight(s) == s <==> !EndsBlank(s)
    ensures TrimRight(s) <= s
  {
    TrimRightCuts(s);
  }

  /** What precedes the newline in an extension, without white space at its end, is shorter. */
  lemma Shortened(ext: string, c: char)
    requires IsExt(ext) && c in ext && c != '.'
    ensures Until(ext, c) != "" && Until(ext, c) < ext && Until(ext, c)[0] == '.'
  {
    UntilAll(ext, c);
  }

  lemma TrimmedExt(e: string)
    requires e != "" && e[0] == '.'
    ensures TrimRight(e) != "" && TrimRight(e) <= e
  {
    NoBlankEnd(e);
    TrimRightHead(e);
  }

  lemma BareReading(head: string, ext: string, suffix: string)
    requires IsHead(head) && IsExt(ext) && IsQuery(suffix)
    ensures IsReading(Read(head + (ext + suffix)), head, ext, suffix, ReadWhole(false, ext, suffix))
  {
    UntilSkips(head, ext + suffix, '\n');
    if '\n' in ext {
      var u := Until(ext, '\n');
      UntilStops(ext, suffix, '\n');
      BareIsTrimmed(head, u);
      Shortened(ext, '\n');
      TrimmedExt(u);
      ShorterIsReading(head, ext, TrimRight(u), suffix);
    } else {
      UntilAll(ext + suffix, '\n');
      BareIsTrimmed(head, ext + suffix);
      NoBlankEnd(ext + suffix);
      if suffix == "" {
        assert ext + suffix == ext;
        if EndsBlank(ext) {
          TrimmedExt(ext);
          ShorterIsReading(head, ext, TrimRight(ext), suffix);
        }
      } else {
        assert suffix[|suffix| - 1] in suffix;
      }
    }
  }

  lemma ShorterIsReading(head: string, ext: string, e: string, suffix: string)
    requires e != "" && e < ext
    ensures IsReading(Some(head + e), head, ext, suffix, false)
  {
    assert head + e == head + (e + "");
  }

  // ---------- In a tag ----------

  /** A quote ends a value, whatever comes behind. */
  lemma QuotedUntil(a: string, b: string)
    requires '"' in a
    ensures Quoted(a + b) == Some(Until(a, '"'))
  {
    var e := Until(a, '"');
    UntilAll(a, '"');
    assert a == e + a[|e|..];
    Seqs.Assoc(e, a[|e|..], b);
    QuotedValue(e, a[|e|..] + b);
  }

  lemma QuotedNone(a: string)
    requires '"' !in a
    ensures Quoted(a) == None
  {
    UntilAll(a, '"');
  }

  /** In a tag with a value printed on one line, the value is read up to a quote in its extension. */
  lemma TagOneLine(out: string, before: string, head: string, ext: string, suffix: string, rest: string)
    requires out == Framed(before, MARKER, head + (ext + suffix), rest) && Find(out, MARKER) == Some(|before|)
    requires IsHead(head) && IsExt(ext) && IsQuery(suffix)
    ensures IsReading(PlaylistUri(out), head, ext, suffix, '"' !in ext)
  {
    var value := head + (ext + suffix);
    FramedQuoted(before, MARKER, value, rest);
    if '"' in ext {
      QuotedUntil(value, ['"'] + rest);
      UntilSkips(head, ext + suffix, '"');
      UntilStops(ext, suffix, '"');
      Shortened(ext, '"');
      ShorterIsReading(head, ext, Until(ext, '"'), suffix);
    } else {
      QuotedValue(value, ['"'] + rest);
    }
  }

  /** In a tag whose value breaks, at most a value with a shorter extension is read. */
  lemma TagBroken(line: string, before: string, head: string, ext: string, suffix: string)
    requires line == before + MARKER + (head + Until(ext, '\n')) && Find(line, MARKER) == Some(|before|)
    requires IsHead(head) && IsExt(ext) && '\n' in ext
    ensures IsReading(PlaylistUri(line), head, ext, suffix, false)
  {
    var u := Until(ext, '\n');
    Shortened(ext, '\n');
    Seqs.Cut3(before, MARKER, head + u);
    if '"' in u {
      assert head + u + "" == head + u;
      QuotedUntil(head + u, "");
      UntilSkips(head, u, '"');
      CutTwice(ext);
      ShorterIsReading(head, ext, Until(u, '"'), suffix);
    } else {
      QuotedNone(head + u);
    }
  }

  lemma CutTwice(ext: string)
    requires IsExt(ext) && '\n' in ext && '"' in Until(ext, '\n')
    ensures Until(Until(ext, '\n'), '"') != "" && Until(Until(ext, '\n'), '"') < ext
  {
    var u := Until(ext, '\n');
    Shortened(ext, '\n');
    UntilAll(u, '"');
    assert u[0] == '.';
  }

  /** A tag cut behind its marker is a tag. */
  lemma CutTag(before: string, x: string, y: string)
    requires IsTag(before + MARKER + x)
    ensures IsTag(before + MARKER + y) && Trim(before + MARKER + y) != ""
  {
    MarkerSolid();
    assert MARKER[0] in MARKER;
    Uploader.HeadStays(before, MARKER, x, y);
    Uploader.TagIsHead(before + MARKER + x);
    Uploader.TagIsHead(before + MARKER + y);
  }

  lemma TagReading(line: string, out: string, head: string, ext: string, suffix: string)
    requires IsTag(line) && '\n' !in line && ReplaceUri(line, head + (ext + suffix)) == Some(out)
    requires IsHead(head) && IsExt(ext) && IsQuery(suffix)
    ensures IsReading(Read(out), head, ext, suffix, ReadWhole(true, ext, suffix))
  {
    MarkerSolid();
    var value := head + (ext + suffix);
    var before, rest := UriParts(line, MARKER);
    var was := UriOf(line, MARKER).value;
    FramedUri(before, MARKER, was, rest);
    CutTag(before, was + (['"'] + rest), value + (['"'] + rest));
    FindStays(before, MARKER, was + (['"'] + rest), value + (['"'] + rest));
    ReplacedNewline(line, out, value);
    if '\n' in ext {
      BrokenTag(line, before, was, rest, head, ext, suffix);
      CutTag(before, was + (['"'] + rest), head + Until(ext, '\n'));
      FindStays(before, MARKER, was + (['"'] + rest), head + Until(ext, '\n'));
      TagBroken(Until(out, '\n'), before, head, ext, suffix);
    } else {
      assert '\n' !in value;
      UntilAll(out, '\n');
      TagOneLine(out, before, head, ext, suffix, rest);
    }
  }

  lemma BrokenTag(line: string, before: string, was: string, rest: string, head: string, ext: string, suffix: string)
    requires line == Framed(before, MARKER, was, rest) && '\n' !in line && Solid(head) && '\n' in ext
    ensures Until(Framed(before, MARKER, head + (ext + suffix), rest), '\n')
         == before + MARKER + (head + Until(ext, '\n'))
  {
    var out := Framed(before, MARKER, head + (ext + suffix), rest);
    var front := before + MARKER + head;
    assert forall c <- before + MARKER :: c in line;
    assert out == front + (ext + (suffix + (['"'] + rest)));
    UntilSkips(front, ext + (suffix + (['"'] + rest)), '\n');
    UntilStops(ext, suffix + (['"'] + rest), '\n');
  }

  // ---------- What a player is sent ----------

  /** The file that a player is sent for a line of the i-th playlist; None where it asks for nothing or is refused. */
  function SentFor(line: string, link: string, master: string, lib: Library, parse: Parse): Option<Ref> {
    match VariantPick(line)
    case None => None
    case Some(value) => SegmentServed(master, Requested([link, PLAYLIST], value), lib, parse)
  }

  /** A request by a shorter extension is refused. */
  lemma ShorterIsRefused(link: string, master: string, p: nat, playlist: string, k: nat, ref: Ref, e: string,
                         lib: Library, parse: Parse)
    requires p <= MAX_INT && k <= MAX_INT && IsLink(link) && PlaylistOf(master, p, lib, parse) == Some(playlist)
    requires Nth(VariantRefs(playlist, parse), k) == Some(ref) && IsExt(ref.ext) && e != "" && e < ref.ext
    ensures SegmentServed(master, Requested([link, PLAYLIST], SegmentReference(p, k, e, "")), lib, parse) == None
  {
    assert e[0] == ref.ext[0] && e[1..] <= ref.ext[1..];
    SegmentRequested(link, p, k, e, "");
  }

  /** What reading decides: whole references are answered as printed, and others are not. */
  lemma ReadingServed(link: string, master: string, p: nat, playlist: string, k: nat, ref: Ref, suffix: string,
                      lib: Library, parse: Parse, line: string, whole: bool)
    requires p <= MAX_INT && k <= MAX_INT && IsLink(link) && PlaylistOf(master, p, lib, parse) == Some(playlist)
    requires Nth(VariantRefs(playlist, parse), k) == Some(ref) && IsExt(ref.ext) && IsSuffix(suffix)
    requires IsReading(VariantPick(line), Head(p, k), ref.ext, suffix, whole)
    ensures var sent := SentFor(line, link, master, lib, parse);
            && (sent == Some(ref) <==> whole && !lib.deleted(ref.cid) && IsBare(ref.ext))
            && (sent.Some? ==> sent == Some(ref))
  {
    if whole {
      HeadFirst(p, k, ref.ext, suffix);
      PrintedSegmentIsServed(link, master, p, playlist, k, suffix, lib, parse);
    } else if VariantPick(line).Some? {
      var e :| e != "" && e < ref.ext && VariantPick(line) == Some(Head(p, k) + (e + ""));
      HeadFirst(p, k, e, "");
      ShorterIsRefused(link, master, p, playlist, k, ref, e, lib, parse);
    }
  }

  /** How the line of a reference is read where it begins in the text. */
  lemma PrintedReading(content: string, p: nat, suffix: string, parse: Parse, l: nat, k: nat)
    requires VariantLines(content, p, suffix, parse).Some? && IsQuery(suffix)
    requires IsLineOf(Split(content, '\n'), l, k, VariantPick, VariantRead(parse))
    ensures var lines, out := Split(content, '\n'), VariantLines(content, p, suffix, parse).value;
            && |out| == |lines| && Nth(VariantRefs(content, parse), k).Some?
            && var ext := Nth(VariantRefs(content, parse), k).value.ext;
               IsExt(ext) && IsReading(Read(out[l]), Head(p, k), ext, suffix, ReadWhole(IsTag(lines[l]), ext, suffix))
  {
    var lines, out := Split(content, '\n'), VariantLines(content, p, suffix, parse).value;
    VariantLineAgrees(content, p, suffix, parse, l);
    var value := VariantPick(lines[l]).value;
    var ext := RefOf(value, parse).value.ext;
    RefHasExt(value, parse);
    HeadFirst(p, k, ext, suffix);
    HeadIsHead(p, k);
    JoinOfSplit(content, '\n');
    if IsTag(lines[l]) {
      TagReading(lines[l], out[l], Head(p, k), ext, suffix);
    } else {
      BareReading(Head(p, k), ext, suffix);
    }
  }

  /**
   What a player is sent for the k-th reference, read in the rewritten text where its line begins: the very file
   referenced, exactly when that is not withdrawn, a request cuts and decodes nothing in the extension, and the
   reference is read whole; and never another file.
   */
  lemma ReadSegmentIsServed(link: string, master: string, p: nat, content: string, suffix: string, lib: Library,
                            parse: Parse, l: nat, k: nat)
    requires p <= MAX_INT && k <= MAX_INT && IsQuery(suffix) && IsLink(link)
    requires PlaylistOf(master, p, lib, parse) == Some(content) && VariantLines(content, p, suffix, parse).Some?
    requires IsLineOf(Split(content, '\n'), l, k, VariantPick, VariantRead(parse))
    ensures var lines, out := Split(content, '\n'), VariantLines(content, p, suffix, parse).value;
            var text := Split(Join(out, '\n'), '\n');
            && |out| == |lines| && StartOf(out, l) < |text| && Nth(VariantRefs(content, parse), k).Some?
            && var ref := Nth(VariantRefs(content, parse), k).value;
               var sent := SentFor(text[StartOf(out, l)], link, master, lib, parse);
               && (sent == Some(ref) <==>
                     !lib.deleted(ref.cid) && IsBare(ref.ext) && ReadWhole(IsTag(lines[l]), ref.ext, suffix))
               && (sent.Some? ==> sent == Some(ref))
  {
    var out := VariantLines(content, p, suffix, parse).value;
    PrintedReading(content, p, suffix, parse, l, k);
    StartsThere(out, l);
    var ref := Nth(VariantRefs(content, parse), k).value;
    var whole := ReadWhole(IsTag(Split(content, '\n')[l]), ref.ext, suffix);
    ReadingServed(link, master, p, content, k, ref, suffix, lib, parse, Until(out[l], '\n'), whole);
  }

  // ---------- All that a player reads ----------

  /** The references that are read, in order. */
  function Picked(lines: seq<string>, pick: Pick): seq<string> {
    if lines == [] then []
    else
      var before, last := Picked(lines[..|lines| - 1], pick), pick(lines[|lines| - 1]);
      if last.None? then before else before + [last.value]
  }

  /** The references as printed, in order. */
  function PrintedNames(p: nat, refs: seq<Option<Ref>>, suffix: string): seq<string> {
    seq(|refs|, k requires 0 <= k < |refs| =>
      SegmentReference(p, k, if refs[k].Some? then refs[k].value.ext else "", suffix))
  }

  /** Line l holds what it should: nothing where there was no reference, and else the name with its index. */
  ghost predicate HoldsName(lines: seq<string>, out: seq<string>, names: seq<string>, pick: Pick, read: ReadRef, l: nat)
    requires l < |lines| == |out|
  {
    var k := IndexAt(lines, l, pick, read);
    if pick(lines[l]).None? then pick(out[l]).None? else k < |names| && pick(out[l]) == Some(names[k])
  }

  lemma {:induction false} PickedNames(lines: seq<string>, out: seq<string>, names: seq<string>, pick: Pick,
                                       read: ReadRef, n: nat)
    requires n <= |lines| == |out| && IndexAt(lines, n, pick, read) <= |names|
    requires forall l: nat :: l < |lines| ==> HoldsName(lines, out, names, pick, read, l)
    ensures Picked(out[..n], pick) == names[..IndexAt(lines, n, pick, read)]
  {
    if n > 0 {
      var l := n - 1;
      NextIndex(lines, l, pick, read);
      PickedNames(lines, out, names, pick, read, l);
      assert HoldsName(lines, out, names, pick, read, l);
      assert out[..n][..l] == out[..l] && out[..n][l] == out[l];
    } else {
      assert lines[..0] == [] && out[..0] == [];
    }
  }

  lemma NextIndex(lines: seq<string>, l: nat, pick: Pick, read: ReadRef)
    requires l < |lines|
    ensures IndexAt(lines, l + 1, pick, read) == IndexAt(lines, l, pick, read) + if pick(lines[l]).Some? then 1 else 0
  {
    assert lines[..l + 1] == lines[..l] + [lines[l]] && [lines[l]][1..] == [];
    ReferencesConcat(lines[..l], [lines[l]], pick, read);
  }

  /** All references are read whole, in a tag or not. */
  predicate AllWhole(refs: seq<Option<Ref>>, suffix: string) {
    forall r <- refs | r.Some? :: ReadWhole(true, r.value.ext, suffix) && ReadWhole(false, r.value.ext, suffix)
  }

  /** Where all is read whole, what a player reads in the text is what was printed, in order and nothing else. */
  lemma TextReadsAsPrinted(content: string, p: nat, suffix: string, parse: Parse)
    requires VariantLines(content, p, suffix, parse).Some? && IsQuery(suffix)
    requires AllWhole(VariantRefs(content, parse), suffix)
    ensures Picked(Split(Join(VariantLines(content, p, suffix, parse).value, '\n'), '\n'), VariantPick)
         == PrintedNames(p, VariantRefs(content, parse), suffix)
  {
    var lines, out := Split(content, '\n'), VariantLines(content, p, suffix, parse).value;
    var read, names := VariantRead(parse), PrintedNames(p, VariantRefs(content, parse), suffix);
    assert lines[..|lines|] == lines && out[..|out|] == out;
    VariantLineAgrees(content, p, suffix, parse, 0);
    OutIsText(content, p, suffix, parse);
    forall l: nat | l < |lines| ensures HoldsName(lines, out, names, VariantPick, read, l) {
      VariantLineAgrees(content, p, suffix, parse, l);
      if VariantPick(lines[l]).Some? {
        WholeLine(content, p, suffix, parse, l, IndexAt(lines, l, VariantPick, read));
      }
    }
    PickedNames(lines, out, names, VariantPick, read, |lines|);
    assert names[..|names|] == names;
  }

  /** The lines that are printed are those of the text. */
  lemma OutIsText(content: string, p: nat, suffix: string, parse: Parse)
    requires VariantLines(content, p, suffix, parse).Some? && IsQuery(suffix)
    requires forall r <- VariantRefs(content, parse) | r.Some? :: '\n' !in r.value.ext
    ensures var out := VariantLines(content, p, suffix, parse).value;
            Split(Join(out, '\n'), '\n') == out && forall o <- out :: '\n' !in o
  {
    var lines, out := Split(content, '\n'), VariantLines(content, p, suffix, parse).value;
    VariantLineAgrees(content, p, suffix, parse, 0);
    forall o <- out ensures '\n' !in o {
      var l: nat :| l < |out| && out[l] == o;
      VariantLineBreaks(content, p, suffix, parse, l);
      if VariantPick(lines[l]).Some? {
        ReferenceAt(lines, l, VariantPick, VariantRead(parse));
      }
    }
    SplitOfJoin(out, '\n');
  }

  lemma WholeLine(content: string, p: nat, suffix: string, parse: Parse, l: nat, k: nat)
    requires VariantLines(content, p, suffix, parse).Some? && IsQuery(suffix)
    requires IsLineOf(Split(content, '\n'), l, k, VariantPick, VariantRead(parse))
    requires AllWhole(VariantRefs(content, parse), suffix)
    ensures l < |VariantLines(content, p, suffix, parse).value| && k < |VariantRefs(content, parse)|
    ensures VariantPick(VariantLines(content, p, suffix, parse).value[l])
         == Some(PrintedNames(p, VariantRefs(content, parse), suffix)[k])
  {
    var out, refs := VariantLines(content, p, suffix, parse).value, VariantRefs(content, parse);
    PrintedReading(content, p, suffix, parse, l, k);
    NthIsThere(refs, k);
    assert refs[k] in refs;
    HeadFirst(p, k, refs[k].value.ext, suffix);
    OutIsText(content, p, suffix, parse);
    UntilAll(out[l], '\n');
  }
}
