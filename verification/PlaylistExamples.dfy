/** Stored playlists on which printing and requesting, or the two ways of requesting, do not agree. */
module PlaylistExamples {
  import opened LinkedAgreement
  import opened LinkedPlaylists
  import opened MediaResource
  import opened Options
  import opened PlayerRequests
  import opened PlaylistRef
  import Seqs
  import opened StreamRoutes
  import opened Text
  import opened Uploader
  import opened Urls

  /** An identifier. */
  function SampleCid(): (cid: string)
    ensures ValidCid(cid)
  {
    "Qm" + seq(44, _ => 'a')
  }

  /** A playlist of one line: a file name with escapes in its extension. */
  lemma OneEscapedName(cid: string, printed: string, ext: string)
    requires ValidCid(cid) && IsExt(ext) && Solid(printed) && '\n' !in printed && '/' !in printed
    requires '#' !in printed && '?' !in printed
    requires printed != "" && Unescape(printed) == Some(ext) && ext != ""
    ensures Split(cid + printed, '\n') == [cid + printed]
    ensures VariantRefs(cid + printed, ParseReference) == [Some(Ref(cid, ext))]
  {
    CidChars(cid);
    var line := cid + printed;
    SplitFirst(line, "", '\n');
    TrimSolid(line);
    assert IsLetterOrDigit(line[0]);
    EscapedNameReads(cid, printed, ext);
    NextReferenceAlone(line);
  }

  lemma EscapedNameReads(cid: string, printed: string, ext: string)
    requires ValidCid(cid) && IsExt(ext) && Solid(printed) && '#' !in printed && '?' !in printed
    requires Unescape(printed) == Some(ext)
    ensures RefOf(cid + printed, ParseReference) == Some(Ref(cid, ext))
  {
    CidChars(cid);
    TrimSolid(cid + printed);
    EscapedIsParsed(cid, printed, ext);
    ParsedNameReads(cid + printed, cid, ext, ParseReference);
  }

  lemma EscapedIsParsed(cid: string, printed: string, ext: string)
    requires '#' !in cid && '?' !in cid && '%' !in cid && '#' !in printed && '?' !in printed
    requires Unescape(printed) == Some(ext)
    ensures ParseReference(cid + printed) == Some(cid + ext)
  {
    PathCuts(cid + printed);
    UnescapePlain(cid, printed);
  }

  lemma ParsedNameReads(value: string, cid: string, ext: string, parse: Parse)
    requires ValidCid(cid) && IsExt(ext) && Trim(value) == value && parse(value) == Some(cid + ext)
    ensures RefOf(value, parse) == Some(Ref(cid, ext))
  {
    CidChars(cid);
    BaseOfName(cid + ext);
    ExtOfName(cid, ext);
  }

  lemma NextReferenceAlone(line: string)
    requires VariantPick(line) == Some(line)
    ensures VariantRefs(line, ParseReference) == References(Split(line, '\n'), VariantPick, VariantRead(ParseReference))
    ensures References([line], VariantPick, VariantRead(ParseReference)) == [RefOf(line, ParseReference)]
  {
    assert [line][1..] == [];
  }

  /** An extension with one escape in it, as it is stored. */
  function Escaped(high: char, low: char, rest: string): string { M4S + ['%', high, low] + rest }

  /** The character that an escape stands for. */
  function Character(high: char, low: char): char
    requires IsHex(high) && IsHex(low)
  {
    (16 * HexValue(high) + HexValue(low)) as char
  }

  /** The extension that an escaped one stands for. */
  function Decoded(high: char, low: char, rest: string): string
    requires IsHex(high) && IsHex(low)
  {
    M4S + [Character(high, low)] + rest
  }

  lemma EscapeDecodes(high: char, low: char, rest: string)
    requires IsHex(high) && IsHex(low) && '%' !in rest
    ensures Unescape(Escaped(high, low, rest)) == Some(Decoded(high, low, rest))
  {
    assert '%' !in M4S;
    EscapeInside(M4S, high, low, rest);
  }

  lemma EscapeInside(head: string, high: char, low: char, rest: string)
    requires '%' !in head && IsHex(high) && IsHex(low) && '%' !in rest
    ensures Unescape(head + ['%', high, low] + rest)
         == Some(head + [Character(high, low)] + rest)
  {
    var escape, decoded := ['%', high, low], [Character(high, low)];
    UnescapeShrinks(rest);
    UnescapeOne(high, low, rest);
    UnescapePlain(head, escape + rest);
    Seqs.Assoc(head, escape, rest);
    Seqs.Assoc(head, decoded, rest);
  }

  /** A playlist of one file whose stored extension has one escape. */
  lemma OneEscape(cid: string, high: char, low: char, rest: string)
    requires ValidCid(cid) && IsHex(high) && IsHex(low)
    requires Character(high, low) != '.' && Character(high, low) != '/'
    requires forall r <- rest :: IsLetterOrDigit(r)
    ensures VariantRefs(cid + Escaped(high, low, rest), ParseReference) == [Some(Ref(cid, Decoded(high, low, rest)))]
  {
    EscapedIsWritten(high, low, rest);
    OneEscapedName(cid, Escaped(high, low, rest), Decoded(high, low, rest));
  }

  lemma EscapedIsWritten(high: char, low: char, rest: string)
    requires IsHex(high) && IsHex(low)
    requires Character(high, low) != '.' && Character(high, low) != '/'
    requires forall r <- rest :: IsLetterOrDigit(r)
    ensures var ext, printed := Decoded(high, low, rest), Escaped(high, low, rest);
            && Unescape(printed) == Some(ext) && IsExt(ext) && ext != ""
            && printed != "" && Solid(printed) && forall x <- printed :: x !in ['\n', '/', '#', '?']
  {
    EscapeDecodes(high, low, rest);
    DecodedIsExt(high, low, rest);
    EscapedIsSolid(high, low, rest);
  }

  lemma DecodedIsExt(high: char, low: char, rest: string)
    requires IsHex(high) && IsHex(low) && Character(high, low) != '.' && Character(high, low) != '/'
    requires forall r <- rest :: IsLetterOrDigit(r)
    ensures IsExt(Decoded(high, low, rest)) && Decoded(high, low, rest) != ""
  {
    var ext := Decoded(high, low, rest);
    assert M4S == ".m4s" && M4S[1..] == "m4s" && ext[1..] == "m4s" + ext[4..5] + rest;
  }

  lemma EscapedIsSolid(high: char, low: char, rest: string)
    requires IsHex(high) && IsHex(low) && forall r <- rest :: IsLetterOrDigit(r)
    ensures var printed := Escaped(high, low, rest);
            printed != "" && Solid(printed) && forall x <- printed :: x !in ['\n', '/', '#', '?']
  {
    forall x <- Escaped(high, low, rest) ensures !IsSpace(x) && x !in ['\n', '/', '#', '?'] {
      assert x in M4S || x == '%' || x == high || x == low || x in rest;
    }
  }

  lemma EscapeReads(cid: string, high: char, low: char, rest: string)
    requires ValidCid(cid) && IsHex(high) && IsHex(low)
    requires Character(high, low) != '.' && Character(high, low) != '/'
    requires forall r <- rest :: IsLetterOrDigit(r)
    ensures var ext := Decoded(high, low, rest);
            && Character(high, low) in ext
            && RefOf(cid + Escaped(high, low, rest), ParseReference) == Some(Ref(cid, ext))
  {
    EscapedIsWritten(high, low, rest);
    EscapedNameReads(cid, Escaped(high, low, rest), Decoded(high, low, rest));
    InTheMiddle(M4S, Character(high, low), rest);
  }

  /** A library in which every playlist is the same text, and nothing is withdrawn. */
  function OnePlaylist(content: string): Library { Library(cid => Some(content), cid => false) }

  lemma PlaylistExtFacts()
    ensures IsPlainExt(PLAYLIST_EXT) && Solid(PLAYLIST_EXT) && '\n' !in PLAYLIST_EXT
  {
  }

  lemma OneMasterLine(cid: string, ext: string, parse: Parse)
    requires Relative(parse) && ValidCid(cid) && IsPlainExt(ext) && Solid(ext) && '\n' !in ext
    ensures Split(cid + ext, '\n') == [cid + ext] && MasterPick(cid + ext) == Some(cid + ext)
    ensures RefOf(cid + ext, parse) == Some(Ref(cid, ext))
  {
    CidChars(cid);
    var line := cid + ext;
    SplitFirst(line, "", '\n');
    TrimSolid(line);
    assert IsLetterOrDigit(line[0]);
    PrintedName(cid, ext, parse);
  }

  /** A master with one playlist. */
  lemma OnePlaylistMaster(content: string)
    ensures PlaylistOf(SampleCid() + PLAYLIST_EXT, 0, OnePlaylist(content), ParseReference) == Some(content)
  {
    var line := SampleCid() + PLAYLIST_EXT;
    PlaylistExtFacts();
    ParsesRelative();
    OneMasterLine(SampleCid(), PLAYLIST_EXT, ParseReference);
    NextReference([line], line, 0, MasterPick, MasterRead(ParseReference));
    PlaylistRefIs(line, ParseReference);
  }

  lemma InTheMiddle(a: string, c: char, b: string)
    ensures c in a + [c] + b
  {
    assert (a + [c] + b)[|a|] == c;
  }

  /** One of the marks that a request cuts at or decodes. */
  predicate IsMark(c: char) { c == '#' || c == '?' || c == '%' }

  /** What a player is sent for the first line of the only playlist there is. */
  function SentForFirst(playlist: string, link: string): Option<Ref>
    requires VariantLines(playlist, 0, "", ParseReference).Some?
  {
    var text := Split(Join(VariantLines(playlist, 0, "", ParseReference).value, '\n'), '\n');
    SentFor(text[0], link, SampleCid() + PLAYLIST_EXT, OnePlaylist(playlist), ParseReference)
  }

  /** A playlist of one line with a reference that is not read whole, or not requested as it is read. */
  lemma OneLineIsLost(playlist: string, link: string, value: string, ref: Ref)
    requires IsLink(link) && '\n' !in playlist && !Unclosed(playlist)
    requires VariantPick(playlist) == Some(value) && RefOf(value, ParseReference) == Some(ref)
    requires !IsBare(ref.ext) || !ReadWhole(IsTag(playlist), ref.ext, "")
    ensures VariantLines(playlist, 0, "", ParseReference).Some? && SentForFirst(playlist, link) == None
  {
    SplitFirst(playlist, "", '\n');
    OneLineIsRewritten(playlist, value, ref, "", ParseReference);
    OnePlaylistMaster(playlist);
    OneLineIsRefused(playlist, link, SampleCid() + PLAYLIST_EXT, value, ref, "", OnePlaylist(playlist), ParseReference);
  }

  lemma OneLineIsRewritten(playlist: string, value: string, ref: Ref, suffix: string, parse: Parse)
    requires Split(playlist, '\n') == [playlist] && !Unclosed(playlist)
    requires VariantPick(playlist) == Some(value) && RefOf(value, parse) == Some(ref)
    ensures VariantLines(playlist, 0, suffix, parse).Some?
  {
    OneReference(playlist, value, VariantPick, VariantRead(parse));
    VariantRewrittenIff(playlist, 0, suffix, parse);
  }

  lemma OneLineIsRefused(playlist: string, link: string, master: string, value: string, ref: Ref, suffix: string,
                         lib: Library, parse: Parse)
    requires Split(playlist, '\n') == [playlist] && IsLink(link) && IsQuery(suffix)
    requires VariantLines(playlist, 0, suffix, parse).Some? && PlaylistOf(master, 0, lib, parse) == Some(playlist)
    requires VariantPick(playlist) == Some(value) && RefOf(value, parse) == Some(ref)
    requires !IsBare(ref.ext) || !ReadWhole(IsTag(playlist), ref.ext, suffix)
    ensures var text := Split(Join(VariantLines(playlist, 0, suffix, parse).value, '\n'), '\n');
            SentFor(text[0], link, master, lib, parse) == None
  {
    OneReference(playlist, value, VariantPick, VariantRead(parse));
    NthIsThere(VariantRefs(playlist, parse), 0);
    ReadSegmentIsServed(link, master, 0, playlist, suffix, lib, parse, 0, 0);
  }

  lemma OneReference(line: string, value: string, pick: Pick, read: ReadRef)
    requires pick(line) == Some(value)
    ensures References([line], pick, read) == [read(value)] && IsLineOf([line], 0, 0, pick, read)
  {
    assert [line][1..] == [] && [line][..0] == [];
  }

  // ---------- On a line of its own ----------

  /**
   A file whose extension holds an escaped fragment mark, query mark or percent sign is not found by the reference
   that a player reads for it.
   */
  lemma EscapedMarksAreLost(link: string, high: char, low: char, rest: string)
    requires IsLink(link) && IsHex(high) && IsHex(low) && IsMark(Character(high, low))
    requires forall r <- rest :: IsLetterOrDigit(r)
    ensures var playlist := SampleCid() + Escaped(high, low, rest);
            && VariantRefs(playlist, ParseReference) == [Some(Ref(SampleCid(), Decoded(high, low, rest)))]
            && VariantLines(playlist, 0, "", ParseReference).Some? && SentForFirst(playlist, link) == None
  {
    InTheMiddle(M4S, Character(high, low), rest);
    OneEscape(SampleCid(), high, low, rest);
    EscapedIsLost(link, SampleCid(), high, low, rest);
  }

  /** So is one whose extension ends in escaped white space. */
  lemma EscapedBlankIsLost(link: string, high: char, low: char)
    requires IsLink(link) && IsHex(high) && IsHex(low) && IsSpace(Character(high, low))
    ensures var playlist := SampleCid() + Escaped(high, low, "");
            && VariantRefs(playlist, ParseReference) == [Some(Ref(SampleCid(), Decoded(high, low, "")))]
            && VariantLines(playlist, 0, "", ParseReference).Some? && SentForFirst(playlist, link) == None
  {
    BlankEnd(M4S, Character(high, low));
    OneEscape(SampleCid(), high, low, "");
    EscapedIsLost(link, SampleCid(), high, low, "");
  }

  lemma BlankEnd(a: string, c: char)
    requires IsSpace(c)
    ensures EndsBlank(a + [c] + "")
  {
    assert (a + [c] + "")[|a|] == c;
  }

  lemma EscapedIsLost(link: string, cid: string, high: char, low: char, rest: string)
    requires cid == SampleCid() && IsLink(link) && IsHex(high) && IsHex(low)
    requires Character(high, low) != '.' && Character(high, low) != '/' && forall r <- rest :: IsLetterOrDigit(r)
    requires !IsBare(Decoded(high, low, rest)) || !ReadWhole(false, Decoded(high, low, rest), "")
    ensures var playlist := cid + Escaped(high, low, rest);
            VariantLines(playlist, 0, "", ParseReference).Some? && SentForFirst(playlist, link) == None
  {
    var playlist := cid + Escaped(high, low, rest);
    EscapeReads(cid, high, low, rest);
    EscapedIsOneLine(cid, high, low, rest);
    NoTag(playlist);
    OneLineIsLost(playlist, link, playlist, Ref(cid, Decoded(high, low, rest)));
  }

  /** A file whose extension holds an escaped newline makes two lines of one when it is printed. */
  lemma EscapedNewlineBreaksLine(suffix: string, rest: string)
    requires forall r <- rest :: IsLetterOrDigit(r)
    ensures var playlist := SampleCid() + Escaped('0', 'A', rest);
            && VariantLines(playlist, 0, suffix, ParseReference).Some?
            && LineCount(Join(VariantLines(playlist, 0, suffix, ParseReference).value, '\n')) != LineCount(playlist)
  {
    var playlist := SampleCid() + Escaped('0', 'A', rest);
    OneEscape(SampleCid(), '0', 'A', rest);
    EscapedIsOneLine(SampleCid(), '0', 'A', rest);
    NoTag(playlist);
    InTheMiddle(M4S, '\n', rest);
    NewlineBreaks(playlist, suffix, Ref(SampleCid(), Decoded('0', 'A', rest)));
  }

  lemma NewlineBreaks(playlist: string, suffix: string, ref: Ref)
    requires VariantRefs(playlist, ParseReference) == [Some(ref)] && '\n' in ref.ext
    requires forall l <- Split(playlist, '\n') :: !Unclosed(l)
    ensures VariantLines(playlist, 0, suffix, ParseReference).Some?
    ensures LineCount(Join(VariantLines(playlist, 0, suffix, ParseReference).value, '\n')) != LineCount(playlist)
  {
    VariantRewrittenIff(playlist, 0, suffix, ParseReference);
    assert Some(ref) in VariantRefs(playlist, ParseReference);
    VariantKeepsLinesIff(playlist, 0, suffix, ParseReference);
  }

  lemma EscapedIsOneLine(cid: string, high: char, low: char, rest: string)
    requires ValidCid(cid) && IsHex(high) && IsHex(low) && forall r <- rest :: IsLetterOrDigit(r)
    ensures var line := cid + Escaped(high, low, rest);
            && line != "" && IsLetterOrDigit(line[0]) && '\n' !in line && '"' !in line
            && VariantPick(line) == Some(line) && !IsTag(line)
  {
    CidChars(cid);
    var line := cid + Escaped(high, low, rest);
    assert Solid(M4S) && '"' !in M4S;
    forall x <- line ensures !IsSpace(x) && x != '"' {
      assert x in cid || x in M4S || x == '%' || x == high || x == low || x in rest;
    }
    TrimSolid(line);
    assert IsLetterOrDigit(line[0]);
  }

  lemma NoTag(line: string)
    requires '\n' !in line && !IsTag(line)
    ensures !Unclosed(line) && forall l <- Split(line, '\n') :: !Unclosed(l)
  {
    SplitFirst(line, "", '\n');
  }

  // ---------- Values in tags ----------

  /** A map tag with a value. */
  function MapTag(value: string): string { Framed(MAP_TAG, MARKER, value, "") }

  lemma MapTagWords()
    ensures MAP_TAG[0] == '#' && '"' !in MAP_TAG && MARKER == "URI=" + ['"'] && '"' !in "URI="
  {
  }

  lemma MapTagReads(value: string)
    requires '"' !in value
    ensures IsTag(MapTag(value)) && Trim(MapTag(value)) != "" && VariantPick(MapTag(value)) == Some(value)
  {
    MapTagWords();
    var line := MapTag(value);
    Seqs.Assoc(MAP_TAG, MARKER, value + (['"'] + ""));
    FindAfterQuoteless(MAP_TAG, "URI=", value + (['"'] + ""));
    FramedUri(MAP_TAG, MARKER, value, "");
    assert line[0] == MAP_TAG[0];
    TagIsHead(line);
    assert TrimLeft(line) == line;
    TrimRightHead(line);
  }

  lemma EmptyIsRefused()
    ensures VariantRead(ParseReference)("") == None
  {
    NothingParsed("");
    BaseOfNothing("");
    ShortIsNoName("", "", ParseReference);
  }

  lemma BaseOfNothing(path: string)
    requires path == ""
    ensures |Base(path)| == 1
  {
  }

  lemma NothingParsed(s: string)
    requires s == ""
    ensures Trim(s) == s && ParseReference(s) == Some(s)
  {
    TrimSolid(s);
    PathCuts(s);
    UnescapeShrinks(s);
  }

  lemma ShortIsNoName(value: string, path: string, parse: Parse)
    requires Trim(value) == value && parse(value) == Some(path) && |Base(path)| < 46
    ensures RefOf(value, parse) == None
  {
    var name := Base(path);
    WithoutExtIsShort(name);
    if ValidCid(WithoutExt(name)) {
      ValidIsLong(WithoutExt(name));
    }
  }

  lemma WithoutExtIsShort(name: string)
    ensures |WithoutExt(name)| <= |name|
  {
  }

  lemma ValidIsLong(cid: string)
    requires ValidCid(cid)
    ensures |cid| >= 46
  {
  }

  /** The map tag `#EXT-X-MAP:URI=""` hides the file behind it from the indexed route, and from that one only. */
  lemma EmptyMapHidesFile()
    ensures var lines, read := [MapTag(""), SampleCid() + M4S], VariantRead(ParseReference);
            && Nth(References(lines, ChildPick, read), 0) == Some(Ref(SampleCid(), M4S))
            && forall k :: Nth(References(lines, VariantPick, read), k).None?
  {
    var name := SampleCid() + M4S;
    FileLine(SampleCid());
    MapTagReads("");
    EmptyIsRefused();
    EmptyValueDiffers(MapTag(""), name, VariantPick(name).value, VariantRead(ParseReference));
  }

  /** A map tag whose file has an escaped quote in its extension: that file is not found either. */
  lemma EscapedQuoteIsCut(link: string, rest: string)
    requires IsLink(link) && forall r <- rest :: IsLetterOrDigit(r)
    ensures var playlist := MapTag(SampleCid() + Escaped('2', '2', rest));
            VariantLines(playlist, 0, "", ParseReference).Some? && SentForFirst(playlist, link) == None
  {
    EscapedQuoteReads(SampleCid(), rest);
    QuoteIsLost(link, SampleCid() + Escaped('2', '2', rest), Ref(SampleCid(), Decoded('2', '2', rest)));
  }

  lemma EscapedQuoteReads(cid: string, rest: string)
    requires ValidCid(cid) && forall r <- rest :: IsLetterOrDigit(r)
    ensures '"' in Decoded('2', '2', rest)
    ensures var value := cid + Escaped('2', '2', rest);
            '"' !in value && '\n' !in value && RefOf(value, ParseReference) == Some(Ref(cid, Decoded('2', '2', rest)))
  {
    assert IsHex('2') && HexValue('2') == 2;
    EscapeReads(cid, '2', '2', rest);
    EscapedIsOneLine(cid, '2', '2', rest);
  }

  lemma QuoteIsLost(link: string, value: string, ref: Ref)
    requires IsLink(link) && '"' !in value && '\n' !in value && RefOf(value, ParseReference) == Some(ref)
    requires '"' in ref.ext
    ensures VariantLines(MapTag(value), 0, "", ParseReference).Some? && SentForFirst(MapTag(value), link) == None
  {
    MapTagReads(value);
    MapTagIsOneLine(value);
    ReadIsClosed(MapTag(value), value);
    OneLineIsLost(MapTag(value), link, value, ref);
  }

  lemma MapTagIsOneLine(value: string)
    requires '\n' !in value
    ensures '\n' !in MapTag(value)
  {
    assert '\n' !in MAP_TAG && '\n' !in MARKER;
  }

  lemma ReadIsClosed(line: string, value: string)
    requires VariantPick(line) == Some(value)
    ensures !Unclosed(line)
  {
  }

  /** A tag in which a value begins and does not end. */
  function OpenTag(): string { MAP_TAG + MARKER }

  /** Behind such a tag a file is still found by its index, but the playlist is not rewritten. */
  lemma OpenTagRefusesPlaylist(p: nat, suffix: string)
    ensures var content := Join([OpenTag(), SampleCid() + M4S], '\n');
            && VariantLines(content, p, suffix, ParseReference) == None
            && Nth(VariantRefs(content, ParseReference), 0) == Some(Ref(SampleCid(), M4S))
  {
    FileLine(SampleCid());
    OpenTagIsUnclosed();
    OpenTagAndFile(OpenTag(), SampleCid() + M4S, Ref(SampleCid(), M4S), p, suffix, ParseReference);
  }

  lemma FileLine(cid: string)
    requires ValidCid(cid)
    ensures VariantPick(cid + M4S).Some? && '\n' !in cid + M4S
    ensures RefOf(VariantPick(cid + M4S).value, ParseReference) == Some(Ref(cid, M4S))
  {
    ParsesRelative();
    assert IsPlainExt(M4S) && Solid(M4S) && '\n' !in M4S by {
      ExtensionsArePlain();
    }
    NameReads(cid, M4S, ParseReference);
    CidChars(cid);
  }

  lemma OpenTagIsUnclosed()
    ensures Unclosed(OpenTag()) && VariantPick(OpenTag()) == None && '\n' !in OpenTag()
  {
    MapTagWords();
    assert '\n' !in MAP_TAG && '\n' !in MARKER;
    var line := OpenTag();
    assert line + "" == line;
    FindAfterQuoteless(MAP_TAG, "URI=", "");
    assert line[|MAP_TAG| + |MARKER|..] == "";
    assert line[0] == MAP_TAG[0];
    TagIsHead(line);
    assert TrimLeft(line) == line;
  }

  lemma OpenTagAndFile(tag: string, name: string, ref: Ref, p: nat, suffix: string, parse: Parse)
    requires Unclosed(tag) && VariantPick(tag) == None && '\n' !in tag && '\n' !in name
    requires VariantPick(name).Some? && RefOf(VariantPick(name).value, parse) == Some(ref)
    ensures VariantLines(Join([tag, name], '\n'), p, suffix, parse) == None
    ensures Nth(VariantRefs(Join([tag, name], '\n'), parse), 0) == Some(ref)
  {
    var content, lines := Join([tag, name], '\n'), [tag, name];
    SplitOfJoin(lines, '\n');
    assert tag in lines;
    VariantRewrittenIff(content, p, suffix, parse);
    assert lines[1..] == [name];
    OneReference(name, VariantPick(name).value, VariantPick, VariantRead(parse));
  }
}
