/** The indices that rewriting prints are those that requests are resolved by. */
module LinkedAgreement {
  import opened LinkedPlaylists
  import opened Options
  import opened PlaylistRef
  import Seqs
  import opened Text

  // ---------- Counting references ----------

  /** Editor and resolver see the same references: indexed lines are those picked, and all they name is accepted. */
  ghost predicate Follows(edit: Editor, pick: Pick, read: ReadRef) {
    forall line, k {:trigger edit(line, k)} ::
      match edit(line, k)
      case Refused => true
      case Plain(_) => pick(line).None?
      case Indexed(_) => pick(line).Some? && read(pick(line).value).Some?
  }

  /** How many references come before line i. */
  function IndexAt(lines: seq<string>, i: nat, pick: Pick, read: ReadRef): nat
    requires i <= |lines|
  {
    |References(lines[..i], pick, read)|
  }

  lemma {:induction false} ReferencesConcat(a: seq<string>, b: seq<string>, pick: Pick, read: ReadRef)
    ensures References(a + b, pick, read) == References(a, pick, read) + References(b, pick, read)
  {
    if a == [] {
      assert a + b == b;
    } else {
      assert (a + b)[1..] == a[1..] + b;
      ReferencesConcat(a[1..], b, pick, read);
    }
  }

  /** A rewritten line is its edit under the number of references before it. */
  lemma {:induction false} RewrittenLine(lines: seq<string>, k: nat, edit: Editor, pick: Pick, read: ReadRef, i: nat)
    requires Follows(edit, pick, read) && Rewritten(lines, k, edit).Some? && i < |lines|
    ensures |Rewritten(lines, k, edit).value| == |lines|
    ensures var e := edit(lines[i], k + IndexAt(lines, i, pick, read));
            !e.Refused? && Rewritten(lines, k, edit).value[i] == e.line
  {
    assert lines[..0] == [];
    if i == 0 {
      if |lines| > 1 {
        RewrittenLine(lines[1..], k + if edit(lines[0], k).Indexed? then 1 else 0, edit, pick, read, 0);
      }
    } else {
      RewrittenLine(lines[1..], k + if edit(lines[0], k).Indexed? then 1 else 0, edit, pick, read, i - 1);
      assert lines[..i][1..] == lines[1..][..i - 1];
    }
  }

  lemma {:induction false} AllAccepted(lines: seq<string>, k: nat, edit: Editor, pick: Pick, read: ReadRef)
    requires Follows(edit, pick, read) && Rewritten(lines, k, edit).Some?
    ensures forall r <- References(lines, pick, read) :: r.Some?
  {
    if lines != [] {
      AllAccepted(lines[1..], k + if edit(lines[0], k).Indexed? then 1 else 0, edit, pick, read);
    }
  }

  /** The reference of line i is the one counted at its index. */
  lemma ReferenceAt(lines: seq<string>, i: nat, pick: Pick, read: ReadRef)
    requires i < |lines| && pick(lines[i]).Some?
    ensures var k := IndexAt(lines, i, pick, read);
            k < |References(lines, pick, read)| && References(lines, pick, read)[k] == read(pick(lines[i]).value)
  {
    assert lines == lines[..i] + lines[i..];
    ReferencesConcat(lines[..i], lines[i..], pick, read);
  }

  /** Every reference is that of some line. */
  lemma {:induction false} LineOfReference(lines: seq<string>, k: nat, pick: Pick, read: ReadRef) returns (i: nat)
    requires k < |References(lines, pick, read)|
    ensures i < |lines| && pick(lines[i]).Some? && IndexAt(lines, i, pick, read) == k
  {
    assert lines[..0] == [];
    if pick(lines[0]).Some? && k == 0 {
      i := 0;
    } else {
      var j := LineOfReference(lines[1..], k - if pick(lines[0]).Some? then 1 else 0, pick, read);
      i := j + 1;
      assert lines[..i][1..] == lines[1..][..j];
    }
  }

  lemma VariantFollows(names: Names, parse: Parse)
    ensures Follows(VariantEditor(names, parse), VariantPick, VariantRead(parse))
  {
    forall line, k: nat
      ensures match EditVariantLine(line, k, names, parse)
              case Refused => true
              case Plain(_) => VariantPick(line).None?
              case Indexed(_) => VariantPick(line).Some? && RefOf(VariantPick(line).value, parse).Some?
    {
      TrimKeepsUri(line);
    }
  }

  lemma MasterFollows(names: Names, poster: string, parse: Parse)
    ensures Follows(MasterEditor(names, poster, parse), MasterPick, MasterRead(parse))
  {
  }

  // ---------- When rewriting succeeds ----------

  /** A tag in which a value begins and does not end. */
  predicate Unclosed(line: string) { IsTag(line) && Contains(line, MARKER) && PlaylistUri(line).None? }

  lemma {:induction false} RewrittenIff(lines: seq<string>, k: nat, edit: Editor, refused: string -> bool)
    requires forall line, n {:trigger edit(line, n)} :: edit(line, n).Refused? <==> refused(line)
    ensures Rewritten(lines, k, edit).Some? <==> forall l <- lines :: !refused(l)
  {
    if lines != [] {
      assert lines == [lines[0]] + lines[1..];
      match edit(lines[0], k) {
        case Refused =>
        case Plain(_) => RewrittenIff(lines[1..], k, edit, refused);
        case Indexed(_) => RewrittenIff(lines[1..], k + 1, edit, refused);
      }
    }
  }

  lemma {:induction false} AllAcceptedIff(lines: seq<string>, pick: Pick, read: ReadRef)
    ensures (forall r <- References(lines, pick, read) :: r.Some?)
       <==> (forall l <- lines :: pick(l).Some? ==> read(pick(l).value).Some?)
  {
    if lines != [] {
      assert lines == [lines[0]] + lines[1..];
      AllAcceptedIff(lines[1..], pick, read);
      if pick(lines[0]).Some? {
        var refs := References(lines, pick, read);
        assert refs == [refs[0]] + refs[1..];
      }
    }
  }

  lemma VariantRefused(line: string, k: nat, names: Names, parse: Parse)
    ensures EditVariantLine(line, k, names, parse).Refused?
       <==> Unclosed(line) || (VariantPick(line).Some? && RefOf(VariantPick(line).value, parse).None?)
  {
    TrimKeepsUri(line);
  }

  lemma MasterRefused(line: string, k: nat, names: Names, poster: string, parse: Parse)
    ensures EditMasterLine(line, k, names, poster, parse).Refused?
       <==> Unclosed(line) || (MasterPick(line).Some? && PlaylistRefOf(MasterPick(line).value, parse).None?)
  {
    TrimKeepsUri(line);
  }

  /** The rewritten variant playlist, if rewriting succeeds. */
  function VariantLines(content: string, p: nat, suffix: string, parse: Parse): Option<seq<string>> {
    Rewritten(Split(content, '\n'), 0, VariantEditor(SegmentNames(p, suffix), parse))
  }

  function MasterLines(content: string, suffix: string, parse: Parse): Option<seq<string>> {
    Rewritten(Split(content, '\n'), 0, MasterEditor(PlaylistNames(suffix), "poster.jpg" + suffix, parse))
  }

  /** A variant playlist is rewritten exactly when all its references are accepted and no tag is left unclosed. */
  lemma VariantRewrittenIff(content: string, p: nat, suffix: string, parse: Parse)
    ensures VariantLines(content, p, suffix, parse).Some?
       <==> (forall r <- VariantRefs(content, parse) :: r.Some?) && (forall l <- Split(content, '\n') :: !Unclosed(l))
  {
    var names, lines := SegmentNames(p, suffix), Split(content, '\n');
    var edit := VariantEditor(names, parse);
    var refused := (l: string) => Unclosed(l) || (VariantPick(l).Some? && RefOf(VariantPick(l).value, parse).None?);
    forall line: string, n: nat ensures edit(line, n).Refused? <==> refused(line) {
      VariantRefused(line, n, names, parse);
    }
    RewrittenIff(lines, 0, edit, refused);
    AllAcceptedIff(lines, VariantPick, VariantRead(parse));
  }

  /** So is a master. */
  lemma MasterRewrittenIff(content: string, suffix: string, parse: Parse)
    ensures MasterLines(content, suffix, parse).Some?
       <==> (forall r <- MasterRefs(content, parse) :: r.Some?) && (forall l <- Split(content, '\n') :: !Unclosed(l))
  {
    var names, poster, lines := PlaylistNames(suffix), "poster.jpg" + suffix, Split(content, '\n');
    var edit := MasterEditor(names, poster, parse);
    var refused := (l: string) =>
      Unclosed(l) || (MasterPick(l).Some? && PlaylistRefOf(MasterPick(l).value, parse).None?);
    forall line: string, n: nat ensures edit(line, n).Refused? <==> refused(line) {
      MasterRefused(line, n, names, poster, parse);
    }
    RewrittenIff(lines, 0, edit, refused);
    AllAcceptedIff(lines, MasterPick, MasterRead(parse));
  }

  // ---------- Every printed index leads back ----------

  /** A line under an index: a tag keeps all but its value, any other line becomes the printed reference. */
  ghost predicate Carries(line: string, out: string, name: string) {
    if IsTag(line) then ReplaceUri(line, name) == Some(out) else out == name
  }

  /** In a tag, the printed reference is what a player reads, exactly when it holds no quote. */
  lemma TagReadsBack(line: string, out: string, name: string)
    requires IsTag(line) && Carries(line, out, name)
    ensures PlaylistUri(out) == Some(name) <==> '"' !in name
  {
    MarkerSolid();
    var _, _ := ReplacedReadsBack(line, MARKER, name);
  }

  lemma EditedLine(line: string, k: nat, names: Names, parse: Parse)
    requires !EditVariantLine(line, k, names, parse).Refused?
    ensures var out := EditVariantLine(line, k, names, parse).line;
            match VariantPick(line)
            case None => out == line
            case Some(value) => RefOf(value, parse).Some? && Carries(line, out, names(k, RefOf(value, parse).value.ext))
  {
    TrimKeepsUri(line);
  }

  /** Lines without a reference stay; the line of the k-th reference carries index k and the extension it had. */
  lemma VariantLineAgrees(content: string, p: nat, suffix: string, parse: Parse, i: nat)
    requires VariantLines(content, p, suffix, parse).Some? && i < |Split(content, '\n')|
    ensures var lines := Split(content, '\n');
            var out := VariantLines(content, p, suffix, parse).value;
            var k := IndexAt(lines, i, VariantPick, VariantRead(parse));
            && |out| == |lines|
            && match VariantPick(lines[i])
               case None => out[i] == lines[i]
               case Some(value) =>
                 && Nth(VariantRefs(content, parse), k).Some?
                 && Nth(VariantRefs(content, parse), k) == RefOf(value, parse)
                 && Carries(lines[i], out[i], SegmentReference(p, k, RefOf(value, parse).value.ext, suffix))
  {
    var lines, names, read := Split(content, '\n'), SegmentNames(p, suffix), VariantRead(parse);
    var edit := VariantEditor(names, parse);
    VariantFollows(names, parse);
    RewrittenLine(lines, 0, edit, VariantPick, read, i);
    var k := IndexAt(lines, i, VariantPick, read);
    assert edit(lines[i], k) == EditVariantLine(lines[i], k, names, parse);
    EditedLine(lines[i], k, names, parse);
    if VariantPick(lines[i]).Some? {
      AcceptedAt(lines, i, edit, VariantPick, read);
      assert read(VariantPick(lines[i]).value) == RefOf(VariantPick(lines[i]).value, parse);
    }
  }

  lemma AcceptedAt(lines: seq<string>, i: nat, edit: Editor, pick: Pick, read: ReadRef)
    requires Follows(edit, pick, read) && Rewritten(lines, 0, edit).Some? && i < |lines| && pick(lines[i]).Some?
    ensures read(pick(lines[i]).value).Some?
    ensures Nth(References(lines, pick, read), IndexAt(lines, i, pick, read)) == read(pick(lines[i]).value)
  {
    ReferenceAt(lines, i, pick, read);
    AllAccepted(lines, 0, edit, pick, read);
    NthIsThere(References(lines, pick, read), IndexAt(lines, i, pick, read));
  }

  lemma IndexGrows(lines: seq<string>, i: nat, j: nat, pick: Pick, read: ReadRef)
    requires i < j <= |lines| && pick(lines[i]).Some?
    ensures IndexAt(lines, i, pick, read) < IndexAt(lines, j, pick, read)
  {
    assert lines[..j] == lines[..i] + lines[i..j];
    ReferencesConcat(lines[..i], lines[i..j], pick, read);
  }

  /** The line carries the k-th reference. */
  ghost predicate IsLineOf(lines: seq<string>, i: nat, k: nat, pick: Pick, read: ReadRef) {
    i < |lines| && pick(lines[i]).Some? && IndexAt(lines, i, pick, read) == k
  }

  lemma OneLineOf(lines: seq<string>, i: nat, j: nat, k: nat, pick: Pick, read: ReadRef)
    requires IsLineOf(lines, i, k, pick, read) && IsLineOf(lines, j, k, pick, read)
    ensures i == j
  {
    if i < j {
      IndexGrows(lines, i, j, pick, read);
    } else if j < i {
      IndexGrows(lines, j, i, pick, read);
    }
  }

  /** One line carries the k-th reference, and no other does. */
  ghost predicate HasOneLine(lines: seq<string>, k: nat, pick: Pick, read: ReadRef) {
    exists i: nat :: IsLineOf(lines, i, k, pick, read) && forall j: nat :: IsLineOf(lines, j, k, pick, read) ==> j == i
  }

  lemma LinesOf(lines: seq<string>, k: nat, pick: Pick, read: ReadRef)
    ensures k < |References(lines, pick, read)| <==> HasOneLine(lines, k, pick, read)
  {
    if k < |References(lines, pick, read)| {
      var i := LineOfReference(lines, k, pick, read);
      assert IsLineOf(lines, i, k, pick, read);
      forall j: nat | IsLineOf(lines, j, k, pick, read) ensures j == i {
        OneLineOf(lines, i, j, k, pick, read);
      }
    }
    forall i: nat | IsLineOf(lines, i, k, pick, read) ensures k < |References(lines, pick, read)| {
      ReferenceAt(lines, i, pick, read);
    }
  }

  /** The indices are those below the number of references, each on exactly one line, and none beyond resolves. */
  lemma VariantIndicesAreAll(content: string, p: nat, suffix: string, parse: Parse, k: nat)
    requires VariantLines(content, p, suffix, parse).Some?
    ensures Nth(VariantRefs(content, parse), k).Some? <==> k < |VariantRefs(content, parse)|
    ensures k < |VariantRefs(content, parse)| <==> HasOneLine(Split(content, '\n'), k, VariantPick, VariantRead(parse))
  {
    VariantRewrittenIff(content, p, suffix, parse);
    NthIsThere(VariantRefs(content, parse), k);
    LinesOf(Split(content, '\n'), k, VariantPick, VariantRead(parse));
  }

  /** What becomes of a line of a master. */
  lemma EditedMasterLine(line: string, k: nat, names: Names, poster: string, parse: Parse)
    requires !EditMasterLine(line, k, names, poster, parse).Refused?
    ensures var out := EditMasterLine(line, k, names, poster, parse).line;
            if MasterPick(line).Some? then
              PlaylistRefOf(MasterPick(line).value, parse).Some? && out == names(k, PLAYLIST_EXT)
            else if IsTag(line) && Contains(line, MARKER) then ReplaceUri(line, poster) == Some(out)
            else out == line
  {
    TrimKeepsUri(line);
  }

  /** The same for the playlists of a master, where tags keep all but the address of their poster. */
  lemma MasterLineAgrees(content: string, suffix: string, parse: Parse, i: nat)
    requires MasterLines(content, suffix, parse).Some? && i < |Split(content, '\n')|
    ensures var lines := Split(content, '\n');
            var out := MasterLines(content, suffix, parse).value;
            var k := IndexAt(lines, i, MasterPick, MasterRead(parse));
            && |out| == |lines|
            && match MasterPick(lines[i])
               case None =>
                 if IsTag(lines[i]) && Contains(lines[i], MARKER) then
                   ReplaceUri(lines[i], "poster.jpg" + suffix) == Some(out[i])
                 else
                   out[i] == lines[i]
               case Some(value) =>
                 && out[i] == PlaylistReference(k, PLAYLIST_EXT, suffix)
                 && Nth(MasterRefs(content, parse), k).Some?
                 && Nth(MasterRefs(content, parse), k) == PlaylistRefOf(value, parse)
  {
    var lines, read := Split(content, '\n'), MasterRead(parse);
    var names, poster := PlaylistNames(suffix), "poster.jpg" + suffix;
    var edit := MasterEditor(names, poster, parse);
    MasterFollows(names, poster, parse);
    RewrittenLine(lines, 0, edit, MasterPick, read, i);
    var k := IndexAt(lines, i, MasterPick, read);
    assert edit(lines[i], k) == EditMasterLine(lines[i], k, names, poster, parse);
    EditedMasterLine(lines[i], k, names, poster, parse);
    if MasterPick(lines[i]).Some? {
      AcceptedAt(lines, i, edit, MasterPick, read);
      assert read(MasterPick(lines[i]).value) == PlaylistRefOf(MasterPick(lines[i]).value, parse);
    }
  }

  // ---------- The number of lines ----------

  function LineCount(text: string): nat { |Split(text, '\n')| }

  /** A text made of lines has as many lines exactly when none of them holds a newline. */
  lemma {:induction false} JoinedLines(lines: seq<string>)
    requires lines != []
    ensures LineCount(Join(lines, '\n')) >= |lines|
    ensures LineCount(Join(lines, '\n')) == |lines| <==> forall l <- lines :: '\n' !in l
  {
    Pieces(lines[0]);
    assert lines == [lines[0]] + lines[1..];
    if |lines| > 1 {
      JoinedLines(lines[1..]);
      SplitAt(lines[0], Join(lines[1..], '\n'), '\n');
    }
  }

  lemma Pieces(s: string)
    ensures LineCount(s) == 1 <==> '\n' !in s
  {
    var i := IndexOf(s, '\n');
    assert s == s[..i] + s[i..];
    assert '\n' !in s ==> i == |s|;
  }

  lemma FramedNewline(before: string, marker: string, value: string, rest: string, now: string)
    requires '\n' !in Framed(before, marker, value, rest)
    ensures '\n' in Framed(before, marker, now, rest) <==> '\n' in now
  {
    var line, out := Framed(before, marker, value, rest), Framed(before, marker, now, rest);
    assert forall c :: c in line <==> c in before || c in marker || c in value || c == '"' || c in rest;
    assert forall c :: c in out <==> c in before || c in marker || c in now || c == '"' || c in rest;
  }

  lemma ReplacedNewline(line: string, out: string, now: string)
    requires '\n' !in line && ReplaceUri(line, now) == Some(out)
    ensures '\n' in out <==> '\n' in now
  {
    MarkerSolid();
    var before, rest := ReplacedReadsBack(line, MARKER, now);
    FramedNewline(before, MARKER, UriOf(line, MARKER).value, rest, now);
  }

  lemma NameNewline(parts: seq<string>, name: string, ext: string, suffix: string)
    requires parts != [] && (forall p <- parts :: '\n' !in p) && '\n' !in name
    ensures '\n' in Join(parts + [name + (ext + suffix)], '/') <==> '\n' in ext || '\n' in suffix
  {
    JoinSnoc(parts, name + (ext + suffix), '/');
    JoinLacks(parts, '/', '\n');
  }

  lemma SegmentNewline(p: nat, k: nat, ext: string, suffix: string)
    ensures '\n' in SegmentReference(p, k, ext, suffix) <==> '\n' in ext || '\n' in suffix
  {
    ValueOfDigits(p);
    ValueOfDigits(k);
    assert '\n' !in SEGMENT && !IsDigit('\n');
    NameNewline(["..", SEGMENT, Digits(p)], Digits(k), ext, suffix);
  }

  lemma PlaylistNewline(p: nat, suffix: string)
    ensures '\n' in PlaylistReference(p, PLAYLIST_EXT, suffix) <==> '\n' in suffix
  {
    ValueOfDigits(p);
    assert '\n' !in PLAYLIST && '\n' !in PLAYLIST_EXT && !IsDigit('\n');
    NameNewline([PLAYLIST], Digits(p), PLAYLIST_EXT, suffix);
  }

  /** Whether line i of a rewritten variant breaks. */
  lemma VariantLineBreaks(content: string, p: nat, suffix: string, parse: Parse, i: nat)
    requires VariantLines(content, p, suffix, parse).Some? && i < |Split(content, '\n')|
    ensures var out := VariantLines(content, p, suffix, parse).value;
            && |out| == |Split(content, '\n')|
            && ('\n' in out[i] <==>
                  match VariantPick(Split(content, '\n')[i])
                  case None => false
                  case Some(value) => RefOf(value, parse).Some? &&
                                      ('\n' in RefOf(value, parse).value.ext || '\n' in suffix))
  {
    var lines := Split(content, '\n');
    JoinOfSplit(content, '\n');
    VariantLineAgrees(content, p, suffix, parse, i);
    if VariantPick(lines[i]).Some? {
      var ext := RefOf(VariantPick(lines[i]).value, parse).value.ext;
      var k := IndexAt(lines, i, VariantPick, VariantRead(parse));
      SegmentNewline(p, k, ext, suffix);
      if IsTag(lines[i]) {
        ReplacedNewline(lines[i], VariantLines(content, p, suffix, parse).value[i],
                        SegmentReference(p, k, ext, suffix));
      }
    }
  }

  lemma {:induction false} SomeReference(lines: seq<string>, pick: Pick, read: ReadRef, bad: Option<Ref> -> bool)
    ensures (exists r <- References(lines, pick, read) :: bad(r))
       <==> (exists l <- lines :: pick(l).Some? && bad(read(pick(l).value)))
  {
    if lines != [] {
      assert lines == [lines[0]] + lines[1..];
      SomeReference(lines[1..], pick, read, bad);
      if pick(lines[0]).Some? {
        var refs := References(lines, pick, read);
        assert refs == [refs[0]] + refs[1..];
      }
    }
  }

  function BreaksLine(suffix: string): Option<Ref> -> bool {
    (r: Option<Ref>) => r.Some? && ('\n' in r.value.ext || '\n' in suffix)
  }

  /**
   A rewritten variant keeps its number of lines exactly when no extension in it holds a newline and, where a
   reference is printed, neither does the suffix.
   */
  lemma VariantKeepsLinesIff(content: string, p: nat, suffix: string, parse: Parse)
    requires VariantLines(content, p, suffix, parse).Some?
    ensures LineCount(Join(VariantLines(content, p, suffix, parse).value, '\n')) == LineCount(content)
       <==> forall r <- VariantRefs(content, parse) :: r.Some? && '\n' !in r.value.ext && '\n' !in suffix
  {
    var lines, out := Split(content, '\n'), VariantLines(content, p, suffix, parse).value;
    var read, bad := VariantRead(parse), BreaksLine(suffix);
    VariantLineBreaks(content, p, suffix, parse, 0);
    forall i: nat | i < |lines|
      ensures '\n' in out[i] <==> VariantPick(lines[i]).Some? && bad(read(VariantPick(lines[i]).value))
    {
      VariantLineBreaks(content, p, suffix, parse, i);
    }
    JoinedLines(out);
    SomeReference(lines, VariantPick, read, bad);
    VariantRewrittenIff(content, p, suffix, parse);
    SomeLine(lines, out, l => VariantPick(l).Some? && bad(read(VariantPick(l).value)));
  }

  lemma SomeLine(lines: seq<string>, out: seq<string>, breaks: string -> bool)
    requires |out| == |lines| && forall i: nat :: i < |lines| ==> ('\n' in out[i] <==> breaks(lines[i]))
    ensures (forall o <- out :: '\n' !in o) <==> !(exists l <- lines :: breaks(l))
  {
    if l :| l in lines && breaks(l) {
      var i: nat :| i < |lines| && lines[i] == l;
      assert out[i] in out;
    }
  }

  /** A tag whose value is printed anew. */
  predicate PrintsPoster(line: string) { IsTag(line) && Contains(line, MARKER) }

  lemma MasterLineBreaks(content: string, suffix: string, parse: Parse, i: nat)
    requires MasterLines(content, suffix, parse).Some? && i < |Split(content, '\n')|
    ensures var out := MasterLines(content, suffix, parse).value;
            var line := Split(content, '\n')[i];
            && |out| == |Split(content, '\n')|
            && ('\n' in out[i] <==> '\n' in suffix && (MasterPick(line).Some? || PrintsPoster(line)))
  {
    var lines := Split(content, '\n');
    JoinOfSplit(content, '\n');
    MasterLineAgrees(content, suffix, parse, i);
    if MasterPick(lines[i]).Some? {
      PlaylistNewline(IndexAt(lines, i, MasterPick, MasterRead(parse)), suffix);
    } else if PrintsPoster(lines[i]) {
      assert '\n' !in "poster.jpg";
      ReplacedNewline(lines[i], MasterLines(content, suffix, parse).value[i], "poster.jpg" + suffix);
    }
  }

  /** A rewritten master keeps its number of lines exactly when the suffix holds no newline or is printed nowhere. */
  lemma MasterKeepsLinesIff(content: string, suffix: string, parse: Parse)
    requires MasterLines(content, suffix, parse).Some?
    ensures LineCount(Join(MasterLines(content, suffix, parse).value, '\n')) == LineCount(content)
       <==> '\n' !in suffix || !(exists l <- Split(content, '\n') :: MasterPick(l).Some? || PrintsPoster(l))
  {
    var lines, out := Split(content, '\n'), MasterLines(content, suffix, parse).value;
    MasterLineBreaks(content, suffix, parse, 0);
    var breaks := (l: string) => '\n' in suffix && (MasterPick(l).Some? || PrintsPoster(l));
    forall i: nat | i < |lines| ensures '\n' in out[i] <==> breaks(lines[i]) {
      MasterLineBreaks(content, suffix, parse, i);
    }
    JoinedLines(out);
    SomeLine(lines, out, breaks);
  }
}
