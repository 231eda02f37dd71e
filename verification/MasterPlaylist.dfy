/** The master playlist of a video: posters and qualities, printed at upload and read for each request. */
module MasterPlaylist {
  import opened LinkedPlaylists
  import opened Options
  import opened PlaylistRef
  import Seqs
  import opened Text

  datatype Poster = Poster(variant: string, size: string, cid: string)

  datatype Quality = Quality(name: string, bandwidth: nat, resolution: string)

  const QUALITIES := [Quality("low", 500000, "426x760"), Quality("medium", 1500000, "720x1280"),
                      Quality("high", 4000000, "1080x1920")]

  const HEADER := "#EXTM3U"
  const POSTER_TAG := "#EXT-X-IAMFREE-POSTER:"
  const STREAM_TAG := "#EXT-X-STREAM-INF:BANDWIDTH="
  const SEGMENTS := "../segment"
  const JPG := ".jpg"
  const SIZE := "SIZE="
  const VARIANT := "VARIANT="

  // ---------- Printing ----------

  function PathOf(cid: string, ext: string): string { SEGMENTS + ['/'] + (cid + ext) }

  function UriAttribute(cid: string): string { MARKER + (PathOf(cid, JPG) + ['"']) }

  function Labels(p: Poster): seq<string> {
    (if p.variant == "" then [] else [VARIANT + p.variant]) + [SIZE + p.size]
  }

  function Attributes(p: Poster): seq<string> { Labels(p) + [UriAttribute(p.cid)] }

  function PosterLine(p: Poster): string { POSTER_TAG + Join(Attributes(p), ',') }

  function StreamLine(q: Quality): string {
    STREAM_TAG + Digits(q.bandwidth) + ",RESOLUTION=" + q.resolution + ",CODECS=\"avc1.42e01e\""
  }

  function PosterLines(posters: seq<Poster>): (r: seq<string>)
    ensures |r| == |posters| && forall i :: 0 <= i < |r| ==> r[i] == PosterLine(posters[i])
  {
    seq(|posters|, i requires 0 <= i < |posters| => PosterLine(posters[i]))
  }

  /** Two lines for each quality that there is. */
  function QualityLines(order: seq<Quality>, variants: map<string, string>): seq<string> {
    if order == [] then []
    else if order[0].name in variants
    then [StreamLine(order[0]), PathOf(variants[order[0].name], PLAYLIST_EXT)] + QualityLines(order[1..], variants)
    else QualityLines(order[1..], variants)
  }

  function MasterLines(posters: seq<Poster>, variants: map<string, string>): seq<string> {
    [HEADER] + PosterLines(posters) + QualityLines(QUALITIES, variants)
  }

  method BuildMasterPlaylist(variants: map<string, string>, posters: seq<Poster>) returns (r: string)
    ensures r == Lines(MasterLines(posters, variants))
  {
    var b := Lines([HEADER]);
    ghost var head := [HEADER];
    assert head + PosterLines(posters)[..0] == head;
    for i := 0 to |posters|
      invariant b == Lines(head + PosterLines(posters)[..i])
    {
      var line := PosterLine(posters[i]);
      assert PosterLines(posters)[..i + 1] == PosterLines(posters)[..i] + [line];
      LinesSnoc(head + PosterLines(posters)[..i], line);
      assert head + (PosterLines(posters)[..i] + [line]) == head + PosterLines(posters)[..i] + [line];
      b := b + line + "\n";
    }
    assert PosterLines(posters)[..|posters|] == PosterLines(posters);
    ghost var before := head + PosterLines(posters);
    var order := QUALITIES;
    ghost var done: seq<string> := [];
    assert before + done == before;
    for i := 0 to |order|
      invariant b == Lines(before + done)
      invariant done + QualityLines(order[i..], variants) == QualityLines(order, variants)
    {
      var q := order[i];
      assert order[i..][0] == q && order[i..][1..] == order[i + 1..];
      if q.name in variants {
        var info, path := StreamLine(q), PathOf(variants[q.name], PLAYLIST_EXT);
        TwoMore(before, done, info, path, QualityLines(order[i + 1..], variants));
        b := b + info + "\n";
        b := b + path + "\n";
        done := done + [info, path];
      }
    }
    assert order[|order|..] == [] && done + [] == done;
    return b;
  }

  lemma TwoMore(before: seq<string>, done: seq<string>, a: string, b: string, rest: seq<string>)
    ensures Lines(before + (done + [a, b])) == Lines(before + done) + a + "\n" + b + "\n"
    ensures done + ([a, b] + rest) == (done + [a, b]) + rest
  {
    LinesSnoc(before + done, a);
    LinesSnoc(before + done + [a], b);
    assert before + (done + [a, b]) == before + done + [a] + [b];
  }

  // ---------- The qualities read back ----------

  /** The playlists of the qualities there are, in their order. */
  function Present(order: seq<Quality>, variants: map<string, string>): seq<string> {
    if order == [] then []
    else (if order[0].name in variants then [variants[order[0].name]] else []) + Present(order[1..], variants)
  }

  /** The line that announces a quality. */
  ghost predicate Announces(line: string, q: Quality) {
    line == "#EXT-X-STREAM-INF:BANDWIDTH=" + Digits(q.bandwidth) + ",RESOLUTION=" + q.resolution
            + ",CODECS=\"avc1.42e01e\""
  }

  lemma StreamLineAnnounces(q: Quality)
    ensures Announces(StreamLine(q), q)
  {
  }

  /** The line announces some quality whose playlist that is. */
  ghost predicate AnnouncesOneOf(line: string, order: seq<Quality>, variants: map<string, string>, cid: string) {
    exists q <- order :: q.name in variants && variants[q.name] == cid && Announces(line, q)
  }

  /** The k-th playlist there is stands on the line behind the announcement of its own quality. */
  lemma {:induction false} QualityLinesInPairs(order: seq<Quality>, variants: map<string, string>, k: nat)
    requires k < |Present(order, variants)|
    ensures var lines, cids := QualityLines(order, variants), Present(order, variants);
            && |lines| == 2 * |cids| && lines[2 * k + 1] == PathOf(cids[k], PLAYLIST_EXT)
            && AnnouncesOneOf(lines[2 * k], order, variants, cids[k])
  {
    var rest := order[1..];
    PresentLines(order, variants);
    PresentLines(rest, variants);
    if order[0].name !in variants {
      QualityLinesInPairs(rest, variants, k);
      AnnouncedInMore(QualityLines(rest, variants)[2 * k], order, variants, Present(rest, variants)[k]);
    } else if k > 0 {
      QualityLinesInPairs(rest, variants, k - 1);
      AnnouncedInMore(QualityLines(rest, variants)[2 * (k - 1)], order, variants, Present(rest, variants)[k - 1]);
    } else {
      StreamLineAnnounces(order[0]);
      assert order[0] in order;
    }
  }

  lemma AnnouncedInMore(line: string, order: seq<Quality>, variants: map<string, string>, cid: string)
    requires order != [] && AnnouncesOneOf(line, order[1..], variants, cid)
    ensures AnnouncesOneOf(line, order, variants, cid)
  {
    var q :| q in order[1..] && q.name in variants && variants[q.name] == cid && Announces(line, q);
    assert q in order;
  }

  lemma {:induction false} PresentLines(order: seq<Quality>, variants: map<string, string>)
    ensures |QualityLines(order, variants)| == 2 * |Present(order, variants)|
  {
    if order != [] {
      PresentLines(order[1..], variants);
    }
  }

  function Named(cids: seq<string>): seq<Option<Ref>> {
    seq(|cids|, i requires 0 <= i < |cids| => Some(Ref(cids[i], PLAYLIST_EXT)))
  }

  /** A line that begins with a hash and holds one line only. */
  predicate IsHash(line: string) { line != "" && line[0] == '#' && '\n' !in line }

  lemma HashIsSkipped(line: string)
    requires IsHash(line)
    ensures MasterPick(line) == None
  {
    assert TrimLeft(line) == line;
    TrimRightHead(line);
  }

  lemma {:induction false} HashesAreSkipped(lines: seq<string>, rest: seq<string>, read: ReadRef)
    requires forall l <- lines :: IsHash(l)
    ensures References(lines + rest, MasterPick, read) == References(rest, MasterPick, read)
  {
    if lines == [] {
      assert lines + rest == rest;
    } else {
      assert (lines + rest)[1..] == lines[1..] + rest;
      HashIsSkipped(lines[0]);
      HashesAreSkipped(lines[1..], rest, read);
    }
  }

  lemma PathReads(cid: string, ext: string, parse: Parse)
    requires Relative(parse) && ValidCid(cid) && IsPlainExt(ext) && ext != ""
    ensures RefOf(PathOf(cid, ext), parse) == Some(Ref(cid, ext))
    ensures Solid(PathOf(cid, ext)) && PathOf(cid, ext)[0] == '.'
    ensures forall c <- PathOf(cid, ext) :: IsPlain(c)
  {
    assert SEGMENTS != "" && SEGMENTS[0] == '.' && (forall c <- SEGMENTS :: IsPlain(c)) by {
      SegmentsPlain();
    }
    PrintedInDirectory(SEGMENTS, cid, ext, parse);
    CidChars(cid);
    PlainIsSolid(PathOf(cid, ext));
  }

  lemma SegmentsPlain()
    ensures SEGMENTS != "" && SEGMENTS[0] == '.' && (forall c <- SEGMENTS :: IsPlain(c))
  {
  }

  lemma PlainIsSolid(s: string)
    requires forall c <- s :: IsPlain(c)
    ensures Solid(s) && '\n' !in s && '"' !in s && ',' !in s
  {
    forall c <- s ensures !IsSpace(c) {
      assert IsPlain(c);
    }
  }

  lemma PlaylistLineReads(cid: string, parse: Parse)
    requires Relative(parse) && ValidCid(cid)
    ensures MasterPick(PathOf(cid, PLAYLIST_EXT)) == Some(PathOf(cid, PLAYLIST_EXT))
    ensures PlaylistRefOf(PathOf(cid, PLAYLIST_EXT), parse) == Some(Ref(cid, PLAYLIST_EXT))
    ensures '\n' !in PathOf(cid, PLAYLIST_EXT)
  {
    assert IsPlainExt(PLAYLIST_EXT);
    var s := PathOf(cid, PLAYLIST_EXT);
    PathReads(cid, PLAYLIST_EXT, parse);
    PlainIsSolid(s);
    TrimSolid(s);
  }

  lemma StreamLineIsHash(q: Quality)
    requires '\n' !in q.resolution
    ensures IsHash(StreamLine(q))
  {
    ValueOfDigits(q.bandwidth);
    var a, b := STREAM_TAG, ",CODECS=\"avc1.42e01e\"";
    assert a[0] == '#' && '\n' !in a && '\n' !in b && '\n' !in ",RESOLUTION=";
    assert StreamLine(q)[0] == a[0];
    forall c <- StreamLine(q) ensures c != '\n' {
      assert c in a || c in Digits(q.bandwidth) || c in ",RESOLUTION=" || c in q.resolution || c in b;
    }
  }

  ghost predicate GoodQualities(order: seq<Quality>, variants: map<string, string>) {
    forall q <- order :: '\n' !in q.resolution && (q.name in variants ==> ValidCid(variants[q.name]))
  }

  lemma {:induction false} QualityLinesRead(order: seq<Quality>, variants: map<string, string>, rest: seq<string>,
                                            parse: Parse)
    requires Relative(parse) && GoodQualities(order, variants)
    ensures References(QualityLines(order, variants) + rest, MasterPick, MasterRead(parse))
         == Named(Present(order, variants)) + References(rest, MasterPick, MasterRead(parse))
  {
    var read := MasterRead(parse);
    if order == [] {
      assert QualityLines(order, variants) + rest == rest;
      assert Named(Present(order, variants)) == [];
    } else {
      QualityLinesRead(order[1..], variants, rest, parse);
      if order[0].name in variants {
        var cid := variants[order[0].name];
        var info, path := StreamLine(order[0]), PathOf(cid, PLAYLIST_EXT);
        var more, others := QualityLines(order[1..], variants), Present(order[1..], variants);
        OneQuality(order[0], cid, parse);
        TwoLines(info, path, more, rest, MasterPick, read);
        NamedCons(cid, others);
        Seqs.Assoc([Some(Ref(cid, PLAYLIST_EXT))], Named(others), References(rest, MasterPick, read));
      } else {
        assert [] + Present(order[1..], variants) == Present(order[1..], variants);
      }
    }
  }

  lemma NamedCons(cid: string, others: seq<string>)
    ensures Named([cid] + others) == [Some(Ref(cid, PLAYLIST_EXT))] + Named(others)
  {
  }

  lemma OneQuality(q: Quality, cid: string, parse: Parse)
    requires Relative(parse) && ValidCid(cid) && '\n' !in q.resolution
    ensures MasterPick(StreamLine(q)) == None
    ensures MasterPick(PathOf(cid, PLAYLIST_EXT)) == Some(PathOf(cid, PLAYLIST_EXT))
    ensures MasterRead(parse)(PathOf(cid, PLAYLIST_EXT)) == Some(Ref(cid, PLAYLIST_EXT))
    ensures '\n' !in StreamLine(q) && '\n' !in PathOf(cid, PLAYLIST_EXT)
  {
    StreamLineIsHash(q);
    HashIsSkipped(StreamLine(q));
    PlaylistLineReads(cid, parse);
  }

  lemma TwoLines(info: string, path: string, more: seq<string>, rest: seq<string>, pick: Pick, read: ReadRef)
    requires pick(info).None? && pick(path) == Some(path)
    ensures References([info, path] + more + rest, pick, read) == [read(path)] + References(more + rest, pick, read)
  {
    var all := [info, path] + more + rest;
    assert all[1..][0] == path && all[1..][1..] == more + rest;
  }

  lemma {:induction false} QualityLinesAreLines(order: seq<Quality>, variants: map<string, string>, parse: Parse)
    requires Relative(parse) && GoodQualities(order, variants)
    ensures forall l <- QualityLines(order, variants) :: '\n' !in l
  {
    if order != [] {
      QualityLinesAreLines(order[1..], variants, parse);
      if order[0].name in variants {
        OneQuality(order[0], variants[order[0].name], parse);
      }
    }
  }

  // ---------- The posters read back ----------

  predicate Delimited(s: string) { ',' in s || '"' in s || '\n' in s }

  predicate Printable(p: Poster) {
    ValidCid(p.cid) && p.size != "" && !Delimited(p.size) && !Delimited(p.variant)
  }

  datatype Reading = NoPoster | Malformed | Got(poster: Poster)

  function WithAttribute(p: Poster, attribute: string): Poster {
    if HasPrefix(attribute, SIZE) then p.(size := attribute[|SIZE|..])
    else if HasPrefix(attribute, VARIANT) then p.(variant := attribute[|VARIANT|..])
    else p
  }

  function WithAttributes(p: Poster, attributes: seq<string>): Poster
    decreases |attributes|
  {
    if attributes == [] then p else WithAttributes(WithAttribute(p, attributes[0]), attributes[1..])
  }

  function ReadPoster(line: string, parse: Parse): Reading {
    var t := Trim(line);
    if !HasPrefix(t, POSTER_TAG) then NoPoster
    else match PlaylistUri(t)
      case None => Malformed
      case Some(uri) => (
        match RefOf(uri, parse)
        case None => Malformed
        case Some(ref) =>
          var p := WithAttributes(Poster("", "", ref.cid), Split(t[|POSTER_TAG|..], ','));
          if ref.ext != JPG || p.size == "" then Malformed else Got(p))
  }

  lemma PrefixesDiffer(cid: string)
    ensures forall v: string ::
              !HasPrefix(VARIANT + v, SIZE) && HasPrefix(VARIANT + v, VARIANT) && HasPrefix(SIZE + v, SIZE)
    ensures forall v: string :: (VARIANT + v)[|VARIANT|..] == v && (SIZE + v)[|SIZE|..] == v
    ensures !HasPrefix(UriAttribute(cid), SIZE) && !HasPrefix(UriAttribute(cid), VARIANT)
  {
    assert MARKER[0] == 'U' && SIZE[0] == 'S' && VARIANT[0] == 'V';
    forall v: string ensures !HasPrefix(VARIANT + v, SIZE) {
      assert (VARIANT + v)[0] == VARIANT[0];
    }
    assert UriAttribute(cid)[0] == MARKER[0];
  }

  lemma AttributesReadBack(p: Poster)
    ensures WithAttributes(Poster("", "", p.cid), Attributes(p)) == p
  {
    PrefixesDiffer(p.cid);
    var uri, start := UriAttribute(p.cid), Poster("", "", p.cid);
    var labelled := start.(variant := p.variant);
    OneAttribute(labelled, SIZE + p.size, [uri]);
    OneAttribute(p, uri, []);
    assert [uri] + [] == [uri];
    if p.variant == "" {
      assert Attributes(p) == [SIZE + p.size] + [uri];
    } else {
      OneAttribute(start, VARIANT + p.variant, [SIZE + p.size] + [uri]);
      assert Attributes(p) == [VARIANT + p.variant] + ([SIZE + p.size] + [uri]);
    }
  }

  lemma OneAttribute(p: Poster, attribute: string, rest: seq<string>)
    ensures WithAttributes(p, [attribute] + rest) == WithAttributes(WithAttribute(p, attribute), rest)
  {
    assert ([attribute] + rest)[1..] == rest;
  }

  lemma LabelsAreFree(p: Poster, c: char)
    requires c == ',' || c == '"' || c == '\n'
    requires c !in p.size && c !in p.variant
    ensures forall a <- Labels(p) :: c !in a
  {
    assert c !in SIZE && c !in VARIANT;
  }

  lemma TagIsPlain()
    ensures POSTER_TAG != "" && POSTER_TAG[0] == '#' && '"' !in POSTER_TAG && '\n' !in POSTER_TAG
    ensures IsPlainExt(JPG) && JPG != "" && MARKER == "URI=" + ['"'] && '"' !in "URI=" && ',' !in MARKER
    ensures '\n' !in MARKER
  {
  }

  /** The parts of a printed poster line around its reference. */
  lemma PosterLineFrame(p: Poster)
    requires Printable(p)
    ensures var before := POSTER_TAG + Join(Labels(p), ',') + [','];
            && PosterLine(p) == Framed(before, MARKER, PathOf(p.cid, JPG), "") && '"' !in before
  {
    JoinSnoc(Labels(p), UriAttribute(p.cid), ',');
    LabelsAreFree(p, '"');
    JoinLacks(Labels(p), ',', '"');
    TagIsPlain();
    var labels, path := Join(Labels(p), ','), PathOf(p.cid, JPG);
    assert path + (['"'] + "") == path + ['"'];
    Seqs.Assoc(POSTER_TAG, labels + [','], MARKER + (path + ['"']));
    Seqs.Assoc(POSTER_TAG, labels, [',']);
    Seqs.Assoc(POSTER_TAG + labels + [','], MARKER, path + ['"']);
  }

  lemma PosterUri(p: Poster, before: string, path: string)
    requires '"' !in before && '"' !in path
    ensures PlaylistUri(Framed(before, MARKER, path, "")) == Some(path)
  {
    TagIsPlain();
    Seqs.Assoc(before, MARKER, path + (['"'] + ""));
    FindAfterQuoteless(before, "URI=", path + (['"'] + ""));
    FramedUri(before, MARKER, path, "");
  }

  lemma PosterLineIsTrim(p: Poster)
    ensures Trim(PosterLine(p)) == PosterLine(p) && PosterLine(p) != ""
  {
    var line, uri := PosterLine(p), UriAttribute(p.cid);
    JoinSnoc(Labels(p), uri, ',');
    TagIsPlain();
    assert line[0] == POSTER_TAG[0];
    assert line[|line| - 1] == uri[|uri| - 1] == '"';
    TrimBetween("", line, "");
    assert "" + line + "" == line;
  }

  lemma PrintedAttributes(p: Poster)
    requires Printable(p)
    ensures HasPrefix(PosterLine(p), POSTER_TAG) && Split(PosterLine(p)[|POSTER_TAG|..], ',') == Attributes(p)
  {
    var attributes := Attributes(p);
    Seqs.TakeDrop(POSTER_TAG, Join(attributes, ','));
    LabelsAreFree(p, ',');
    assert ',' !in UriAttribute(p.cid) by {
      CidChars(p.cid);
      TagIsPlain();
      assert ',' !in SEGMENTS && ',' !in JPG;
    }
    SplitOfJoin(attributes, ',');
  }

  lemma PrintedReference(p: Poster, parse: Parse)
    requires Relative(parse) && Printable(p)
    ensures PlaylistUri(PosterLine(p)) == Some(PathOf(p.cid, JPG))
    ensures RefOf(PathOf(p.cid, JPG), parse) == Some(Ref(p.cid, JPG))
  {
    var path := PathOf(p.cid, JPG);
    assert IsPlainExt(JPG) && JPG != "" by {
      TagIsPlain();
    }
    PathReads(p.cid, JPG, parse);
    PlainIsSolid(path);
    PosterLineFrame(p);
    PosterUri(p, POSTER_TAG + Join(Labels(p), ',') + [','], path);
  }

  /** A printed poster is read back. */
  lemma PosterReadsBack(p: Poster, parse: Parse)
    requires Relative(parse) && Printable(p)
    ensures ReadPoster(PosterLine(p), parse) == Got(p)
  {
    PosterLineIsTrim(p);
    PrintedAttributes(p);
    PrintedReference(p, parse);
    AttributesReadBack(p);
  }
}
