/** The poster of a video, original or protected, chosen from its master playlist. */
module Posters {
  import opened LinkedPlaylists
  import opened MasterPlaylist
  import opened Modes
  import opened Options
  import opened PlaylistRef
  import Seqs
  import opened Text

  /** Whether two identifiers stand for the same content. */
  type Same = (string, string) -> bool

  /** What a line says of a poster. */
  type LineReader = string -> Reading

  function PosterReader(parse: Parse): LineReader { line => ReadPoster(line, parse) }

  /** All posters in order; None when a poster line is malformed. */
  function AllPosters(lines: seq<string>, read: LineReader): Option<seq<Poster>> {
    if lines == [] then Some([])
    else match read(lines[0])
      case NoPoster => AllPosters(lines[1..], read)
      case Malformed => None
      case Got(p) => (
        match AllPosters(lines[1..], read)
        case None => None
        case Some(rest) => Some([p] + rest))
  }

  /** The first poster of that size and variant. */
  function Rendition(posters: seq<Poster>, size: string, variant: string): Option<string> {
    if posters == [] then None
    else if posters[0].size == size && posters[0].variant == variant then Some(posters[0].cid)
    else Rendition(posters[1..], size, variant)
  }

  predicate Wanted(p: Poster, requested: string, same: Same) {
    p.variant == "" && (requested == "" || same(p.cid, requested))
  }

  /** For the first wanted original that has one: the poster that the mode allows. */
  function Selected(originals: seq<Poster>, all: seq<Poster>, requested: string, mode: string,
                    same: Same): Option<string> {
    if originals == [] then None
    else if !Wanted(originals[0], requested, same) then Selected(originals[1..], all, requested, mode, same)
    else if mode == ORIGINAL then Some(originals[0].cid)
    else match Rendition(all, originals[0].size, mode)
      case Some(cid) => Some(cid)
      case None => Selected(originals[1..], all, requested, mode, same)
  }

  function VideoPoster(master: string, requested: string, mode: string, parse: Parse, same: Same): Option<string> {
    match AllPosters(Split(master, '\n'), PosterReader(parse))
    case None => None
    case Some(posters) => Selected(posters, posters, requested, mode, same)
  }

  method VideoPosterCid(master: string, requested: string, mode: string, parse: Parse,
                        same: Same) returns (r: Option<string>)
    ensures r == VideoPoster(master, requested, mode, parse, same)
  {
    var posters := ReadPosters(Split(master, '\n'), parse);
    if posters.None? {
      return None;
    }
    r := SelectPoster(posters.value, requested, mode, same);
  }

  method ReadPosters(lines: seq<string>, parse: Parse) returns (r: Option<seq<Poster>>)
    ensures r == AllPosters(lines, PosterReader(parse))
  {
    var posters := [];
    ghost var read := PosterReader(parse);
    ghost var result := AllPosters(lines, read);
    assert lines[0..] == lines && (result.Some? ==> [] + result.value == result.value);
    for i := 0 to |lines|
      invariant result == Extended(posters, AllPosters(lines[i..], read))
    {
      NextLine(lines, i, posters, read);
      assert read(lines[i]) == ReadPoster(lines[i], parse);
      var line := Trim(lines[i]);
      if !HasPrefix(line, POSTER_TAG) {
        continue;
      }
      var uri := PlaylistUri(line);
      if uri.None? {
        return None;
      }
      var ref := RefOf(uri.value, parse);
      if ref.None? || ref.value.ext != JPG {
        return None;
      }
      var p := ReadAttributes(Poster("", "", ref.value.cid), Split(line[|POSTER_TAG|..], ','));
      if p.size == "" {
        return None;
      }
      posters := posters + [p];
    }
    assert posters + [] == posters;
    return Some(posters);
  }

  lemma NextLine(lines: seq<string>, i: nat, done: seq<Poster>, read: LineReader)
    requires i < |lines|
    ensures Extended(done, AllPosters(lines[i..], read)) ==
            match read(lines[i])
            case NoPoster => Extended(done, AllPosters(lines[i + 1..], read))
            case Malformed => None
            case Got(p) => Extended(done + [p], AllPosters(lines[i + 1..], read))
  {
    assert lines[i..][0] == lines[i] && lines[i..][1..] == lines[i + 1..];
    match read(lines[i]) {
      case NoPoster =>
      case Malformed =>
      case Got(p) => ExtendedStep(done, p, AllPosters(lines[i + 1..], read));
    }
  }

  method SelectPoster(posters: seq<Poster>, requested: string, mode: string, same: Same) returns (r: Option<string>)
    ensures r == Selected(posters, posters, requested, mode, same)
  {
    for i := 0 to |posters|
      invariant Selected(posters, posters, requested, mode, same)
             == Selected(posters[i..], posters, requested, mode, same)
    {
      var original := posters[i];
      assert posters[i..][0] == original && posters[i..][1..] == posters[i + 1..];
      if original.variant != "" || (requested != "" && !same(original.cid, requested)) {
        continue;
      }
      if mode == ORIGINAL {
        return Some(original.cid);
      }
      for j := 0 to |posters|
        invariant Rendition(posters, original.size, mode) == Rendition(posters[j..], original.size, mode)
      {
        assert posters[j..][0] == posters[j] && posters[j..][1..] == posters[j + 1..];
        if posters[j].size == original.size && posters[j].variant == mode {
          return Some(posters[j].cid);
        }
      }
    }
    return None;
  }

  function Extended(done: seq<Poster>, rest: Option<seq<Poster>>): Option<seq<Poster>> {
    match rest case None => None case Some(posters) => Some(done + posters)
  }

  lemma ExtendedStep(done: seq<Poster>, p: Poster, rest: Option<seq<Poster>>)
    ensures Extended(done, Extended([p], rest)) == Extended(done + [p], rest)
  {
    if rest.Some? {
      assert done + ([p] + rest.value) == done + [p] + rest.value;
    }
  }

  method ReadAttributes(start: Poster, attributes: seq<string>) returns (p: Poster)
    ensures p == WithAttributes(start, attributes)
  {
    p := start;
    for i := 0 to |attributes|
      invariant WithAttributes(p, attributes[i..]) == WithAttributes(start, attributes)
    {
      var attribute := attributes[i];
      assert attributes[i..][0] == attribute && attributes[i..][1..] == attributes[i + 1..];
      if HasPrefix(attribute, SIZE) {
        p := p.(size := attribute[|SIZE|..]);
      }
      if HasPrefix(attribute, VARIANT) {
        NotBoth(attribute);
        p := p.(variant := attribute[|VARIANT|..]);
      }
    }
  }

  lemma NotBoth(attribute: string)
    requires HasPrefix(attribute, VARIANT)
    ensures !HasPrefix(attribute, SIZE)
  {
    assert attribute[0] == VARIANT[0] && SIZE[0] != VARIANT[0];
  }

  // ---------- Posters printed at upload ----------

  lemma {:induction false} PosterByPoster(lines: seq<string>, posters: seq<Poster>, rest: seq<string>, read: LineReader)
    requires |lines| == |posters| && forall i :: 0 <= i < |lines| ==> read(lines[i]) == Got(posters[i])
    ensures AllPosters(lines + rest, read) == Extended(posters, AllPosters(rest, read))
  {
    if posters == [] {
      assert lines + rest == rest;
      match AllPosters(rest, read) {
        case None =>
        case Some(all) => assert posters + all == all;
      }
    } else {
      assert (lines + rest)[1..] == lines[1..] + rest;
      assert read((lines + rest)[0]) == Got(posters[0]);
      PosterByPoster(lines[1..], posters[1..], rest, read);
      assert posters == [posters[0]] + posters[1..];
      Prepended(posters[0], posters[1..], AllPosters(rest, read));
    }
  }

  lemma Prepended(p: Poster, done: seq<Poster>, rest: Option<seq<Poster>>)
    ensures Extended([p] + done, rest) == Extended([p], Extended(done, rest))
  {
    if rest.Some? {
      assert [p] + done + rest.value == [p] + (done + rest.value);
    }
  }

  lemma {:induction false} OtherLines(lines: seq<string>, rest: seq<string>, read: LineReader)
    requires forall l <- lines :: read(l) == NoPoster
    ensures AllPosters(lines + rest, read) == AllPosters(rest, read)
  {
    if lines == [] {
      assert lines + rest == rest;
    } else {
      assert (lines + rest)[1..] == lines[1..] + rest;
      OtherLines(lines[1..], rest, read);
    }
  }

  lemma TrimStarts(line: string)
    requires line != "" && !IsSpace(line[0])
    ensures Trim(line) <= line
  {
    assert TrimLeft(line) == line;
    TrimRightCuts(line);
  }

  lemma NotPosterAt(line: string, k: nat, parse: Parse)
    requires line != "" && !IsSpace(line[0]) && k < |POSTER_TAG| && (k < |line| ==> line[k] != POSTER_TAG[k])
    ensures ReadPoster(line, parse) == NoPoster
  {
    TrimStarts(line);
    if k < |Trim(line)| {
      assert Trim(line)[k] == line[k];
    }
  }

  lemma {:induction false} QualityLinesAreNoPosters(order: seq<Quality>, variants: map<string, string>, parse: Parse)
    requires forall q <- order :: '\n' !in q.resolution
    ensures forall l <- QualityLines(order, variants) :: ReadPoster(l, parse) == NoPoster
  {
    if order != [] {
      QualityLinesAreNoPosters(order[1..], variants, parse);
      if order[0].name in variants {
        StreamLineIsNoPoster(order[0], parse);
        PathIsNoPoster(variants[order[0].name], parse);
      }
    }
  }

  lemma StreamLineIsNoPoster(q: Quality, parse: Parse)
    ensures ReadPoster(StreamLine(q), parse) == NoPoster
  {
    assert STREAM_TAG[7] == 'S' && POSTER_TAG[7] == 'I' && STREAM_TAG[0] == '#' && |STREAM_TAG| > 7 && |POSTER_TAG| > 7;
    var line := StreamLine(q);
    assert line[0] == STREAM_TAG[0] && line[7] == STREAM_TAG[7];
    NotPosterAt(line, 7, parse);
  }

  lemma PathIsNoPoster(cid: string, parse: Parse)
    ensures ReadPoster(PathOf(cid, PLAYLIST_EXT), parse) == NoPoster
  {
    assert SEGMENTS[0] == '.' && POSTER_TAG[0] == '#' && |POSTER_TAG| > 0;
    assert PathOf(cid, PLAYLIST_EXT)[0] == SEGMENTS[0];
    NotPosterAt(PathOf(cid, PLAYLIST_EXT), 0, parse);
  }

  lemma HeaderIsNoPoster(parse: Parse)
    ensures ReadPoster(HEADER, parse) == NoPoster && ReadPoster("", parse) == NoPoster && IsHash(HEADER)
  {
    assert |HEADER| == 7 && |POSTER_TAG| > 7 && HEADER[0] == '#' && '\n' !in HEADER;
    NotPosterAt(HEADER, 7, parse);
  }

  ghost predicate GoodMaster(posters: seq<Poster>, variants: map<string, string>) {
    (forall p <- posters :: Printable(p)) && GoodQualities(QUALITIES, variants)
  }

  lemma PosterLineIsHash(p: Poster)
    requires Printable(p)
    ensures IsHash(PosterLine(p))
  {
    TagIsPlain();
    LabelsAreFree(p, '\n');
    CidChars(p.cid);
    var path := PathOf(p.cid, JPG);
    forall c <- path ensures IsPlain(c) {
      SegmentsPlain();
    }
    PlainIsSolid(path);
    JoinLacks(Attributes(p), ',', '\n');
    assert PosterLine(p)[0] == POSTER_TAG[0];
  }

  lemma HeadIsHash(posters: seq<Poster>, l: string)
    requires (forall p <- posters :: Printable(p)) && l in [HEADER] + PosterLines(posters)
    ensures IsHash(l)
  {
    if l in PosterLines(posters) {
      var i :| 0 <= i < |posters| && l == PosterLine(posters[i]);
      PosterLineIsHash(posters[i]);
    } else {
      assert l == HEADER;
      assert |HEADER| == 7 && HEADER[0] == '#' && '\n' !in HEADER;
    }
  }

  lemma SplitInTwo(a: seq<string>, b: seq<string>)
    requires (forall l <- a :: '\n' !in l) && forall l <- b :: '\n' !in l
    ensures Split(Lines(a + b), '\n') == a + (b + [""])
  {
    SplitOfLines(a + b);
    Seqs.Assoc(a, b, [""]);
  }

  /** The lines of a printed master, with the empty one after the last newline. */
  lemma MasterSplits(posters: seq<Poster>, variants: map<string, string>, parse: Parse)
    requires Relative(parse) && GoodMaster(posters, variants)
    ensures Split(Lines(MasterLines(posters, variants)), '\n')
         == [HEADER] + PosterLines(posters) + (QualityLines(QUALITIES, variants) + [""])
    ensures forall l <- [HEADER] + PosterLines(posters) :: IsHash(l)
  {
    var head := [HEADER] + PosterLines(posters);
    forall l <- head ensures IsHash(l) {
      HeadIsHash(posters, l);
    }
    QualityLinesAreLines(QUALITIES, variants, parse);
    SplitInTwo(head, QualityLines(QUALITIES, variants));
  }

  /** The playlists of a printed master are those of the qualities there are, low before medium before high. */
  lemma PrintedMasterPlaylists(posters: seq<Poster>, variants: map<string, string>, parse: Parse, k: nat)
    requires Relative(parse) && GoodMaster(posters, variants)
    ensures var master := Lines(MasterLines(posters, variants));
            var cids := Present(QUALITIES, variants);
            && MasterRefs(master, parse) == Named(cids)
            && Nth(MasterRefs(master, parse), k) == if k < |cids| then Some(Ref(cids[k], PLAYLIST_EXT)) else None
  {
    MasterSplits(posters, variants, parse);
    var read, rest := MasterRead(parse), QualityLines(QUALITIES, variants) + [""];
    HashesAreSkipped([HEADER] + PosterLines(posters), rest, read);
    QualityLinesRead(QUALITIES, variants, [""], parse);
    SkipReference([""], MasterPick, read);
    NamedNth(Present(QUALITIES, variants), k);
  }

  lemma NamedNth(cids: seq<string>, k: nat)
    ensures Nth(Named(cids), k) == if k < |cids| then Some(Ref(cids[k], PLAYLIST_EXT)) else None
    ensures Named(cids) + [] == Named(cids)
  {
    NthIsThere(Named(cids), k);
  }

  /** The posters of a printed master are those printed, in the order in which they were. */
  lemma PrintedMasterPosters(posters: seq<Poster>, variants: map<string, string>, parse: Parse)
    requires Relative(parse) && GoodMaster(posters, variants)
    ensures AllPosters(Split(Lines(MasterLines(posters, variants)), '\n'), PosterReader(parse)) == Some(posters)
  {
    MasterSplits(posters, variants, parse);
    HeaderIsNoPoster(parse);
    QualityLinesAreNoPosters(QUALITIES, variants, parse);
    forall i | 0 <= i < |posters| ensures ReadPoster(PosterLines(posters)[i], parse) == Got(posters[i]) {
      PosterReadsBack(posters[i], parse);
    }
    PostersBetween(HEADER, PosterLines(posters), QualityLines(QUALITIES, variants), posters, PosterReader(parse));
  }

  lemma PostersBetween(header: string, lines: seq<string>, others: seq<string>, posters: seq<Poster>, read: LineReader)
    requires |lines| == |posters| && forall i :: 0 <= i < |lines| ==> read(lines[i]) == Got(posters[i])
    requires read(header) == NoPoster && read("") == NoPoster
    requires forall l <- others :: read(l) == NoPoster
    ensures AllPosters([header] + lines + (others + [""]), read) == Some(posters)
  {
    var rest := others + [""];
    Seqs.Assoc([header], lines, rest);
    OtherLines([header], lines + rest, read);
    PosterByPoster(lines, posters, rest, read);
    assert rest + [] == rest;
    OtherLines(rest, [], read);
    assert posters + [] == posters;
  }

  // ---------- Malformed posters ----------

  /** A poster line that names no picture, or one without a size. */
  predicate IsMalformed(line: string, parse: Parse) {
    var t := Trim(line);
    && HasPrefix(t, "#EXT-X-IAMFREE-POSTER:")
    && match PlaylistUri(t)
       case None => true
       case Some(uri) =>
         || RefOf(uri, parse).None? || RefOf(uri, parse).value.ext != ".jpg"
         || forall a <- Split(t[|POSTER_TAG|..], ',') :: !HasPrefix(a, "SIZE=") || a == "SIZE="
  }

  lemma {:induction false} NoSize(p: Poster, attributes: seq<string>)
    requires p.size == "" && forall a <- attributes :: !HasPrefix(a, SIZE) || a == SIZE
    ensures WithAttributes(p, attributes).size == ""
    decreases |attributes|
  {
    if attributes != [] {
      assert attributes[0] in attributes;
      NoSize(WithAttribute(p, attributes[0]), attributes[1..]);
    }
  }

  /** One malformed line, and no poster is found at all. */
  lemma {:induction false} MalformedRefusesAll(lines: seq<string>, line: string, parse: Parse)
    requires line in lines && IsMalformed(line, parse)
    ensures AllPosters(lines, PosterReader(parse)) == None
  {
    if lines[0] == line {
      MalformedIsRead(line, parse);
      assert PosterReader(parse)(line) == Malformed;
    } else {
      assert lines == [lines[0]] + lines[1..];
      MalformedRefusesAll(lines[1..], line, parse);
    }
  }

  lemma MalformedIsRead(line: string, parse: Parse)
    requires IsMalformed(line, parse)
    ensures ReadPoster(line, parse) == Malformed
  {
    var t := Trim(line);
    if PlaylistUri(t).Some? && RefOf(PlaylistUri(t).value, parse).Some?
       && RefOf(PlaylistUri(t).value, parse).value.ext == JPG
    {
      NoSize(Poster("", "", RefOf(PlaylistUri(t).value, parse).value.cid), Split(t[|POSTER_TAG|..], ','));
    }
  }

  // ---------- Which poster is chosen ----------

  predicate IsRendition(p: Poster, size: string, variant: string) { p.size == size && p.variant == variant }

  /** The first poster of that size and variant, or none where there is none. */
  ghost predicate IsFirst(posters: seq<Poster>, size: string, variant: string, r: Option<string>) {
    match r
    case None => forall p <- posters :: !IsRendition(p, size, variant)
    case Some(cid) =>
      exists i :: 0 <= i < |posters| && IsRendition(posters[i], size, variant) && posters[i].cid == cid
                  && forall j :: 0 <= j < i ==> !IsRendition(posters[j], size, variant)
  }

  lemma {:induction false} RenditionIsFirst(posters: seq<Poster>, size: string, variant: string)
    ensures IsFirst(posters, size, variant, Rendition(posters, size, variant))
  {
    if posters != [] && !IsRendition(posters[0], size, variant) {
      RenditionIsFirst(posters[1..], size, variant);
      assert posters == [posters[0]] + posters[1..];
      if Rendition(posters[1..], size, variant).Some? {
        var rest, cid := posters[1..], Rendition(posters[1..], size, variant).value;
        var i :| 0 <= i < |rest| && IsRendition(rest[i], size, variant) && rest[i].cid == cid
                 && forall j :: 0 <= j < i ==> !IsRendition(rest[j], size, variant);
        assert posters[i + 1] == rest[i];
        assert forall j :: 1 <= j < i + 1 ==> posters[j] == rest[j - 1];
      }
    }
  }

  lemma {:induction false} SelectedIs(originals: seq<Poster>, all: seq<Poster>, requested: string, mode: string,
                                      same: Same, o: Poster)
    requires o in originals && Wanted(o, requested, same)
    requires forall p <- originals :: Wanted(p, requested, same) ==> p == o
    ensures Selected(originals, all, requested, mode, same)
         == if mode == ORIGINAL then Some(o.cid) else Rendition(all, o.size, mode)
  {
    if originals[0] != o {
      SelectedIs(originals[1..], all, requested, mode, same, o);
    } else {
      RepeatedOriginal(originals, all, requested, mode, same, o);
    }
  }

  lemma {:induction false} RepeatedOriginal(originals: seq<Poster>, all: seq<Poster>, requested: string, mode: string,
                                            same: Same, o: Poster)
    requires forall p <- originals :: Wanted(p, requested, same) ==> p == o
    ensures mode != ORIGINAL && Rendition(all, o.size, mode).None? ==>
              Selected(originals, all, requested, mode, same).None?
  {
    if originals != [] {
      RepeatedOriginal(originals[1..], all, requested, mode, same, o);
    }
  }

  /**
   For the one original that a request names: in original mode that poster is sent, and in a protected mode the first
   poster of the same size drawn for that mode, or none where there is none.
   */
  lemma ChosenPoster(posters: seq<Poster>, variants: map<string, string>, requested: string, mode: string, parse: Parse,
                     same: Same, o: Poster)
    requires Relative(parse) && GoodMaster(posters, variants)
    requires o in posters && Wanted(o, requested, same) && forall p <- posters :: Wanted(p, requested, same) ==> p == o
    ensures var chosen := VideoPoster(Lines(MasterLines(posters, variants)), requested, mode, parse, same);
            if mode == ORIGINAL then chosen == Some(o.cid) else IsFirst(posters, o.size, mode, chosen)
  {
    PrintedMasterPosters(posters, variants, parse);
    SelectedIs(posters, posters, requested, mode, same, o);
    RenditionIsFirst(posters, o.size, mode);
  }

  /** Where all posters of that size and variant are one file, their order makes no difference. */
  lemma FirstOfOne(posters: seq<Poster>, size: string, variant: string, r: Option<string>, p: Poster)
    requires IsFirst(posters, size, variant, r) && p in posters && IsRendition(p, size, variant)
    requires forall q <- posters :: IsRendition(q, size, variant) ==> q.cid == p.cid
    ensures r == Some(p.cid)
  {
  }
}
