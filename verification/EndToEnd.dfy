/** From the encoder's playlist, through upload and rewriting, to the file that a player is sent. */
module EndToEnd {
  import opened LinkedAgreement
  import opened LinkedPlaylists
  import opened MasterPlaylist
  import opened Modes
  import opened Options
  import opened PlayerRequests
  import opened PlaylistRef
  import Posters
  import opened StreamRoutes
  import opened Text
  import UploadDir
  import opened Uploader
  import opened Urls

  // ---------- Rewriting what was uploaded ----------

  /** The encoder's playlist as it is stored. */
  function Uploaded(content: string, lookup: Lookup): string { Lines(UploadedLines(Split(content, '\n'), lookup)) }

  lemma UnclosedStays(line: string, lookup: Lookup, parse: Parse)
    requires Relative(parse)
    requires VariantPick(line).Some? ==> Referred(line, lookup).Some? && ValidCid(Referred(line, lookup).value.cid)
    ensures Unclosed(UploadedLine(line, lookup)) <==> Unclosed(line)
  {
    UploadedLineReads(line, lookup, parse);
  }

  lemma UploadedSplits(content: string, lookup: Lookup)
    requires AllKnown(Split(content, '\n'), lookup)
    ensures Split(Uploaded(content, lookup), '\n') == UploadedLines(Split(content, '\n'), lookup) + [""]
  {
    var lines := Split(content, '\n');
    var all := UploadedLines(lines, lookup);
    JoinOfSplit(content, '\n');
    forall l <- all ensures '\n' !in l {
      var i :| 0 <= i < |all| && all[i] == l;
      UploadedLineIsOneLine(lines[i], lookup);
    }
    SplitOfLines(all);
  }

  /** What was uploaded can be rewritten exactly when the encoder left no tag unclosed. */
  lemma UploadedRewrittenIff(content: string, lookup: Lookup, p: nat, suffix: string, parse: Parse)
    requires Relative(parse) && AllKnown(Split(content, '\n'), lookup)
    ensures VariantLines(Uploaded(content, lookup), p, suffix, parse).Some?
       <==> forall l <- Split(content, '\n') :: !Unclosed(l)
  {
    var lines, uploaded := Split(content, '\n'), Uploaded(content, lookup);
    var all := UploadedLines(lines, lookup);
    VariantRewrittenIff(uploaded, p, suffix, parse);
    UploadedSplits(content, lookup);
    UploadedIndexResolves(content, lookup, parse, 0);
    forall k: nat | k < |Expected(lines, lookup)| ensures Expected(lines, lookup)[k].Some? {
      ExpectedAreValid(lines, lookup, k);
    }
    forall i: nat | i < |lines| ensures Unclosed(all[i]) <==> Unclosed(lines[i]) {
      UnclosedStays(lines[i], lookup, parse);
    }
    NoneUnclosed(lines, all);
  }

  lemma NoneUnclosed(lines: seq<string>, all: seq<string>)
    requires |all| == |lines| && forall i: nat :: i < |lines| ==> (Unclosed(all[i]) <==> Unclosed(lines[i]))
    ensures (forall l <- all + [""] :: !Unclosed(l)) <==> (forall l <- lines :: !Unclosed(l))
  {
    assert TrimLeft("") == "";
    forall l <- lines | Unclosed(l) ensures exists a <- all + [""] :: Unclosed(a) {
      var i: nat :| i < |lines| && lines[i] == l;
      assert all[i] in all + [""];
    }
  }

  // ---------- From the encoder to the player ----------

  lemma {:induction false} ExpectedExtensions(lines: seq<string>, lookup: Lookup, k: nat)
    requires k < |Expected(lines, lookup)| && Expected(lines, lookup)[k].Some?
    ensures Expected(lines, lookup)[k].value.ext == MP4 || Expected(lines, lookup)[k].value.ext == M4S
  {
    if VariantPick(lines[0]).None? {
      ExpectedExtensions(lines[1..], lookup, k);
    } else if k > 0 {
      ExpectedExtensions(lines[1..], lookup, k - 1);
    }
  }

  lemma UploadedExtensionsArePlain()
    ensures IsBare(MP4) && IsBare(M4S) && Solid(MP4) && Solid(M4S) && '"' !in MP4 && '"' !in M4S && IsExt(MP4)
    ensures IsExt(M4S)
  {
  }

  /** All that the encoder refers to is read whole when it is printed. */
  lemma ExpectedAreWhole(lines: seq<string>, lookup: Lookup, suffix: string)
    requires forall k: nat :: k < |Expected(lines, lookup)| ==> Expected(lines, lookup)[k].Some?
    ensures AllWhole(Expected(lines, lookup), suffix)
  {
    var refs := Expected(lines, lookup);
    UploadedExtensionsArePlain();
    forall r <- refs | r.Some? ensures ReadWhole(true, r.value.ext, suffix) && ReadWhole(false, r.value.ext, suffix) {
      var k: nat :| k < |refs| && refs[k] == r;
      ExpectedExtensions(lines, lookup, k);
      SolidIsWhole(r.value.ext, suffix);
    }
  }

  lemma SolidIsWhole(ext: string, suffix: string)
    requires Solid(ext) && '"' !in ext
    ensures ReadWhole(true, ext, suffix) && ReadWhole(false, ext, suffix)
  {
    assert IsSpace('\n');
    assert ext != "" ==> ext[|ext| - 1] in ext;
  }

  /** The playlist of the i-th quality as it is sent, and what a player reads in it. */
  function ReadFrom(content: string, lookup: Lookup, i: nat, suffix: string, parse: Parse): seq<string>
    requires VariantLines(Uploaded(content, lookup), i, suffix, parse).Some?
  {
    var text := Join(VariantLines(Uploaded(content, lookup), i, suffix, parse).value, '\n');
    Picked(Split(text, '\n'), VariantPick)
  }

  /**
   From the encoder's playlist for the i-th quality to a player: it can be rewritten, a player reads in the text exactly
   one opaque reference for each of the encoder's, in order, and a request for any of them gets the file that was
   uploaded for it, unless that has been withdrawn.
   */
  lemma EncoderToPlayer(posters: seq<Poster>, variants: map<string, string>, i: nat, content: string, lookup: Lookup,
                        link: string, suffix: string, lib: Library, parse: Parse)
    requires Relative(parse) && Posters.GoodMaster(posters, variants)
    requires AllKnown(Split(content, '\n'), lookup) && forall l <- Split(content, '\n') :: !Unclosed(l)
    requires i < |Present(QUALITIES, variants)| && i <= MAX_INT && IsQuery(suffix) && IsLink(link)
    requires var p := Present(QUALITIES, variants)[i]; !lib.deleted(p) && lib.read(p) == Some(Uploaded(content, lookup))
    ensures VariantLines(Uploaded(content, lookup), i, suffix, parse).Some?
    ensures var master := Lines(MasterPlaylist.MasterLines(posters, variants));
            var files := Expected(Split(content, '\n'), lookup);
            var names := ReadFrom(content, lookup, i, suffix, parse);
            && names == PrintedNames(i, files, suffix) && |names| == |files|
            && forall k :: 0 <= k < |files| && k <= MAX_INT ==>
                 && files[k].Some?
                 && SegmentServed(master, Requested([link, PLAYLIST], names[k]), lib, parse)
                 == if lib.deleted(files[k].value.cid) then None else files[k]
  {
    var lines, uploaded := Split(content, '\n'), Uploaded(content, lookup);
    var master := Lines(MasterPlaylist.MasterLines(posters, variants));
    var files := Expected(lines, lookup);
    Posters.PrintedMasterPlaylists(posters, variants, parse, i);
    assert PlaylistOf(master, i, lib, parse) == Some(uploaded);
    UploadedIndexResolves(content, lookup, parse, 0);
    UploadedRewrittenIff(content, lookup, i, suffix, parse);
    forall k: nat | k < |files| ensures files[k].Some? {
      ExpectedAreValid(lines, lookup, k);
    }
    ExpectedAreWhole(lines, lookup, suffix);
    TextReadsAsPrinted(uploaded, i, suffix, parse);
    forall k: nat | k < |files| && k <= MAX_INT
      ensures SegmentServed(master, Requested([link, PLAYLIST], PrintedNames(i, files, suffix)[k]), lib, parse)
           == if lib.deleted(files[k].value.cid) then None else files[k]
    {
      ExpectedIsServed(link, master, i, uploaded, lines, lookup, suffix, lib, parse, k);
    }
  }

  lemma ExpectedIsServed(link: string, master: string, i: nat, uploaded: string, lines: seq<string>, lookup: Lookup,
                         suffix: string, lib: Library, parse: Parse, k: nat)
    requires i <= MAX_INT && k <= MAX_INT && IsQuery(suffix) && IsLink(link)
    requires PlaylistOf(master, i, lib, parse) == Some(uploaded)
    requires VariantRefs(uploaded, parse) == Expected(lines, lookup)
    requires k < |Expected(lines, lookup)| && forall r <- Expected(lines, lookup) :: r.Some?
    ensures var files := Expected(lines, lookup);
            (SegmentServed(master, Requested([link, PLAYLIST], PrintedNames(i, files, suffix)[k]), lib, parse)
             == if lib.deleted(files[k].value.cid) then None else files[k])
  {
    ExpectedExtensions(lines, lookup, k);
    UploadedExtensionsArePlain();
    NthIsThere(Expected(lines, lookup), k);
    PrintedSegmentIsServed(link, master, i, uploaded, k, suffix, lib, parse);
  }

  // ---------- From a poster file to the viewer ----------

  /**
   For an original poster file that a request names alone: in a protected mode the viewer gets the file drawn for that
   mode at the same size, if all files of that mode and size are one.
   */
  lemma PosterToViewer(files: map<string, string>, posters: seq<Poster>, variants: map<string, string>, path: string,
                       drawn: string, requested: string, mode: string, parse: Parse, same: Posters.Same)
    requires UploadDir.AreThePosters(posters, files) && Posters.GoodMaster(posters, variants) && Relative(parse)
    requires path in files && drawn in files && mode != ORIGINAL
    requires var p, d := UploadDir.PosterFromPath(path), UploadDir.PosterFromPath(drawn);
             p.Some? && d.Some? && p.value.variant == "" && d.value == UploadDir.PosterPath(mode, p.value.size)
    requires requested == "" || same(files[path], requested)
    requires forall k <- files | UploadDir.PosterFromPath(k).Some? ::
               Posters.Wanted(UploadDir.PosterOf(k, files[k]), requested, same) ==>
                 UploadDir.PosterOf(k, files[k]) == UploadDir.PosterOf(path, files[path])
    requires forall k <- files | UploadDir.PosterFromPath(k) == UploadDir.PosterFromPath(drawn) ::
               files[k] == files[drawn]
    ensures Posters.VideoPoster(Lines(MasterPlaylist.MasterLines(posters, variants)), requested, mode, parse, same)
         == Some(files[drawn])
  {
    var o, d := UploadDir.PosterOf(path, files[path]), UploadDir.PosterOf(drawn, files[drawn]);
    UploadDir.PostersAreFromFiles(posters, files, o);
    UploadDir.PostersAreFromFiles(posters, files, d);
    forall p <- posters ensures Posters.Wanted(p, requested, same) ==> p == o {
      UploadDir.PostersAreFromFiles(posters, files, p);
    }
    forall p <- posters | Posters.IsRendition(p, o.size, mode) ensures p.cid == d.cid {
      UploadDir.PostersAreFromFiles(posters, files, p);
    }
    Posters.ChosenPoster(posters, variants, requested, mode, parse, same, o);
    var chosen := Posters.VideoPoster(Lines(MasterPlaylist.MasterLines(posters, variants)), requested, mode, parse,
                                      same);
    Posters.FirstOfOne(posters, o.size, mode, chosen, d);
  }
}
