/** Requests for streams behind a media link, and how printed references come back as such requests. */
module StreamRoutes {
  import opened LinkedPlaylists
  import opened Options
  import opened PlaylistRef
  import Seqs
  import opened Text
  import opened Urls

  /** A number in a request, after an extension it must carry. */
  function LinkedStreamIndex(value: string, extension: string): Option<nat> {
    if extension != "" && !HasSuffix(value, extension) then None
    else match Atoi(if extension == "" then value else value[..|value| - |extension|])
      case None => None
      case Some(n) => if n < 0 then None else Some(n)
  }

  datatype Route = Playlist(playlist: nat) | Segment(playlist: nat, asset: nat, ext: string) | Other

  /** What is asked for, given the parts of the path from the media link on. */
  function RouteOf(parts: seq<string>): Route {
    if |parts| == 3 && parts[1] == PLAYLIST then
      match LinkedStreamIndex(parts[2], PLAYLIST_EXT)
      case None => Other
      case Some(p) => Playlist(p)
    else if |parts| == 4 && parts[1] == SEGMENT then
      match LinkedStreamIndex(parts[2], "")
      case None => Other
      case Some(p) => (
        match LinkedStreamIndex(WithoutExt(parts[3]), "")
        case None => Other
        case Some(k) => Segment(p, k, Ext(parts[3])))
    else Other
  }

  function TrimSlashesLeft(s: string): string { if s != "" && s[0] == '/' then TrimSlashesLeft(s[1..]) else s }

  /** What a decoded path asks for; slashes at its ends do not count. */
  function RouteOfPath(path: string): Route { RouteOf(Split(StripSlashes(TrimSlashesLeft(path)), '/')) }

  /** The stored playlists, and the files withdrawn. */
  datatype Library = Library(read: string -> Option<string>, deleted: string -> bool)

  /** The playlist with index p of a master playlist. */
  function PlaylistOf(master: string, p: nat, lib: Library, parse: Parse): Option<string> {
    match Nth(MasterRefs(master, parse), p)
    case None => None
    case Some(ref) => if lib.deleted(ref.cid) then None else lib.read(ref.cid)
  }

  /** The file sent for a segment request; an extension in the request must be the file's own. */
  function SegmentServed(master: string, route: Route, lib: Library, parse: Parse): Option<Ref> {
    if !route.Segment? then None
    else match PlaylistOf(master, route.playlist, lib, parse)
      case None => None
      case Some(playlist) => (
        match Nth(VariantRefs(playlist, parse), route.asset)
        case None => None
        case Some(ref) => if lib.deleted(ref.cid) || (route.ext != "" && route.ext != ref.ext) then None else Some(ref))
  }

  // ---------- From a reference to a request ----------

  /** Walk from a directory along the parts of a relative path. */
  function Walk(dir: seq<string>, parts: seq<string>): seq<string>
    decreases |parts|
  {
    if parts == [] then dir
    else if parts[0] == ".." && dir != [] then Walk(dir[..|dir| - 1], parts[1..])
    else Walk(dir + [parts[0]], parts[1..])
  }

  /**
   The request that a player makes for a reference that it has read in a file of the directory.  Fragment and query
   stay aside, and the path is decoded when it arrives; every other character arrives as it was read.
   */
  function Requested(dir: seq<string>, reference: string): Route {
    match Unescape(Join(Walk(dir, Split(PathPart(reference), '/')), '/'))
    case None => Other
    case Some(path) => RouteOfPath(path)
  }

  predicate IsLink(link: string) { link != "" && '/' !in link && '%' !in link }

  lemma DigitsAreSafe(n: nat)
    requires n <= MAX_INT
    ensures '/' !in Digits(n) && '.' !in Digits(n) && IsBare(Digits(n)) && Digits(n) != "" && Digits(n) != ".."
    ensures LinkedStreamIndex(Digits(n), "") == Some(n)
  {
    ValueOfDigits(n);
    AtoiOfDigits(n);
  }

  lemma JoinBare(parts: seq<string>)
    requires forall p <- parts :: IsBare(p)
    ensures IsBare(Join(parts, '/'))
  {
    JoinLacks(parts, '/', '#');
    JoinLacks(parts, '/', '?');
    JoinLacks(parts, '/', '%');
  }

  /** The parts of a printed path, up to its query. */
  lemma PathParts(parts: seq<string>, name: string, ext: string, suffix: string)
    requires parts != [] && IsBare(name) && '/' !in name && '/' !in ext && IsSuffix(suffix)
    requires forall p <- parts :: '/' !in p && IsBare(p)
    ensures Split(PathPart(Join(parts + [name + (ext + suffix)], '/')), '/') == parts + [name + PathPart(ext)]
  {
    var head := Join(parts, '/') + ['/'];
    JoinSnoc(parts, name + (ext + suffix), '/');
    JoinBare(parts);
    PathSkips(head, name + (ext + suffix));
    PathSkips(name, ext + suffix);
    PathSuffix(ext, suffix);
    PathCuts(ext);
    JoinSnoc(parts, name + PathPart(ext), '/');
    SplitOfJoin(parts + [name + PathPart(ext)], '/');
  }

  lemma WalkUp(link: string, dir: string, number: string, name: string)
    requires dir != ".." && number != ".." && name != ".."
    ensures Walk([link, PLAYLIST], ["..", dir, number] + [name]) == [link, dir, number] + [name]
  {
    var rest := [dir, number, name];
    assert ["..", dir, number] + [name] == [".."] + rest && ([".."] + rest)[1..] == rest;
    assert [link, PLAYLIST][..1] == [link];
    assert rest == [dir] + [number, name] && [number, name] == [number] + [name];
    WalkDown([link], dir, [number, name]);
    WalkDown([link] + [dir], number, [name]);
    WalkDown([link] + [dir] + [number], name, []);
    assert [name] + [] == [name];
  }

  lemma WalkDown(dir: seq<string>, part: string, rest: seq<string>)
    requires part != ".."
    ensures Walk(dir, [part] + rest) == Walk(dir + [part], rest)
  {
    assert ([part] + rest)[1..] == rest;
  }

  // ---------- Decoding the last part ----------

  /** A path of whole parts and a name, decoded: only the end of the name can change. */
  lemma DecodedPath(parts: seq<string>, name: string, cut: string)
    requires parts != [] && '%' !in Join(parts, '/') && '%' !in name
    ensures Unescape(Join(parts + [name + cut], '/')) == Prefixed(Join(parts, '/') + ['/'] + name, Unescape(cut))
  {
    var head := Join(parts, '/') + ['/'];
    JoinSnoc(parts, name + cut, '/');
    Seqs.Assoc(head, name, cut);
    UnescapePlain(head + name, cut);
  }

  lemma {:induction false} StrippedEnd(a: string, d: string)
    requires a != "" && a[|a| - 1] != '/'
    ensures StripSlashes(a + d) == a + StripSlashes(d) && StripSlashes(d) <= d
  {
    if d == "" {
      assert a + d == a;
    } else if d[|d| - 1] == '/' {
      assert (a + d)[..|a + d| - 1] == a + d[..|d| - 1];
      StrippedEnd(a, d[..|d| - 1]);
    }
  }

  /** The route of a path whose last part ends in something decoded. */
  lemma RouteOfName(parts: seq<string>, name: string, d: string)
    requires |parts| == 3 && parts[0] != "" && (forall p <- parts :: '/' !in p) && name != "" && '/' !in name
    ensures var e := StripSlashes(d);
            RouteOfPath(Join(parts, '/') + ['/'] + name + d) == if '/' in e then Other else RouteOf(parts + [name + e])
  {
    var head, e := Join(parts, '/') + ['/'], StripSlashes(d);
    var path := head + name + d;
    assert path[0] == parts[0][0] && parts[0][0] in parts[0];
    assert TrimSlashesLeft(path) == path;
    StrippedEnd(head + name, d);
    Seqs.Assoc(head, name, e);
    SplitAt(Join(parts, '/'), name + e, '/');
    SplitOfJoin(parts, '/');
    if '/' in e {
      MorePieces(name + e);
    } else {
      SplitFirst(name + e, "", '/');
    }
  }

  lemma MorePieces(s: string)
    requires '/' in s
    ensures |Split(s, '/')| > 1
  {
    var i := IndexOf(s, '/');
    assert s == s[..i] + s[i..];
  }

  lemma NoNumberWithDot(s: string)
    requires '.' in s
    ensures LinkedStreamIndex(s, "") == None
  {
    assert !IsDigit('.');
    assert s == [s[0]] + s[1..];
  }

  /** Where there is a dot, the extension begins at that one or at a later one. */
  lemma {:induction false} DottedExt(name: string, j: nat, i: nat)
    requires j < i <= |name| && '/' !in name && name[j] == '.'
    ensures var n := |name| - |ExtFrom(name, i)|; j <= n < |name| && name[n] == '.' && ExtFrom(name, i) == name[n..]
  {
    if name[i - 1] != '.' {
      DottedExt(name, j, i - 1);
    }
  }

  /** A number with something behind it that begins with a dot: the number is read, or there is a second dot. */
  lemma NumberedName(k: nat, e: string)
    requires k <= MAX_INT && e != "" && e[0] == '.' && '/' !in e
    ensures var name := Digits(k) + e;
            if Ext(name) == e then LinkedStreamIndex(WithoutExt(name), "") == Some(k)
            else LinkedStreamIndex(WithoutExt(name), "") == None
  {
    DigitsAreSafe(k);
    StemOf(Digits(k), e);
    if Ext(Digits(k) + e) != e {
      NoNumberWithDot(WithoutExt(Digits(k) + e));
    }
  }

  lemma StemOf(stem: string, e: string)
    requires e != "" && e[0] == '.' && '/' !in e && '/' !in stem
    ensures if Ext(stem + e) == e then WithoutExt(stem + e) == stem else '.' in WithoutExt(stem + e)
  {
    var name := stem + e;
    DottedExt(name, |stem|, |name|);
    var n := |name| - |Ext(name)|;
    if n == |stem| {
      assert name[..n] == stem && name[n..] == e;
    } else {
      assert name[..n][|stem|] == '.';
    }
  }

  /**
   What a segment reference with any extension asks for: that segment of that playlist, by that extension if nothing in
   it is cut off or decoded, and otherwise nothing or by a shorter extension.
   */
  lemma SegmentRequested(link: string, p: nat, k: nat, ext: string, suffix: string)
    requires p <= MAX_INT && k <= MAX_INT && IsExt(ext) && IsSuffix(suffix) && IsLink(link)
    ensures var route := Requested([link, PLAYLIST], SegmentReference(p, k, ext, suffix));
            && (IsBare(ext) ==> route == Segment(p, k, ext))
            && (!IsBare(ext) ==> route == Other || exists e :: route == Segment(p, k, e) && e != "" && |e| < |ext|)
  {
    var cut, name, parts := PathPart(ext), Digits(k), [link, SEGMENT, Digits(p)];
    DigitsAreSafe(p);
    DigitsAreSafe(k);
    PathCuts(ext);
    assert forall i :: 0 <= i < |cut| ==> cut[i] == ext[i];
    PathParts(["..", SEGMENT, Digits(p)], name, ext, suffix);
    WalkUp(link, SEGMENT, Digits(p), name + cut);
    LinkPath(link, Digits(p));
    DecodedPath(parts, name, cut);
    UnescapeShrinks(cut);
    match Unescape(cut) {
      case None =>
      case Some(d) => DecodedSegment(link, p, k, ext, cut, d);
    }
  }

  lemma LinkPath(link: string, number: string)
    requires IsLink(link) && '%' !in number
    ensures '%' !in Join([link, SEGMENT, number], '/')
  {
    assert '%' !in SEGMENT;
    JoinLacks([link, SEGMENT, number], '/', '%');
  }

  lemma DecodedSegment(link: string, p: nat, k: nat, ext: string, cut: string, d: string)
    requires p <= MAX_INT && k <= MAX_INT && IsExt(ext) && IsLink(link)
    requires cut == PathPart(ext) && Unescape(cut) == Some(d)
    ensures var route := RouteOfPath(Join([link, SEGMENT, Digits(p)], '/') + ['/'] + Digits(k) + d);
            && (IsBare(ext) ==> route == Segment(p, k, ext))
            && (!IsBare(ext) ==> route == Other || exists e :: route == Segment(p, k, e) && e != "" && |e| < |ext|)
  {
    var e := StripSlashes(d);
    DigitsAreSafe(p);
    DigitsAreSafe(k);
    RouteOfName([link, SEGMENT, Digits(p)], Digits(k), d);
    DecodedExt(ext, cut, d);
    if ext == "" {
      ExtOfName(Digits(k), "");
    } else if '/' !in e {
      NumberedName(k, e);
      if IsBare(ext) {
        ExtOfName(Digits(k), ext);
      }
    }
  }

  /** How an extension looks when it has been cut and decoded. */
  lemma DecodedExt(ext: string, cut: string, d: string)
    requires IsExt(ext) && cut == PathPart(ext) && Unescape(cut) == Some(d)
    ensures var e := StripSlashes(d);
            && |e| <= |d| && (IsBare(ext) ==> e == ext) && (!IsBare(ext) ==> |e| < |ext|)
            && (ext != "" ==> e != "" && e[0] == '.')
            && (ext == "" ==> e == "")
  {
    PathCuts(ext);
    UnescapeShrinks(cut);
    if ext != "" {
      FirstStays(ext);
      UnescapePlain([cut[0]], cut[1..]);
      assert cut == [cut[0]] + cut[1..];
      StrippedEnd([cut[0]], d[1..]);
      assert d == [cut[0]] + d[1..];
      if IsBare(ext) {
        NothingToStrip(ext);
      }
    }
  }

  lemma FirstStays(ext: string)
    requires ext != "" && ext[0] == '.'
    ensures PathPart(ext) != "" && PathPart(ext)[0] == '.'
  {
    PathSkips(".", ext[1..]);
    assert ext == "." + ext[1..];
  }

  lemma NothingToStrip(s: string)
    requires '/' !in s
    ensures StripSlashes(s) == s
  {
  }

  /** A printed playlist reference asks for that playlist. */
  lemma PlaylistRequested(link: string, p: nat, suffix: string)
    requires p <= MAX_INT && IsSuffix(suffix) && IsLink(link)
    ensures Requested([link], PlaylistReference(p, PLAYLIST_EXT, suffix)) == Playlist(p)
  {
    PlaylistWordsArePlain();
    DigitsAreSafe(p);
    NamedRequest(link, PLAYLIST, Digits(p), PLAYLIST_EXT, suffix);
    IndexWithExtension(p, PLAYLIST_EXT);
  }

  lemma PlaylistWordsArePlain()
    ensures '/' !in PLAYLIST && IsBare(PLAYLIST) && PLAYLIST != ".."
    ensures '/' !in PLAYLIST_EXT && IsBare(PLAYLIST_EXT) && PLAYLIST_EXT != ""
  {
  }

  /** A request for a name in a directory below the link. */
  lemma NamedRequest(link: string, dir: string, number: string, ext: string, suffix: string)
    requires IsLink(link) && IsSuffix(suffix) && '/' !in dir && IsBare(dir) && dir != ".."
    requires number != "" && '/' !in number && IsBare(number) && '.' !in number && '/' !in ext && IsBare(ext)
    requires ext != ""
    ensures Requested([link], Join([dir] + [number + (ext + suffix)], '/')) == RouteOf([link, dir, number + ext])
  {
    var name := number + ext;
    PathCuts(ext);
    PathParts([dir], number, ext, suffix);
    assert name[0] == number[0];
    WalkDown([link], dir, [name]);
    WalkDown([link] + [dir], name, []);
    assert [name] + [] == [name] && [link] + [dir] + [name] == [link, dir, name];
    PlainPath([link, dir, name]);
  }

  lemma PlainPath(parts: seq<string>)
    requires parts != [] && parts[0] != "" && parts[|parts| - 1] != "" && forall p <- parts :: '/' !in p && '%' !in p
    ensures Unescape(Join(parts, '/')) == Some(Join(parts, '/'))
    ensures RouteOfPath(Join(parts, '/')) == RouteOf(parts)
  {
    var path := Join(parts, '/');
    JoinLacks(parts, '/', '%');
    UnescapeShrinks(path);
    JoinEnds(parts);
    SplitOfJoin(parts, '/');
  }

  lemma {:induction false} JoinEnds(parts: seq<string>)
    requires parts != [] && parts[0] != "" && parts[|parts| - 1] != "" && forall p <- parts :: '/' !in p
    ensures var path := Join(parts, '/'); path != "" && path[0] != '/' && path[|path| - 1] != '/'
  {
    var first, last := parts[0], parts[|parts| - 1];
    assert first[0] in first && last[|last| - 1] in last;
    if |parts| > 1 {
      assert parts == parts[..|parts| - 1] + [last];
      JoinSnoc(parts[..|parts| - 1], last, '/');
    }
  }

  lemma IndexWithExtension(p: nat, ext: string)
    requires p <= MAX_INT && ext != ""
    ensures LinkedStreamIndex(Digits(p) + ext, ext) == Some(p)
  {
    AtoiOfDigits(p);
    var name := Digits(p) + ext;
    assert name[|name| - |ext|..] == ext && name[..|name| - |ext|] == Digits(p);
  }

  // ---------- Which printed references are answered ----------

  /**
   A request by a segment reference just as it was printed is answered with the very file referenced, exactly when that
   file is not withdrawn and its extension holds no character that a request cuts at or decodes; it is never answered
   with another file.
   */
  lemma PrintedSegmentIsServed(link: string, master: string, p: nat, playlist: string, k: nat, suffix: string,
                               lib: Library, parse: Parse)
    requires p <= MAX_INT && k <= MAX_INT && IsSuffix(suffix) && IsLink(link)
    requires PlaylistOf(master, p, lib, parse) == Some(playlist)
    requires Nth(VariantRefs(playlist, parse), k).Some?
    ensures var ref := Nth(VariantRefs(playlist, parse), k).value;
            var served := SegmentServed(master, Requested([link, PLAYLIST], SegmentReference(p, k, ref.ext, suffix)),
                                        lib, parse);
            && (served == Some(ref) <==> !lib.deleted(ref.cid) && '#' !in ref.ext && '?' !in ref.ext && '%' !in ref.ext)
            && (served.Some? ==> served == Some(ref))
  {
    var refs := VariantRefs(playlist, parse);
    var ref := Nth(refs, k).value;
    NthIsThere(refs, k);
    var read := VariantRead(parse);
    forall value | read(value).Some? ensures IsExt(read(value).value.ext) {
      RefHasExt(value, parse);
    }
    RefsHaveExt(Split(playlist, '\n'), VariantPick, read, k);
    SegmentRequested(link, p, k, ref.ext, suffix);
  }

  lemma {:induction false} RefsHaveExt(lines: seq<string>, pick: Pick, read: ReadRef, k: nat)
    requires forall value :: read(value).Some? ==> IsExt(read(value).value.ext)
    requires k < |References(lines, pick, read)| && References(lines, pick, read)[k].Some?
    ensures IsExt(References(lines, pick, read)[k].value.ext)
  {
    match pick(lines[0]) {
      case None => RefsHaveExt(lines[1..], pick, read, k);
      case Some(value) =>
        if k > 0 {
          RefsHaveExt(lines[1..], pick, read, k - 1);
        }
    }
  }
}
