/** The bookkeeping of an upload: which file got which identifier, and the list kept for deleting them together. */
module UploadDir {
  import opened Counting
  import opened LinkedPlaylists
  import opened MasterPlaylist
  import opened Options
  import opened PlaylistRef
  import Seqs
  import opened Text
  import opened Uploader

  // ---------- Identifiers in a map ----------

  function HasCid(cid: string): (string, string) -> bool { (path: string, c: string) => c == cid }

  /** How many of the paths have this identifier. */
  ghost function CidCount(m: map<string, string>, cid: string): nat { Count(m, HasCid(cid)) }

  lemma CidCountWithout(m: map<string, string>, k: string, cid: string)
    requires k in m
    ensures CidCount(m, cid) == One(m[k] == cid) + CidCount(m - {k}, cid)
  {
    CountWithout(m, k, HasCid(cid));
  }

  lemma CidCountWith(m: map<string, string>, k: string, now: string, cid: string)
    requires k !in m
    ensures CidCount(m[k := now], cid) == CidCount(m, cid) + One(now == cid)
  {
    CountWith(m, k, now, HasCid(cid));
  }

  lemma CountedIfThere(m: map<string, string>, k: string)
    requires k in m
    ensures CidCount(m, m[k]) > 0
  {
    CountNone(m, HasCid(m[k]));
  }

  lemma CidCountNone(cid: string)
    ensures CidCount(map[], cid) == 0
  {
    CountNone<string, string>(map[], HasCid(cid));
  }

  predicate IsPlaylist(path: string) { HasSuffix(path, "playlist.m3u8") }

  ghost function Playlists(files: map<string, string>): map<string, string> {
    map k <- files | IsPlaylist(k) :: files[k]
  }

  ghost function Others(files: map<string, string>): map<string, string> { map k <- files | !IsPlaylist(k) :: files[k] }

  lemma CountSplit(files: map<string, string>, cid: string)
    ensures CidCount(files, cid) == CidCount(Others(files), cid) + CidCount(Playlists(files), cid)
  {
    var a, b := Matching(Others(files), HasCid(cid)), Matching(Playlists(files), HasCid(cid));
    assert Matching(files, HasCid(cid)) == a + b;
    assert a !! b;
  }

  lemma RestOf(files: map<string, string>, k: string)
    requires k in files
    ensures IsPlaylist(k) ==> k in Playlists(files) && Playlists(files)[k] == files[k]
                              && Playlists(files - {k}) == Playlists(files) - {k}
                              && Others(files - {k}) == Others(files)
    ensures !IsPlaylist(k) ==> k in Others(files) && Others(files)[k] == files[k]
                               && Others(files - {k}) == Others(files) - {k}
                               && Playlists(files - {k}) == Playlists(files)
  {
    if IsPlaylist(k) {
      assert Playlists(files - {k}) == Playlists(files) - {k};
      assert Others(files - {k}) == Others(files);
    } else {
      assert Others(files - {k}) == Others(files) - {k};
      assert Playlists(files - {k}) == Playlists(files);
    }
  }

  // ---------- Replacing in a list ----------

  /** How often the list has this identifier. */
  function Times(s: seq<string>, cid: string): nat {
    if s == [] then 0 else Times(s[..|s| - 1], cid) + One(s[|s| - 1] == cid)
  }

  lemma {:induction false} TimesConcat(a: seq<string>, b: seq<string>, cid: string)
    ensures Times(a + b, cid) == Times(a, cid) + Times(b, cid)
  {
    if b == [] {
      assert a + b == a;
    } else {
      assert (a + b)[..|a + b| - 1] == a + b[..|b| - 1];
      TimesConcat(a, b[..|b| - 1], cid);
    }
  }

  lemma {:induction false} TimesMultiset(s: seq<string>, cid: string)
    ensures Times(s, cid) == multiset(s)[cid]
  {
    if s != [] {
      TimesMultiset(s[..|s| - 1], cid);
      assert s == s[..|s| - 1] + [s[|s| - 1]];
    }
  }

  lemma {:induction false} ThereIffTimes(s: seq<string>, cid: string)
    ensures cid in s <==> Times(s, cid) > 0
  {
    if s != [] {
      ThereIffTimes(s[..|s| - 1], cid);
    }
  }

  lemma TimesReplaced(s: seq<string>, i: nat, now: string, cid: string)
    requires i < |s|
    ensures Times(s[i := now], cid) + One(s[i] == cid) == Times(s, cid) + One(now == cid)
  {
    assert s == s[..i] + ([s[i]] + s[i + 1..]) && s[i := now] == s[..i] + ([now] + s[i + 1..]);
    TimesConcat(s[..i], [s[i]] + s[i + 1..], cid);
    TimesConcat(s[..i], [now] + s[i + 1..], cid);
    TimesConcat([s[i]], s[i + 1..], cid);
    TimesConcat([now], s[i + 1..], cid);
    assert Times([], cid) == 0;
    assert Times([s[i]], cid) == One(s[i] == cid) && Times([now], cid) == One(now == cid);
  }

  /** The first occurrence gives way; nothing else changes. */
  method ReplaceInSlice(s: seq<string>, was: string, now: string) returns (r: seq<string>)
    ensures was !in s ==> r == s
    ensures was in s ==> exists i :: 0 <= i < |s| && s[i] == was && was !in s[..i] && r == s[i := now]
  {
    r := s;
    for i := 0 to |s|
      invariant r == s && was !in s[..i]
    {
      if r[i] == was {
        r := r[i := now];
        return;
      }
    }
  }

  // ---------- Posters ----------

  datatype PosterPath = PosterPath(variant: string, size: string)

  predicate IsEither(c: char, a: char, b: char) { c == a || c == b }

  predicate EndsLikeJpg(path: string) {
    var n := |path|;
    n >= 4 && path[n - 4] == '.' && IsEither(path[n - 3], 'j', 'J') && IsEither(path[n - 2], 'p', 'P') &&
    IsEither(path[n - 1], 'g', 'G')
  }

  const POSTERS := "posters/"

  function PosterFromPath(path: string): Option<PosterPath> {
    if !HasPrefix(path, POSTERS) || !EndsLikeJpg(path) then None
    else
      var name := path[|POSTERS|..];
      var parts := Split(name, '/');
      var last, ext := parts[|parts| - 1], Ext(name);
      var size := if HasSuffix(last, ext) then last[..|last| - |ext|] else last;
      if |parts| > 2 || size == "" then None
      else Some(PosterPath(if |parts| == 2 then parts[0] else "", size))
  }

  lemma PosterIsNoPlaylist(path: string)
    requires PosterFromPath(path).Some?
    ensures !IsPlaylist(path)
  {
    PlaylistEnd(path);
  }

  lemma PlaylistEnd(path: string)
    ensures IsPlaylist(path) ==> path != "" && path[|path| - 1] == '8'
  {
    var tail := "playlist.m3u8";
    if IsPlaylist(path) {
      assert path[|path| - 1] == path[|path| - |tail|..][|tail| - 1];
    }
  }

  /** The poster that a path gives. */
  function PosterOf(path: string, cid: string): (p: Poster)
    requires PosterFromPath(path).Some?
  {
    Poster(PosterFromPath(path).value.variant, PosterFromPath(path).value.size, cid)
  }

  // ---------- Sorting them ----------

  /** Strings in the order of their characters. */
  predicate Earlier(a: string, b: string) {
    b != "" && (a == "" || a[0] < b[0] || (a[0] == b[0] && Earlier(a[1..], b[1..])))
  }

  /** By variant, and by the area that the size names. */
  predicate Less(p: Poster, q: Poster, area: string -> int) {
    if p.variant != q.variant then Earlier(p.variant, q.variant) else area(p.size) < area(q.size)
  }

  ghost predicate InOrder(posters: seq<Poster>, area: string -> int) {
    forall i, j :: 0 <= i < j < |posters| ==> !Less(posters[j], posters[i], area)
  }

  type Sort = seq<Poster> -> seq<Poster>

  /** Sorting gives back the same posters in order, equal ones in any order. */
  ghost predicate Sorts(sort: Sort, area: string -> int) {
    forall ps :: multiset(sort(ps)) == multiset(ps) && InOrder(sort(ps), area)
  }

  function Gives(p: Poster): (string, string) -> bool {
    (path: string, cid: string) => PosterFromPath(path).Some? && PosterOf(path, cid) == p
  }

  /** Each poster as often as files give it. */
  ghost predicate AreThePosters(posters: seq<Poster>, files: map<string, string>) {
    forall p :: multiset(posters)[p] == Count(files, Gives(p))
  }

  lemma PostersAreFromFiles(posters: seq<Poster>, files: map<string, string>, p: Poster)
    requires AreThePosters(posters, files)
    ensures p in posters <==> exists k <- files :: PosterFromPath(k).Some? && p == PosterOf(k, files[k])
  {
    CountNone(files, Gives(p));
    assert p in posters <==> multiset(posters)[p] > 0;
  }

  /** The posters among the files, in order, whatever order the map gives. */
  method CollectPosters(files: map<string, string>, sort: Sort,
                        ghost area: string -> int) returns (posters: seq<Poster>)
    requires Sorts(sort, area)
    ensures AreThePosters(posters, files) && InOrder(posters, area)
  {
    posters := [];
    var rest := files;
    while rest.Keys != {}
      invariant forall p :: multiset(posters)[p] + Count(rest, Gives(p)) == Count(files, Gives(p))
      decreases rest.Keys
    {
      var k :| k in rest;
      ghost var before := posters;
      if PosterFromPath(k).Some? {
        posters := posters + [PosterOf(k, rest[k])];
      }
      OnePosterMore(before, posters, rest, k);
      rest := rest - {k};
    }
    forall p ensures multiset(posters)[p] == Count(files, Gives(p)) {
      CountNone(rest, Gives(p));
    }
    posters := sort(posters);
  }

  lemma OnePosterMore(before: seq<Poster>, after: seq<Poster>, rest: map<string, string>, k: string)
    requires k in rest && after == before + if PosterFromPath(k).Some? then [PosterOf(k, rest[k])] else []
    ensures forall p :: multiset(after)[p] + Count(rest - {k}, Gives(p)) == multiset(before)[p] + Count(rest, Gives(p))
  {
    forall p ensures multiset(after)[p] + Count(rest - {k}, Gives(p)) == multiset(before)[p] + Count(rest, Gives(p)) {
      CountWithout(rest, k, Gives(p));
    }
  }

  /** Two files that give one variant and size. */
  lemma OneSizeTwice()
    ensures PosterFromPath(POSTERS + ("a" + ".jpg")) == PosterFromPath(POSTERS + ("a" + ".JPG"))
         == Some(PosterPath("", "a"))
  {
    PlainPoster("a", ".jpg");
    PlainPoster("a", ".JPG");
  }

  lemma PlainPoster(size: string, ext: string)
    requires size != "" && '.' !in size && '/' !in size && |ext| == 4 && EndsLikeJpg(ext) && IsExt(ext)
    ensures PosterFromPath(POSTERS + (size + ext)) == Some(PosterPath("", size))
  {
    EndsAlike(POSTERS + size, ext);
    Seqs.Assoc(POSTERS, size, ext);
    SplitFirst(size + ext, "", '/');
    ExtOfName(size, ext);
    PosterParts(size + ext, [size + ext], size, ext);
  }

  lemma PosterParts(name: string, parts: seq<string>, size: string, ext: string)
    requires EndsLikeJpg(POSTERS + name) && Split(name, '/') == parts && 0 < |parts| <= 2 && size != ""
    requires Ext(name) == ext && parts[|parts| - 1] == size + ext
    ensures PosterFromPath(POSTERS + name) == Some(PosterPath(if |parts| == 2 then parts[0] else "", size))
  {
    var last := size + ext;
    Seqs.TakeDrop(POSTERS, name);
    assert last[|last| - |ext|..] == ext && last[..|last| - |ext|] == size;
  }

  /** The same in the directory of a variant. */
  lemma DrawnPoster(variant: string, size: string, ext: string)
    requires size != "" && '/' !in size && '/' !in variant && |ext| == 4 && EndsLikeJpg(ext) && IsExt(ext)
    ensures PosterFromPath(POSTERS + (variant + ['/'] + (size + ext))) == Some(PosterPath(variant, size))
  {
    var stem, last := variant + ['/'] + size, size + ext;
    Seqs.Assoc(variant + ['/'], size, ext);
    Seqs.Assoc(POSTERS, stem, ext);
    EndsAlike(POSTERS + stem, ext);
    TwoParts(variant, last);
    ExtOfName(stem, ext);
    PosterParts(stem + ext, [variant, last], size, ext);
  }

  lemma TwoParts(dir: string, name: string)
    requires '/' !in dir && '/' !in name
    ensures Split(dir + ['/'] + name, '/') == [dir, name]
  {
    SplitFirst(dir, name, '/');
    SplitFirst(name, "", '/');
  }

  lemma EndsAlike(a: string, ext: string)
    requires |ext| == 4 && EndsLikeJpg(ext)
    ensures EndsLikeJpg(a + ext)
  {
  }

  // ---------- The upload ----------

  datatype File = File(path: string, content: string)

  /** Directories of relative paths. */
  datatype Paths = Paths(dir: string -> string, join: (string, string) -> string)

  /** Storing a named file gives its identifier, or fails. */
  type Store = (string, string) -> Option<string>

  datatype Upload = Upload(master: string, variants: map<string, string>, segments: map<string, string>,
                           all: seq<string>)

  function Beside(files: map<string, string>, dir: string, join: (string, string) -> string): Lookup {
    (name: string) => var path := join(dir, name); if path in files then Some(files[path]) else None
  }

  /** The playlist as it is stored: with the identifiers of the files beside it. */
  function Stored(files: map<string, string>, path: string, content: string, paths: Paths): string {
    Lines(UploadedLines(Split(content, '\n'), Beside(files, paths.dir(path), paths.join)))
  }

  /** The list holds every file once, those of the remaining playlists as they were and the others as stored anew. */
  ghost predicate Listed(all: seq<string>, files: map<string, string>, anew: map<string, string>,
                         rest: map<string, string>) {
    forall cid :: Times(all, cid) == CidCount(Others(files), cid) + CidCount(anew, cid) + CidCount(Playlists(rest), cid)
  }

  /** The first pass: every file is stored and listed. */
  method StoreFiles(walk: seq<File>, store: Store) returns (stored: Option<map<string, string>>, all: seq<string>)
    requires forall i, j :: 0 <= i < j < |walk| ==> walk[i].path != walk[j].path
    ensures stored.Some? ==>
              && FilesStored(walk, |walk|, stored.value, store)
              && forall cid :: Times(all, cid) == CidCount(stored.value, cid)
    ensures stored.None? ==> exists f <- walk :: store(Base(f.path), f.content).None?
  {
    var files: map<string, string> := map[];
    all := [];
    forall cid ensures Times(all, cid) == CidCount(files, cid) {
      CidCountNone(cid);
    }
    for i := 0 to |walk|
      invariant FilesStored(walk, i, files, store)
      invariant forall cid :: Times(all, cid) == CidCount(files, cid)
    {
      var path := walk[i].path;
      var added := store(Base(path), walk[i].content);
      if added.None? {
        return None, all;
      }
      forall cid ensures Times(all + [added.value], cid) == CidCount(files[path := added.value], cid) {
        CidCountWith(files, path, added.value, cid);
        Appended(all, added.value, cid);
      }
      files := files[path := added.value];
      all := all + [added.value];
    }
    return Some(files), all;
  }

  lemma Appended(all: seq<string>, last: string, cid: string)
    ensures Times(all + [last], cid) == Times(all, cid) + One(last == cid)
  {
    assert (all + [last])[..|all|] == all;
  }

  ghost predicate FilesStored(walk: seq<File>, n: nat, files: map<string, string>, store: Store)
    requires n <= |walk|
  {
    && (forall j :: 0 <= j < n ==>
          walk[j].path in files && Some(files[walk[j].path]) == store(Base(walk[j].path), walk[j].content))
    && (forall k <- files :: exists j :: 0 <= j < n && walk[j].path == k)
  }

  lemma FirstIsStored(walk: seq<File>, files: map<string, string>, store: Store)
    requires FilesStored(walk, |walk|, files, store)
    ensures walk != [] ==> walk[0].path in files.Keys
  {
  }

  /** Each playlist dealt with so far has been stored as rewritten. */
  ghost predicate StoredAnew(anew: map<string, string>, files: map<string, string>, read: string -> Option<string>,
                             store: Store, paths: Paths) {
    forall k <- anew :: read(k).Some? && store(Base(k), Stored(files, k, read(k).value, paths)) == Some(anew[k])
  }

  /** The variants are the directories of those playlists, each with one of its playlists. */
  ghost predicate Covers(variants: map<string, string>, anew: map<string, string>, dir: string -> string) {
    && (forall k <- anew :: dir(k) in variants)
    && (forall d <- variants :: exists k <- anew :: dir(k) == d && variants[d] == anew[k])
  }

  lemma CoversMore(variants: map<string, string>, anew: map<string, string>, dir: string -> string, k: string,
                   cid: string)
    requires Covers(variants, anew, dir) && k !in anew
    ensures Covers(variants[dir(k) := cid], anew[k := cid], dir)
  {
    var v, a := variants[dir(k) := cid], anew[k := cid];
    forall d <- v ensures exists x <- a :: dir(x) == d && v[d] == a[x] {
      if d == dir(k) {
        assert k in a && v[d] == a[k];
      } else {
        var x :| x in anew && dir(x) == d && variants[d] == anew[x];
        assert x in a && a[x] == anew[x];
      }
    }
  }

  lemma OtherListed(all: seq<string>, files: map<string, string>, anew: map<string, string>,
                    rest: map<string, string>, k: string)
    requires Listed(all, files, anew, rest) && k in rest && !IsPlaylist(k)
    ensures Listed(all, files, anew, rest - {k})
  {
    RestOf(rest, k);
  }

  lemma PlaylistListed(all: seq<string>, files: map<string, string>, anew: map<string, string>,
                       rest: map<string, string>, k: string, now: string, replaced: seq<string>)
    requires Listed(all, files, anew, rest) && k in rest && k !in anew && IsPlaylist(k)
    requires rest[k] in all ==> exists i :: 0 <= i < |all| && all[i] == rest[k] && replaced == all[i := now]
    ensures Listed(replaced, files, anew[k := now], rest - {k})
  {
    var was := rest[k];
    RestOf(rest, k);
    CountedIfThere(Playlists(rest), k);
    ThereIffTimes(all, was);
    var i :| 0 <= i < |all| && all[i] == was && replaced == all[i := now];
    forall cid
      ensures Times(replaced, cid)
           == CidCount(Others(files), cid) + CidCount(anew[k := now], cid) + CidCount(Playlists(rest - {k}), cid)
    {
      CidCountWithout(Playlists(rest), k, cid);
      CidCountWith(anew, k, now, cid);
      TimesReplaced(all, i, now, cid);
    }
  }

  /** Where the second pass stands. */
  ghost predicate Midway(files: map<string, string>, rest: map<string, string>, all: seq<string>,
                         variants: map<string, string>, anew: map<string, string>, read: string -> Option<string>,
                         store: Store, paths: Paths) {
    && rest.Keys <= files.Keys && (forall k <- rest :: rest[k] == files[k])
    && anew.Keys == Playlists(files).Keys - rest.Keys
    && Listed(all, files, anew, rest)
    && StoredAnew(anew, files, read, store, paths) && Covers(variants, anew, paths.dir)
  }

  lemma PassStarts(files: map<string, string>, listed: seq<string>, read: string -> Option<string>, store: Store,
                   paths: Paths)
    requires forall cid :: Times(listed, cid) == CidCount(files, cid)
    ensures Midway(files, files, listed, map[], map[], read, store, paths)
  {
    forall cid
      ensures Times(listed, cid)
           == CidCount(Others(files), cid) + CidCount(map[], cid) + CidCount(Playlists(files), cid)
    {
      CountSplit(files, cid);
      CidCountNone(cid);
    }
  }

  lemma PassSkips(files: map<string, string>, rest: map<string, string>, all: seq<string>,
                  variants: map<string, string>, anew: map<string, string>, read: string -> Option<string>,
                  store: Store, paths: Paths, k: string)
    requires Midway(files, rest, all, variants, anew, read, store, paths) && k in rest && !IsPlaylist(k)
    ensures Midway(files, rest - {k}, all, variants, anew, read, store, paths)
  {
    OtherListed(all, files, anew, rest, k);
    assert k !in Playlists(files);
  }

  lemma PassReplaces(files: map<string, string>, rest: map<string, string>, all: seq<string>,
                     variants: map<string, string>, anew: map<string, string>, read: string -> Option<string>,
                     store: Store, paths: Paths, k: string, cid: string, replaced: seq<string>)
    requires Midway(files, rest, all, variants, anew, read, store, paths) && k in rest && IsPlaylist(k)
    requires read(k).Some? && store(Base(k), Stored(files, k, read(k).value, paths)) == Some(cid)
    requires rest[k] in all ==> exists i :: 0 <= i < |all| && all[i] == rest[k] && replaced == all[i := cid]
    ensures Midway(files, rest - {k}, replaced, variants[paths.dir(k) := cid], anew[k := cid], read, store, paths)
  {
    PlaylistListed(all, files, anew, rest, k, cid, replaced);
    CoversMore(variants, anew, paths.dir, k, cid);
    StoredMore(anew, files, read, store, paths, k, cid);
    OneLess(files, rest, anew, k, cid);
  }

  lemma StoredMore(anew: map<string, string>, files: map<string, string>, read: string -> Option<string>, store: Store,
                   paths: Paths, k: string, cid: string)
    requires StoredAnew(anew, files, read, store, paths)
    requires read(k).Some? && store(Base(k), Stored(files, k, read(k).value, paths)) == Some(cid)
    ensures StoredAnew(anew[k := cid], files, read, store, paths)
  {
  }

  lemma OneLess(files: map<string, string>, rest: map<string, string>, anew: map<string, string>, k: string,
                cid: string)
    requires rest.Keys <= files.Keys && k in rest && IsPlaylist(k) && anew.Keys == Playlists(files).Keys - rest.Keys
    ensures anew[k := cid].Keys == Playlists(files).Keys - (rest - {k}).Keys
  {
    assert k in Playlists(files);
  }

  /** The second pass, in any order of the map: playlists are stored anew and take their place in the list. */
  method StorePlaylists(files: map<string, string>, listed: seq<string>, read: string -> Option<string>, store: Store,
                        paths: Paths)
    returns (ok: bool, variants: map<string, string>, all: seq<string>, ghost anew: map<string, string>)
    requires forall cid :: Times(listed, cid) == CidCount(files, cid)
    ensures ok ==> Midway(files, map[], all, variants, anew, read, store, paths)
    ensures !ok <==> exists k <- files :: IsPlaylist(k) && StoredPlaylist(files, k, read, store, paths).None?
  {
    variants, all, anew := map[], listed, map[];
    var rest := files;
    PassStarts(files, listed, read, store, paths);
    while rest.Keys != {}
      invariant Midway(files, rest, all, variants, anew, read, store, paths)
      decreases rest.Keys
    {
      var k :| k in rest;
      assert rest[k] == files[k];
      if IsPlaylist(k) {
        var newCid := StorePlaylist(files, k, read, store, paths);
        if newCid.None? {
          return false, variants, all, anew;
        }
        var replaced := ReplaceInSlice(all, rest[k], newCid.value);
        PassReplaces(files, rest, all, variants, anew, read, store, paths, k, newCid.value, replaced);
        variants := variants[paths.dir(k) := newCid.value];
        all := replaced;
        anew := anew[k := newCid.value];
      } else {
        PassSkips(files, rest, all, variants, anew, read, store, paths, k);
      }
      rest := rest - {k};
    }
    assert rest == map[];
    forall k <- files | IsPlaylist(k) ensures StoredPlaylist(files, k, read, store, paths).Some? {
      assert k in anew;
    }
    return true, variants, all, anew;
  }

  function StoredPlaylist(files: map<string, string>, path: string, read: string -> Option<string>, store: Store,
                          paths: Paths): Option<string> {
    if read(path).None? then None else store(Base(path), Stored(files, path, read(path).value, paths))
  }

  method StorePlaylist(files: map<string, string>, path: string, read: string -> Option<string>, store: Store,
                       paths: Paths)
    returns (cid: Option<string>)
    ensures cid == StoredPlaylist(files, path, read, store, paths)
  {
    var content := read(path);
    if content.None? {
      return None;
    }
    var updated := RewriteVariantPlaylist(content.value, Beside(files, paths.dir(path), paths.join));
    cid := store(Base(path), updated);
  }

  const MASTER := "master.m3u8"

  /** The master names the variants and the posters among the files, and the segments are listed apart. */
  ghost predicate Published(u: Upload, files: map<string, string>, posters: seq<Poster>, store: Store) {
    && AreThePosters(posters, files)
    && store(MASTER, Lines(MasterLines(posters, u.variants))) == Some(u.master)
    && u.segments == map k <- files | HasSuffix(k, M4S) :: files[k]
  }

  /**
   A finished upload, with the identifiers of the files and of the playlists stored anew.  Counted with repetition,
   the list holds the files that are not playlists, the playlists as stored anew, and the master.
   */
  ghost predicate IsUpload(u: Upload, walk: seq<File>, files: map<string, string>, anew: map<string, string>,
                           posters: seq<Poster>, read: string -> Option<string>, store: Store, paths: Paths)
  {
    && FilesStored(walk, |walk|, files, store) && files != map[]
    && Accounted(u, files, anew)
    && StoredAnew(anew, files, read, store, paths) && Covers(u.variants, anew, paths.dir)
    && Published(u, files, posters, store)
  }

  /** Whether storing the master may fail, for some order of its posters and some playlist for each directory. */
  ghost predicate MasterMayFail(files: map<string, string>, store: Store) {
    exists posters, variants ::
      AreThePosters(posters, files) && store(MASTER, Lines(MasterLines(posters, variants))).None?
  }

  /** What makes an upload fail: no files, or something that cannot be read or stored. */
  ghost predicate MayFail(walk: seq<File>, read: string -> Option<string>, store: Store, paths: Paths) {
    || walk == [] || (exists f <- walk :: store(Base(f.path), f.content).None?)
    || exists files ::
         && FilesStored(walk, |walk|, files, store)
         && (MasterMayFail(files, store)
             || exists k <- files :: IsPlaylist(k) && StoredPlaylist(files, k, read, store, paths).None?)
  }

  /** The whole upload, in whatever order maps are visited, and even where identifiers coincide. */
  method UploadAll(walk: seq<File>, read: string -> Option<string>, store: Store, paths: Paths, sort: Sort,
                   ghost area: string -> int)
    returns (r: Option<Upload>)
    requires Sorts(sort, area) && forall i, j :: 0 <= i < j < |walk| ==> walk[i].path != walk[j].path
    ensures r.Some? ==> exists files, anew, posters :: IsUpload(r.value, walk, files, anew, posters, read, store, paths)
    ensures r.None? ==> MayFail(walk, read, store, paths)
  {
    var files, listed := StoreFiles(walk, store);
    if files.Some? {
      FirstIsStored(walk, files.value, store);
    }
    if files.None? || files.value.Keys == {} {
      return None;
    }
    var ok, variants, all, anew := StorePlaylists(files.value, listed, read, store, paths);
    if !ok {
      return None;
    }
    var posters;
    r, posters := Publish(files.value, variants, all, store, sort, area);
    if r.Some? {
      AccountedFor(r.value, files.value, anew, all, read, store, paths);
      assert IsUpload(r.value, walk, files.value, anew, posters, read, store, paths);
    }
  }

  method Publish(files: map<string, string>, variants: map<string, string>, all: seq<string>, store: Store, sort: Sort,
                 ghost area: string -> int)
    returns (r: Option<Upload>, posters: seq<Poster>)
    requires Sorts(sort, area)
    ensures r.Some? ==>
              Published(r.value, files, posters, store) && r.value.variants == variants &&
              r.value.all == all + [r.value.master]
    ensures r.None? ==> MasterMayFail(files, store)
  {
    posters := CollectPosters(files, sort, area);
    var content := BuildMasterPlaylist(variants, posters);
    var master := store(MASTER, content);
    if master.None? {
      return None, posters;
    }
    var segments := Segments(files);
    return Some(Upload(master.value, variants, segments, all + [master.value])), posters;
  }

  method Segments(files: map<string, string>) returns (segments: map<string, string>)
    ensures segments == map k <- files | HasSuffix(k, M4S) :: files[k]
  {
    segments := map[];
    var rest := files;
    while rest.Keys != {}
      invariant rest.Keys <= files.Keys && forall k <- rest :: rest[k] == files[k]
      invariant segments == map k <- files | HasSuffix(k, M4S) && k !in rest :: files[k]
      decreases rest.Keys
    {
      var k :| k in rest;
      if HasSuffix(k, M4S) {
        segments := segments[k := rest[k]];
      }
      rest := rest - {k};
    }
  }

  /** What an upload leaves behind, given the identifiers of the files and those of the playlists stored anew. */
  ghost predicate Accounted(u: Upload, files: map<string, string>, anew: map<string, string>) {
    && anew.Keys == Playlists(files).Keys
    && forall cid :: multiset(u.all)[cid] == CidCount(Others(files), cid) + CidCount(anew, cid) + One(u.master == cid)
  }

  lemma AccountedFor(u: Upload, files: map<string, string>, anew: map<string, string>, all: seq<string>,
                     read: string -> Option<string>, store: Store, paths: Paths)
    requires Midway(files, map[], all, u.variants, anew, read, store, paths) && u.all == all + [u.master]
    ensures Accounted(u, files, anew)
  {
    forall cid
      ensures multiset(u.all)[cid] == CidCount(Others(files), cid) + CidCount(anew, cid) + One(u.master == cid)
    {
      TimesMultiset(u.all, cid);
      Appended(all, u.master, cid);
      assert Playlists(map[]) == map[];
      CidCountNone(cid);
    }
  }

  // ---------- Nothing named is untracked ----------

  lemma TrackedFiles(u: Upload, files: map<string, string>, anew: map<string, string>)
    requires Accounted(u, files, anew)
    ensures u.master in u.all && (forall k <- anew :: anew[k] in u.all) && forall k <- files :: !IsPlaylist(k) ==>
              files[k] in u.all
  {
    forall k <- anew ensures anew[k] in u.all {
      CountedIfThere(anew, k);
      assert multiset(u.all)[anew[k]] > 0;
    }
    forall k <- files | !IsPlaylist(k) ensures files[k] in u.all {
      assert k in Others(files);
      CountedIfThere(Others(files), k);
      assert multiset(u.all)[files[k]] > 0;
    }
    assert multiset(u.all)[u.master] > 0;
  }

  /** Joining a directory and a name keeps the end of a name that ends in neither a slash nor a dot. */
  ghost predicate Joins(join: (string, string) -> string) {
    forall d, n {:trigger join(d, n)} :: n != "" && n[|n| - 1] !in "./" ==>
      join(d, n) != "" && join(d, n)[|join(d, n)| - 1] == n[|n| - 1]
  }

  /** Every identifier that a playlist of the upload names is in the list that is deleted as a group. */
  lemma PlaylistNamesAreTracked(u: Upload, files: map<string, string>, anew: map<string, string>, path: string,
                                content: string, paths: Paths, parse: Parse, k: nat)
    requires Accounted(u, files, anew) && Joins(paths.join) && Relative(parse)
    requires AllKnown(Split(content, '\n'), Beside(files, paths.dir(path), paths.join))
    requires k < |VariantRefs(Stored(files, path, content, paths), parse)|
    ensures VariantRefs(Stored(files, path, content, paths), parse)[k].Some?
    ensures VariantRefs(Stored(files, path, content, paths), parse)[k].value.cid in u.all
  {
    var lookup, lines := Beside(files, paths.dir(path), paths.join), Split(content, '\n');
    UploadedIndexResolves(content, lookup, parse, k);
    TrackedFiles(u, files, anew);
    forall line <- lines | Referred(line, lookup).Some? ensures Referred(line, lookup).value.cid in u.all {
      ReferredIsFile(line, files, paths.dir(path), paths.join);
    }
    ExpectedAmong(lines, lookup, u.all, k);
  }

  lemma {:induction false} ExpectedAmong(lines: seq<string>, lookup: Lookup, all: seq<string>, k: nat)
    requires forall line <- lines :: Referred(line, lookup).Some? ==> Referred(line, lookup).value.cid in all
    requires k < |Expected(lines, lookup)| && Expected(lines, lookup)[k].Some?
    ensures Expected(lines, lookup)[k].value.cid in all
  {
    if VariantPick(lines[0]).None? {
      ExpectedAmong(lines[1..], lookup, all, k);
    } else if k > 0 {
      ExpectedAmong(lines[1..], lookup, all, k - 1);
    } else {
      assert lines[0] in lines;
    }
  }

  /** One of the files that are not playlists has this identifier. */
  ghost predicate IsFile(files: map<string, string>, cid: string) {
    exists path <- files :: !IsPlaylist(path) && files[path] == cid
  }

  lemma ReferredIsFile(line: string, files: map<string, string>, dir: string, join: (string, string) -> string)
    requires Joins(join) && Referred(line, Beside(files, dir, join)).Some?
    ensures IsFile(files, Referred(line, Beside(files, dir, join)).value.cid)
  {
    var name := if HasPrefix(Trim(line), MAP_TAG) then INIT else Trim(line);
    assert name != "" && (name[|name| - 1] == '4' || name[|name| - 1] == 's') by {
      assert |INIT| == 8 && INIT[7] == '4' && |M4S| == 4 && M4S[3] == 's';
      if !HasPrefix(Trim(line), MAP_TAG) {
        assert name[|name| - |M4S|..][3] == M4S[3];
      }
    }
    PlaylistEnd(join(dir, name));
  }

  /** So is every playlist and every poster that the master names. */
  lemma MasterNamesAreTracked(u: Upload, files: map<string, string>, anew: map<string, string>, posters: seq<Poster>,
                              dir: string -> string)
    requires Accounted(u, files, anew) && Covers(u.variants, anew, dir)
    requires forall p <- posters :: exists k <- files :: PosterFromPath(k).Some? && p == PosterOf(k, files[k])
    ensures forall cid <- Present(QUALITIES, u.variants) :: cid in u.all
    ensures forall p <- posters :: p.cid in u.all
  {
    TrackedFiles(u, files, anew);
    forall cid <- Present(QUALITIES, u.variants) ensures cid in u.all {
      PresentAreVariants(QUALITIES, u.variants);
    }
    forall p <- posters ensures p.cid in u.all {
      var k :| k in files && PosterFromPath(k).Some? && p == PosterOf(k, files[k]);
      PosterIsNoPlaylist(k);
    }
  }

  lemma {:induction false} PresentAreVariants(order: seq<Quality>, variants: map<string, string>)
    ensures forall cid <- Present(order, variants) :: exists d <- variants :: variants[d] == cid
  {
    if order != [] {
      PresentAreVariants(order[1..], variants);
    }
  }
}
