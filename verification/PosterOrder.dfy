/** Whether the order in which posters are printed decides what a viewer is sent. */
module PosterOrder {
  import opened Counting
  import opened MasterPlaylist
  import opened Modes
  import opened Options
  import opened PlaylistRef
  import opened Posters
  import opened Text
  import opened UploadDir

  /** One of the lists that sorting may give: equal posters come in any order. */
  ghost predicate IsSorting(ps: seq<Poster>, posters: seq<Poster>, area: string -> int) {
    multiset(ps) == multiset(posters) && InOrder(ps, area)
  }

  /** All posters of that size and variant are one file. */
  ghost predicate OneFile(posters: seq<Poster>, size: string, variant: string) {
    forall p <- posters, q <- posters | IsRendition(p, size, variant) && IsRendition(q, size, variant) ::
      p.cid == q.cid
  }

  function Swapped(posters: seq<Poster>, i: nat, j: nat): seq<Poster>
    requires i < |posters| && j < |posters|
  {
    posters[i := posters[j]][j := posters[i]]
  }

  /** Posters of one size and variant may change places. */
  lemma SwappedIsSorting(posters: seq<Poster>, i: nat, j: nat, area: string -> int)
    requires i < j < |posters| && InOrder(posters, area)
    requires posters[i].size == posters[j].size && posters[i].variant == posters[j].variant
    ensures IsSorting(Swapped(posters, i, j), posters, area)
  {
    var ps := Swapped(posters, i, j);
    forall a, b | 0 <= a < b < |ps| ensures !Less(ps[b], ps[a], area) {
      assert ps[a].variant == posters[a].variant && ps[a].size == posters[a].size;
      assert ps[b].variant == posters[b].variant && ps[b].size == posters[b].size;
    }
  }

  /** The place of the first poster of that size and variant. */
  lemma {:induction false} FirstPlace(posters: seq<Poster>, size: string, variant: string) returns (i: nat)
    requires exists p <- posters :: IsRendition(p, size, variant)
    ensures i < |posters| && IsRendition(posters[i], size, variant)
    ensures forall j :: 0 <= j < i ==> !IsRendition(posters[j], size, variant)
    ensures Rendition(posters, size, variant) == Some(posters[i].cid)
  {
    if IsRendition(posters[0], size, variant) {
      i := 0;
    } else {
      assert posters == [posters[0]] + posters[1..];
      var k := FirstPlace(posters[1..], size, variant);
      i := k + 1;
    }
  }

  lemma RenditionAt(posters: seq<Poster>, size: string, variant: string, i: nat)
    requires i < |posters| && IsRendition(posters[i], size, variant)
    requires forall j :: 0 <= j < i ==> !IsRendition(posters[j], size, variant)
    ensures Rendition(posters, size, variant) == Some(posters[i].cid)
  {
    assert posters[i] in posters;
    var first := FirstPlace(posters, size, variant);
  }

  /** Two files of one size and variant: some other sorted list has the other one first. */
  lemma OtherFirst(posters: seq<Poster>, size: string, variant: string, p: Poster, area: string -> int)
    returns (ps: seq<Poster>)
    requires InOrder(posters, area) && p in posters && IsRendition(p, size, variant)
    ensures IsSorting(ps, posters, area) && Rendition(ps, size, variant) == Some(p.cid)
  {
    var i := FirstPlace(posters, size, variant);
    var j :| 0 <= j < |posters| && posters[j] == p;
    if i == j {
      ps := posters;
    } else {
      ps := Swapped(posters, i, j);
      SwappedIsSorting(posters, i, j, area);
      RenditionAt(ps, size, variant, i);
    }
  }

  lemma SameMembers(ps: seq<Poster>, posters: seq<Poster>)
    requires multiset(ps) == multiset(posters)
    ensures forall p :: p in ps <==> p in posters
  {
    assert forall p :: p in ps <==> p in multiset(ps);
    assert forall p :: p in posters <==> p in multiset(posters);
  }

  lemma OneFileIsFirst(ps: seq<Poster>, posters: seq<Poster>, size: string, variant: string)
    requires multiset(ps) == multiset(posters) && OneFile(posters, size, variant)
    ensures Rendition(ps, size, variant) == Rendition(posters, size, variant)
  {
    SameMembers(ps, posters);
    RenditionIsFirst(ps, size, variant);
    RenditionIsFirst(posters, size, variant);
  }

  /** What the viewer of the original `o` is sent in a protected mode. */
  function Viewed(posters: seq<Poster>, variants: map<string, string>, requested: string, mode: string, parse: Parse,
                  same: Same): Option<string> {
    VideoPoster(Lines(MasterLines(posters, variants)), requested, mode, parse, same)
  }

  lemma ViewedIsRendition(ps: seq<Poster>, posters: seq<Poster>, variants: map<string, string>, requested: string,
                          mode: string, parse: Parse, same: Same, o: Poster)
    requires Relative(parse) && GoodMaster(posters, variants) && mode != ORIGINAL && multiset(ps) == multiset(posters)
    requires o in posters && Wanted(o, requested, same) && forall p <- posters :: Wanted(p, requested, same) ==> p == o
    ensures Viewed(ps, variants, requested, mode, parse, same) == Rendition(ps, o.size, mode)
  {
    SameMembers(ps, posters);
    PrintedMasterPosters(ps, variants, parse);
    SelectedIs(ps, ps, requested, mode, same, o);
  }

  /**
   For an original that a request names alone: whichever sorted list of the posters is printed, the viewer in a
   protected mode is sent the same file, exactly when all posters of that size drawn for the mode are one file.
   */
  lemma OrderIsHiddenIff(posters: seq<Poster>, variants: map<string, string>, requested: string, mode: string,
                         parse: Parse, same: Same, o: Poster, area: string -> int)
    requires Relative(parse) && GoodMaster(posters, variants) && mode != ORIGINAL && InOrder(posters, area)
    requires o in posters && Wanted(o, requested, same) && forall p <- posters :: Wanted(p, requested, same) ==> p == o
    ensures var viewed := (ps: seq<Poster>) => Viewed(ps, variants, requested, mode, parse, same);
            (forall ps :: IsSorting(ps, posters, area) ==> viewed(ps) == viewed(posters))
            <==> OneFile(posters, o.size, mode)
  {
    forall ps | multiset(ps) == multiset(posters)
      ensures Viewed(ps, variants, requested, mode, parse, same) == Rendition(ps, o.size, mode)
    {
      ViewedIsRendition(ps, posters, variants, requested, mode, parse, same, o);
    }
    RenditionOrderIff(posters, o.size, mode, area);
  }

  lemma RenditionOrderIff(posters: seq<Poster>, size: string, variant: string, area: string -> int)
    requires InOrder(posters, area)
    ensures (forall ps :: IsSorting(ps, posters, area) ==>
               Rendition(ps, size, variant) == Rendition(posters, size, variant))
       <==> OneFile(posters, size, variant)
  {
    if OneFile(posters, size, variant) {
      forall ps | IsSorting(ps, posters, area)
        ensures Rendition(ps, size, variant) == Rendition(posters, size, variant)
      {
        OneFileIsFirst(ps, posters, size, variant);
      }
    }
    forall p, q | p in posters && q in posters && IsRendition(p, size, variant) && IsRendition(q, size, variant)
      ensures p.cid == q.cid || exists ps :: IsSorting(ps, posters, area) &&
                                             Rendition(ps, size, variant) != Rendition(posters, size, variant)
    {
      var a := OtherFirst(posters, size, variant, p, area);
      var b := OtherFirst(posters, size, variant, q, area);
    }
  }

  // ---------- Two orders ----------

  const LOWER := ".jpg"
  const UPPER := ".JPG"

  predicate IsPart(name: string) { name != "" && '.' !in name && '/' !in name && !Delimited(name) }

  /** The file of an original poster, and that of one drawn for a mode. */
  function Plain(size: string): string { POSTERS + (size + LOWER) }

  function Drawn(mode: string, size: string, ext: string): string { POSTERS + (mode + ['/'] + (size + ext)) }

  function Files(mode: string, size: string, cid: string, lower: string, upper: string): map<string, string> {
    map[][Plain(size) := cid][Drawn(mode, size, LOWER) := lower][Drawn(mode, size, UPPER) := upper]
  }

  lemma Endings()
    ensures |LOWER| == 4 && LOWER[3] == 'g' && EndsLikeJpg(LOWER) && IsExt(LOWER)
    ensures |UPPER| == 4 && UPPER[3] == 'G' && EndsLikeJpg(UPPER) && IsExt(UPPER)
  {
  }

  lemma PlainGives(size: string, cid: string, p: Poster)
    requires IsPart(size)
    ensures Gives(p)(Plain(size), cid) <==> p == Poster("", size, cid)
  {
    Endings();
    PlainPoster(size, LOWER);
  }

  lemma DrawnGives(mode: string, size: string, ext: string, cid: string, p: Poster)
    requires IsPart(size) && IsPart(mode) && (ext == LOWER || ext == UPPER)
    ensures Gives(p)(Drawn(mode, size, ext), cid) <==> p == Poster(mode, size, cid)
  {
    Endings();
    DrawnPoster(mode, size, ext);
  }

  lemma ThreePaths(mode: string, size: string)
    requires IsPart(mode)
    ensures Plain(size) != Drawn(mode, size, LOWER) && Plain(size) != Drawn(mode, size, UPPER)
    ensures Drawn(mode, size, LOWER) != Drawn(mode, size, UPPER)
  {
    Endings();
    var a, b, c := Plain(size), Drawn(mode, size, LOWER), Drawn(mode, size, UPPER);
    assert |a| < |b| == |c| && b[|b| - 1] == 'g' && c[|c| - 1] == 'G';
  }

  /** Three entries are counted one by one. */
  lemma CountThree(a: string, b: string, c: string, x: string, y: string, z: string, gives: (string, string) -> bool)
    requires a != b && a != c && b != c
    ensures Count(map[][a := x][b := y][c := z], gives) == One(gives(a, x)) + One(gives(b, y)) + One(gives(c, z))
  {
    var none: map<string, string> := map[];
    CountNone(none, gives);
    CountWith(none, a, x, gives);
    CountWith(none[a := x], b, y, gives);
    CountWith(none[a := x][b := y], c, z, gives);
  }

  lemma ListOfThree(mode: string, size: string, cid: string, lower: string, upper: string, posters: seq<Poster>)
    requires IsPart(mode) && IsPart(size)
    requires multiset(posters) == multiset{Poster("", size, cid), Poster(mode, size, lower), Poster(mode, size, upper)}
    ensures AreThePosters(posters, Files(mode, size, cid, lower, upper))
  {
    ThreePaths(mode, size);
    forall p ensures multiset(posters)[p] == Count(Files(mode, size, cid, lower, upper), Gives(p)) {
      CountThree(Plain(size), Drawn(mode, size, LOWER), Drawn(mode, size, UPPER), cid, lower, upper, Gives(p));
      PlainGives(size, cid, p);
      DrawnGives(mode, size, LOWER, lower, p);
      DrawnGives(mode, size, UPPER, upper, p);
      TimesOfThree(p, Poster("", size, cid), Poster(mode, size, lower), Poster(mode, size, upper));
    }
  }

  lemma TimesOfThree<T>(p: T, a: T, b: T, c: T)
    ensures multiset{a, b, c}[p] == One(p == a) + One(p == b) + One(p == c)
  {
  }

  /** Two files of one mode and size, and two sorted lists of the posters: the viewer is sent the one or the other. */
  lemma SortDecides(variants: map<string, string>, mode: string, size: string, cid: string, lower: string,
                    upper: string, parse: Parse, same: Same, area: string -> int)
    requires Relative(parse) && GoodQualities(QUALITIES, variants)
    requires IsPart(mode) && IsPart(size) && mode != ORIGINAL
    requires ValidCid(cid) && ValidCid(lower) && ValidCid(upper) && lower != upper
    ensures var o, l, u := Poster("", size, cid), Poster(mode, size, lower), Poster(mode, size, upper);
            var files := Files(mode, size, cid, lower, upper);
            && AreThePosters([o, l, u], files) && InOrder([o, l, u], area)
            && AreThePosters([o, u, l], files) && InOrder([o, u, l], area)
            && Viewed([o, l, u], variants, "", mode, parse, same) == Some(lower)
            && Viewed([o, u, l], variants, "", mode, parse, same) == Some(upper)
  {
    var o, l, u := Poster("", size, cid), Poster(mode, size, lower), Poster(mode, size, upper);
    NotDelimited("");
    ListOfThree(mode, size, cid, lower, upper, [o, l, u]);
    ListOfThree(mode, size, cid, lower, upper, [o, u, l]);
    FirstDrawnIsViewed(variants, mode, o, l, u, parse, same, area);
    FirstDrawnIsViewed(variants, mode, o, u, l, parse, same, area);
  }

  lemma NotDelimited(s: string)
    requires s == ""
    ensures !Delimited(s)
  {
  }

  lemma FirstDrawnIsViewed(variants: map<string, string>, mode: string, o: Poster, a: Poster, b: Poster, parse: Parse,
                           same: Same, area: string -> int)
    requires Relative(parse) && GoodQualities(QUALITIES, variants) && mode != "" && mode != ORIGINAL
    requires Printable(o) && Printable(a) && Printable(b) && o.variant == "" && a.variant == b.variant == mode
    requires o.size == a.size == b.size
    ensures InOrder([o, a, b], area) && Viewed([o, a, b], variants, "", mode, parse, same) == Some(a.cid)
  {
    OnlyWanted(o, a, b, same);
    GoodThree(o, a, b, variants);
    SecondIsViewed([o, a, b], variants, "", mode, o, parse, same);
    OriginalsComeFirst(o, a, b, area);
  }

  lemma GoodThree(o: Poster, a: Poster, b: Poster, variants: map<string, string>)
    requires GoodQualities(QUALITIES, variants) && Printable(o) && Printable(a) && Printable(b)
    ensures GoodMaster([o, a, b], variants)
  {
  }

  lemma SecondIsViewed(posters: seq<Poster>, variants: map<string, string>, requested: string, mode: string, o: Poster,
                       parse: Parse, same: Same)
    requires Relative(parse) && GoodMaster(posters, variants) && mode != ORIGINAL && |posters| > 1
    requires o in posters && Wanted(o, requested, same) && forall p <- posters :: Wanted(p, requested, same) ==> p == o
    requires !IsRendition(posters[0], o.size, mode) && IsRendition(posters[1], o.size, mode)
    ensures Viewed(posters, variants, requested, mode, parse, same) == Some(posters[1].cid)
  {
    SecondRendition(posters, o.size, mode);
    ViewedIsRendition(posters, posters, variants, requested, mode, parse, same, o);
  }

  lemma SecondRendition(posters: seq<Poster>, size: string, variant: string)
    requires |posters| > 1 && !IsRendition(posters[0], size, variant) && IsRendition(posters[1], size, variant)
    ensures Rendition(posters, size, variant) == Some(posters[1].cid)
  {
    RenditionAt(posters, size, variant, 1);
  }

  lemma OnlyWanted(o: Poster, a: Poster, b: Poster, same: Same)
    requires o.variant == "" && a.variant == b.variant != ""
    ensures Wanted(o, "", same) && forall p <- [o, a, b] :: Wanted(p, "", same) ==> p == o
  {
  }

  lemma OriginalsComeFirst(o: Poster, a: Poster, b: Poster, area: string -> int)
    requires o.variant == "" && a.variant == b.variant != "" && a.size == b.size
    ensures InOrder([o, a, b], area)
  {
    assert !Less(a, o, area) && !Less(b, o, area) && !Less(b, a, area);
  }
}
