/**
 Whether a requested file belongs to the media that a policy decided on, for routes that still name files
 directly.
 */
module MediaResource {
  import opened LinkedPlaylists
  import opened Modes
  import opened Options
  import opened PlaylistRef
  import opened Posters
  import opened StreamRoutes
  import opened Text

  datatype RouteKind = FileRoute | SegmentRoute | OtherRoute

  datatype Verdict = Granted | Denied | Unreadable

  const MAX_PLAYLISTS := 32

  /** References as this scan sees them: tags without a value, or with an empty one, are passed over. */
  function ChildPick(line: string): Option<string> {
    var t := Trim(line);
    if t == "" then None
    else if IsTag(line) then
      match PlaylistUri(t)
      case None => None
      case Some(uri) => if uri == "" then None else Some(uri)
    else Some(t)
  }

  function ChildRefs(playlist: string, parse: Parse): seq<Option<Ref>> {
    References(Split(playlist, '\n'), ChildPick, VariantRead(parse))
  }

  datatype Scan = Found | NotThere | Broken

  /** The first reference that is the wanted file or is refused decides. */
  function ScanRefs(refs: seq<Option<Ref>>, cid: string, same: Same): Scan {
    if refs == [] then NotThere
    else match refs[0]
      case None => Broken
      case Some(ref) => if same(ref.cid, cid) then Found else ScanRefs(refs[1..], cid, same)
  }

  /** What one playlist decides; None when the scan goes on. */
  function Checked(playlistCid: string, cid: string, lib: Library, parse: Parse, same: Same): Option<Verdict> {
    if same(cid, playlistCid) then Some(Granted)
    else if lib.deleted(playlistCid) then None
    else match lib.read(playlistCid)
      case None => Some(Unreadable)
      case Some(playlist) => (
        match ScanRefs(ChildRefs(playlist, parse), cid, same)
        case Found => Some(Granted)
        case Broken => Some(Denied)
        case NotThere => None)
  }

  /** The playlists from index i on. */
  function ScanPlaylists(refs: seq<Option<Ref>>, i: nat, cid: string, lib: Library, parse: Parse, same: Same): Verdict
    decreases MAX_PLAYLISTS - i
  {
    if i >= MAX_PLAYLISTS then Denied
    else match Nth(refs, i)
      case None => Denied
      case Some(ref) => (
        match Checked(ref.cid, cid, lib, parse, same)
        case Some(verdict) => verdict
        case None => ScanPlaylists(refs, i + 1, cid, lib, parse, same))
  }

  function ReadMaster(decision: Decision, lib: Library): Option<string> {
    if !ValidCid(decision.source) || lib.deleted(decision.source) then None else lib.read(decision.source)
  }

  function Validated(kind: RouteKind, cid: string, decision: Decision, lib: Library, parse: Parse,
                     same: Same): Verdict {
    if decision.source == "" || lib.deleted(decision.source) then Denied
    else if kind != SegmentRoute then if same(cid, decision.source) then Granted else Denied
    else if same(cid, decision.source) && decision.mode == ORIGINAL then Granted
    else if !decision.isVideo then Denied
    else match ReadMaster(decision, lib)
      case None => Unreadable
      case Some(master) =>
        if VideoPoster(master, cid, decision.mode, parse, same).Some? then Granted
        else if decision.mode != ORIGINAL then Denied
        else ScanPlaylists(MasterRefs(master, parse), 0, cid, lib, parse, same)
  }

  method ScanPlaylist(playlist: string, cid: string, parse: Parse, same: Same) returns (r: Scan)
    ensures r == ScanRefs(ChildRefs(playlist, parse), cid, same)
  {
    var lines := Split(playlist, '\n');
    ghost var read := VariantRead(parse);
    ghost var result := ScanRefs(References(lines, ChildPick, read), cid, same);
    for i := 0 to |lines|
      invariant result == ScanRefs(References(lines[i..], ChildPick, read), cid, same)
    {
      assert lines[i..][0] == lines[i] && lines[i..][1..] == lines[i + 1..];
      ghost var pick := ChildPick(lines[i]);
      var value := Trim(lines[i]);
      if HasPrefix(value, "#") {
        var uri := PlaylistUri(value);
        value := if uri.None? then "" else uri.value;
      }
      assert pick == if value == "" then None else Some(value);
      if value == "" {
        SkipReference(lines[i..], ChildPick, read);
        continue;
      }
      FirstRef(lines[i..], value, read);
      var child := RefOf(value, parse);
      if child.None? {
        return Broken;
      }
      if same(child.value.cid, cid) {
        return Found;
      }
    }
    return NotThere;
  }

  lemma FirstRef(lines: seq<string>, value: string, read: ReadRef)
    requires lines != [] && ChildPick(lines[0]) == Some(value)
    ensures References(lines, ChildPick, read) == [read(value)] + References(lines[1..], ChildPick, read)
  {
  }

  method ValidateMediaResource(kind: RouteKind, cid: string, decision: Decision, lib: Library, parse: Parse, same: Same)
    returns (r: Verdict)
    ensures r == Validated(kind, cid, decision, lib, parse, same)
  {
    if decision.source == "" || lib.deleted(decision.source) {
      return Denied;
    }
    if kind != SegmentRoute {
      return if same(cid, decision.source) then Granted else Denied;
    }
    if same(cid, decision.source) && decision.mode == ORIGINAL {
      return Granted;
    }
    if !decision.isVideo {
      return Denied;
    }
    var master := ReadMaster(decision, lib);
    if master.None? {
      return Unreadable;
    }
    var poster := VideoPosterCid(master.value, cid, decision.mode, parse, same);
    if poster.Some? {
      return Granted;
    }
    if decision.mode != ORIGINAL {
      return Denied;
    }
    r := ScanMaster(master.value, cid, lib, parse, same);
  }

  method ScanMaster(master: string, cid: string, lib: Library, parse: Parse, same: Same) returns (r: Verdict)
    ensures r == ScanPlaylists(MasterRefs(master, parse), 0, cid, lib, parse, same)
  {
    ghost var refs := MasterRefs(master, parse);
    ghost var result := ScanPlaylists(refs, 0, cid, lib, parse, same);
    for i := 0 to MAX_PLAYLISTS
      invariant result == ScanPlaylists(refs, i, cid, lib, parse, same)
    {
      var playlistCid := LinkedMasterPlaylistCid(master, i, parse);
      if playlistCid.None? {
        return Denied;
      }
      var verdict := CheckPlaylist(playlistCid.value, cid, lib, parse, same);
      if verdict.Some? {
        return verdict.value;
      }
    }
    return Denied;
  }

  /** The body of the loop over the playlists. */
  method CheckPlaylist(playlistCid: string, cid: string, lib: Library, parse: Parse,
                       same: Same) returns (r: Option<Verdict>)
    ensures r == Checked(playlistCid, cid, lib, parse, same)
  {
    if same(cid, playlistCid) {
      return Some(Granted);
    }
    if lib.deleted(playlistCid) {
      return None;
    }
    var playlist := lib.read(playlistCid);
    if playlist.None? {
      return Some(Unreadable);
    }
    var scan := ScanPlaylist(playlist.value, cid, parse, same);
    if scan == Broken {
      return Some(Denied);
    }
    return if scan == Found then Some(Granted) else None;
  }

  // ---------- What is granted ----------

  /** The k-th reference is the file. */
  predicate Has(refs: seq<Option<Ref>>, k: nat, cid: string, same: Same) {
    Nth(refs, k).Some? && same(Nth(refs, k).value.cid, cid)
  }

  lemma NthShifts(refs: seq<Option<Ref>>, k: nat)
    requires refs != [] && refs[0].Some?
    ensures Nth(refs, 0) == refs[0] && Nth(refs, k + 1) == Nth(refs[1..], k)
  {
  }

  lemma {:induction false} FoundIff(refs: seq<Option<Ref>>, cid: string, same: Same)
    ensures ScanRefs(refs, cid, same) == Found <==> exists k :: Has(refs, k, cid, same)
    ensures ScanRefs(refs, cid, same) == NotThere ==> forall r <- refs :: r.Some?
    ensures ScanRefs(refs, cid, same) == Broken ==> exists r <- refs :: r.None?
  {
    if refs != [] && refs[0].Some? {
      var rest := refs[1..];
      FoundIff(rest, cid, same);
      if same(refs[0].value.cid, cid) {
        assert Has(refs, 0, cid, same);
      } else {
        if ScanRefs(rest, cid, same) == Found {
          var k: nat :| Has(rest, k, cid, same);
          NthShifts(refs, k);
          assert Has(refs, k + 1, cid, same);
        }
        assert !Has(refs, 0, cid, same);
        forall k: nat | k > 0 && Has(refs, k, cid, same) ensures ScanRefs(rest, cid, same) == Found {
          NthShifts(refs, k - 1);
          assert Has(rest, k - 1, cid, same);
        }
      }
    }
  }

  /** The playlist is the file itself, or holds it where it can be read. */
  ghost predicate Hit(p: string, cid: string, lib: Library, parse: Parse, same: Same) {
    || same(cid, p)
    || (!lib.deleted(p) && lib.read(p).Some? && exists k :: Has(ChildRefs(lib.read(p).value, parse), k, cid, same))
  }

  /** The playlist does not stop the scan: it is withdrawn, or it can be read and refuses no reference. */
  ghost predicate Open(p: string, lib: Library, parse: Parse) {
    lib.deleted(p) || (lib.read(p).Some? && forall r <- ChildRefs(lib.read(p).value, parse) :: r.Some?)
  }

  lemma CheckedIs(p: string, cid: string, lib: Library, parse: Parse, same: Same)
    ensures Checked(p, cid, lib, parse, same) == Some(Granted) <==> Hit(p, cid, lib, parse, same)
    ensures Checked(p, cid, lib, parse, same) == None <==> !Hit(p, cid, lib, parse, same) && Open(p, lib, parse)
  {
    if lib.read(p).Some? {
      FoundIff(ChildRefs(lib.read(p).value, parse), cid, same);
    }
  }

  ghost predicate OpenAt(refs: seq<Option<Ref>>, i: nat, lib: Library, parse: Parse) {
    Nth(refs, i).Some? && Open(Nth(refs, i).value.cid, lib, parse)
  }

  /** From index i the scan arrives at playlist p, which has the file. */
  ghost predicate Leads(refs: seq<Option<Ref>>, i: nat, p: nat, cid: string, lib: Library, parse: Parse, same: Same) {
    && i <= p < MAX_PLAYLISTS
    && Nth(refs, p).Some? && Hit(Nth(refs, p).value.cid, cid, lib, parse, same)
    && forall j :: i <= j < p ==> OpenAt(refs, j, lib, parse)
  }

  /** A file is granted exactly when one of the first playlists has it and those before do not stop the scan. */
  lemma {:induction false} ScanGrants(refs: seq<Option<Ref>>, i: nat, cid: string, lib: Library, parse: Parse,
                                      same: Same)
    requires i <= MAX_PLAYLISTS
    ensures ScanPlaylists(refs, i, cid, lib, parse, same) == Granted
       <==> exists p :: Leads(refs, i, p, cid, lib, parse, same)
    decreases MAX_PLAYLISTS - i
  {
    if i < MAX_PLAYLISTS {
      ScanGrants(refs, i + 1, cid, lib, parse, same);
      var granted := ScanPlaylists(refs, i, cid, lib, parse, same) == Granted;
      if Nth(refs, i).Some? {
        CheckedIs(Nth(refs, i).value.cid, cid, lib, parse, same);
        if granted && Checked(Nth(refs, i).value.cid, cid, lib, parse, same).None? {
          var p :| Leads(refs, i + 1, p, cid, lib, parse, same);
          assert Leads(refs, i, p, cid, lib, parse, same);
        } else if granted {
          assert Leads(refs, i, i, cid, lib, parse, same);
        }
      }
      forall p: nat | Leads(refs, i, p, cid, lib, parse, same) ensures granted {
        assert p > i ==> OpenAt(refs, i, lib, parse) && Leads(refs, i + 1, p, cid, lib, parse, same);
      }
    }
  }

  /** The playlist is not the file, is not withdrawn, and cannot be read. */
  ghost predicate Unread(p: string, cid: string, lib: Library, same: Same) {
    !same(cid, p) && !lib.deleted(p) && lib.read(p).None?
  }

  /** From index i the scan arrives at playlist p and cannot read it. */
  ghost predicate StopsAt(refs: seq<Option<Ref>>, i: nat, p: nat, cid: string, lib: Library, parse: Parse, same: Same) {
    && i <= p < MAX_PLAYLISTS
    && Nth(refs, p).Some? && Unread(Nth(refs, p).value.cid, cid, lib, same)
    && forall j :: i <= j < p ==> OpenAt(refs, j, lib, parse) && !Hit(Nth(refs, j).value.cid, cid, lib, parse, same)
  }

  lemma CheckedUnread(p: string, cid: string, lib: Library, parse: Parse, same: Same)
    ensures Checked(p, cid, lib, parse, same) == Some(Unreadable) <==> Unread(p, cid, lib, same)
  {
  }

  /** The scan fails, rather than denies, exactly when it arrives at a playlist that it cannot read. */
  lemma {:induction false} ScanFailsIff(refs: seq<Option<Ref>>, i: nat, cid: string, lib: Library, parse: Parse,
                                        same: Same)
    requires i <= MAX_PLAYLISTS
    ensures ScanPlaylists(refs, i, cid, lib, parse, same) == Unreadable
       <==> exists p :: StopsAt(refs, i, p, cid, lib, parse, same)
    decreases MAX_PLAYLISTS - i
  {
    if i < MAX_PLAYLISTS {
      ScanFailsIff(refs, i + 1, cid, lib, parse, same);
      var fails := ScanPlaylists(refs, i, cid, lib, parse, same) == Unreadable;
      if Nth(refs, i).Some? {
        CheckedIs(Nth(refs, i).value.cid, cid, lib, parse, same);
        CheckedUnread(Nth(refs, i).value.cid, cid, lib, parse, same);
        if fails && Checked(Nth(refs, i).value.cid, cid, lib, parse, same).None? {
          var p :| StopsAt(refs, i + 1, p, cid, lib, parse, same);
          assert StopsAt(refs, i, p, cid, lib, parse, same);
        } else if fails {
          assert StopsAt(refs, i, i, cid, lib, parse, same);
        }
      }
      forall p: nat | StopsAt(refs, i, p, cid, lib, parse, same) ensures fails {
        assert p > i ==> OpenAt(refs, i, lib, parse) && StopsAt(refs, i + 1, p, cid, lib, parse, same);
      }
    }
  }

  // ---------- Agreement with the indexed routes ----------

  /** A line that both scans pass over, or both read alike. */
  lemma SameLine(line: string)
    requires VariantPick(line) != Some("")
    ensures ChildPick(line) == VariantPick(line)
  {
    TrimKeepsUri(line);
  }

  /** Two ways to pick references that differ in empty ones only. */
  ghost predicate DifferInEmpty(pick: Pick, other: Pick) {
    forall line {:trigger pick(line)} :: pick(line) != Some("") ==> other(line) == pick(line)
  }

  lemma {:induction false} SameUpToEmpty(lines: seq<string>, k: nat, pick: Pick, other: Pick, read: ReadRef)
    requires DifferInEmpty(pick, other) && read("").None? && Nth(References(lines, pick, read), k).Some?
    ensures Nth(References(lines, other, read), k) == Nth(References(lines, pick, read), k)
  {
    match pick(lines[0]) {
      case None => SameUpToEmpty(lines[1..], k, pick, other, read);
      case Some(value) =>
        NextReference(lines, value, k, pick, read);
        NextReference(lines, value, k, other, read);
        if k > 0 {
          SameUpToEmpty(lines[1..], k - 1, pick, other, read);
        }
    }
  }

  lemma ChildrenInclude(lines: seq<string>, k: nat, read: ReadRef)
    requires read("").None? && Nth(References(lines, VariantPick, read), k).Some?
    ensures Nth(References(lines, ChildPick, read), k) == Nth(References(lines, VariantPick, read), k)
  {
    forall line | VariantPick(line) != Some("") ensures ChildPick(line) == VariantPick(line) {
      SameLine(line);
    }
    SameUpToEmpty(lines, k, VariantPick, ChildPick, read);
  }

  /** Whatever the indexed route can reach below index 32 is granted, if the playlists before do not stop the scan. */
  lemma ReachableIsGranted(master: string, p: nat, k: nat, ext: string, cid: string, decision: Decision, lib: Library,
                           parse: Parse, same: Same)
    requires RefOf("", parse).None? && p < MAX_PLAYLISTS
    requires decision.source != "" && !lib.deleted(decision.source) && decision.isVideo && decision.mode == ORIGINAL
    requires ReadMaster(decision, lib) == Some(master)
    requires SegmentServed(master, Segment(p, k, ext), lib, parse).Some?
    requires same(SegmentServed(master, Segment(p, k, ext), lib, parse).value.cid, cid)
    requires forall j :: 0 <= j < p ==> OpenAt(MasterRefs(master, parse), j, lib, parse)
    ensures Validated(SegmentRoute, cid, decision, lib, parse, same) == Granted
  {
    var refs := MasterRefs(master, parse);
    ServedIsHit(master, p, k, ext, cid, lib, parse, same);
    assert Leads(refs, 0, p, cid, lib, parse, same);
    ScanGrants(refs, 0, cid, lib, parse, same);
  }

  lemma ServedIsHit(master: string, p: nat, k: nat, ext: string, cid: string, lib: Library, parse: Parse, same: Same)
    requires RefOf("", parse).None?
    requires SegmentServed(master, Segment(p, k, ext), lib, parse).Some?
    requires same(SegmentServed(master, Segment(p, k, ext), lib, parse).value.cid, cid)
    ensures Nth(MasterRefs(master, parse), p).Some?
    ensures Hit(Nth(MasterRefs(master, parse), p).value.cid, cid, lib, parse, same)
  {
    var playlist := PlaylistOf(master, p, lib, parse).value;
    var read := VariantRead(parse);
    assert read("").None?;
    ChildrenInclude(Split(playlist, '\n'), k, read);
    assert Has(ChildRefs(playlist, parse), k, cid, same);
  }

  /** On a segment route in original mode: exactly the source, its listed posters, and what the scan arrives at. */
  lemma GrantedIff(master: string, cid: string, decision: Decision, lib: Library, parse: Parse, same: Same)
    requires decision.source != "" && !lib.deleted(decision.source) && decision.isVideo && decision.mode == ORIGINAL
    requires ReadMaster(decision, lib) == Some(master)
    ensures Validated(SegmentRoute, cid, decision, lib, parse, same) == Granted
       <==> || same(cid, decision.source)
            || VideoPoster(master, cid, ORIGINAL, parse, same).Some?
            || exists p :: Leads(MasterRefs(master, parse), 0, p, cid, lib, parse, same)
  {
    ScanGrants(MasterRefs(master, parse), 0, cid, lib, parse, same);
  }

  /** Protected modes open a segment route to posters only. */
  lemma ProtectedSeesPostersOnly(cid: string, decision: Decision, lib: Library, parse: Parse, same: Same)
    requires decision.mode != ORIGINAL && Validated(SegmentRoute, cid, decision, lib, parse, same) == Granted
    ensures ReadMaster(decision, lib).Some?
    ensures VideoPoster(ReadMaster(decision, lib).value, cid, decision.mode, parse, same).Some?
  {
  }

  lemma {:induction false} FewerReferences(lines: seq<string>, read: ReadRef)
    ensures |References(lines, ChildPick, read)| <= |References(lines, VariantPick, read)|
    ensures |References(lines, ChildPick, read)| == |References(lines, VariantPick, read)|
       <==> forall l <- lines :: VariantPick(l) != Some("")
  {
    if lines != [] {
      assert lines == [lines[0]] + lines[1..];
      FewerReferences(lines[1..], read);
      EmptyIsPassed(lines[0]);
      if VariantPick(lines[0]) != Some("") {
        SameLine(lines[0]);
      }
    }
  }

  lemma EmptyIsPassed(line: string)
    ensures VariantPick(line) == Some("") ==> ChildPick(line) == None
  {
    TrimKeepsUri(line);
  }

  lemma {:induction false} SameWithoutEmpty(lines: seq<string>, read: ReadRef)
    requires forall l <- lines :: VariantPick(l) != Some("")
    ensures References(lines, ChildPick, read) == References(lines, VariantPick, read)
  {
    if lines != [] {
      SameLine(lines[0]);
      SameWithoutEmpty(lines[1..], read);
    }
  }

  /** This scan and the indexed route see the same references exactly when no tag has an empty value. */
  lemma SameReferencesIff(lines: seq<string>, read: ReadRef)
    ensures References(lines, ChildPick, read) == References(lines, VariantPick, read)
       <==> forall l <- lines :: VariantPick(l) != Some("")
  {
    FewerReferences(lines, read);
    if forall l <- lines :: VariantPick(l) != Some("") {
      SameWithoutEmpty(lines, read);
    }
  }

  /** With one, they differ: the indexed route refuses it and all that follows, while this scan passes over it. */
  lemma EmptyValueDiffers(empty: string, line: string, value: string, read: ReadRef)
    requires VariantPick(empty) == Some("") && read("").None?
    requires VariantPick(line) == Some(value) && value != "" && read(value).Some?
    ensures Nth(References([empty, line], ChildPick, read), 0) == read(value)
    ensures forall k :: Nth(References([empty, line], VariantPick, read), k).None?
  {
    EmptyIsPassed(empty);
    SameLine(line);
    var lines := [empty, line];
    assert lines[1..] == [line];
    SkipReference(lines, ChildPick, read);
    NextReference([line], value, 0, ChildPick, read);
    forall k ensures Nth(References(lines, VariantPick, read), k).None? {
      NextReference(lines, "", k, VariantPick, read);
    }
  }
}
