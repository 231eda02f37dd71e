/** Playlists served under opaque indices, and the requests that resolve the indices again. */
module LinkedPlaylists {
  import opened Options
  import opened PlaylistRef
  import opened Text

  // ---------- References in order ----------

  /** Which part of a line is a reference, if any. */
  type Pick = string -> Option<string>

  /** What a reference names; None where it is refused. */
  type ReadRef = string -> Option<Ref>

  function References(lines: seq<string>, pick: Pick, read: ReadRef): seq<Option<Ref>> {
    if lines == [] then []
    else match pick(lines[0])
      case None => References(lines[1..], pick, read)
      case Some(value) => [read(value)] + References(lines[1..], pick, read)
  }

  /** The k-th reference, unless it or one before it is refused. */
  function Nth(refs: seq<Option<Ref>>, k: nat): Option<Ref> {
    if refs == [] || refs[0].None? then None else if k == 0 then refs[0] else Nth(refs[1..], k - 1)
  }

  lemma {:induction false} NthIsThere(refs: seq<Option<Ref>>, k: nat)
    ensures Nth(refs, k).Some? <==> k < |refs| && forall j :: 0 <= j <= k ==> refs[j].Some?
    ensures Nth(refs, k).Some? ==> Nth(refs, k) == refs[k]
  {
    if refs != [] && refs[0].Some? && k > 0 {
      NthIsThere(refs[1..], k - 1);
      assert forall j :: 0 < j < |refs| ==> refs[j] == refs[1..][j - 1];
    }
  }

  predicate IsTag(line: string) { "#" <= Trim(line) }

  /** In a variant playlist tags may carry a reference too. */
  function VariantPick(line: string): Option<string> {
    if Trim(line) == "" then None else if IsTag(line) then PlaylistUri(line) else Some(Trim(line))
  }

  function MasterPick(line: string): Option<string> {
    if Trim(line) == "" || IsTag(line) then None else Some(Trim(line))
  }

  function VariantRead(parse: Parse): ReadRef { value => RefOf(value, parse) }

  const PLAYLIST_EXT := ".m3u8"
  const PLAYLIST := "playlist"
  const SEGMENT := "segment"

  function PlaylistRefOf(value: string, parse: Parse): Option<Ref> {
    match RefOf(value, parse)
    case None => None
    case Some(ref) => if ref.ext == PLAYLIST_EXT then Some(ref) else None
  }

  function MasterRead(parse: Parse): ReadRef { value => PlaylistRefOf(value, parse) }

  function VariantRefs(content: string, parse: Parse): seq<Option<Ref>> {
    References(Split(content, '\n'), VariantPick, VariantRead(parse))
  }

  function MasterRefs(content: string, parse: Parse): seq<Option<Ref>> {
    References(Split(content, '\n'), MasterPick, MasterRead(parse))
  }

  method LinkedVariantAssetCid(content: string, wanted: nat, parse: Parse) returns (r: Option<Ref>)
    ensures r == Nth(VariantRefs(content, parse), wanted)
  {
    var lines := Split(content, '\n');
    ghost var read := VariantRead(parse);
    var index := 0;
    for i := 0 to |lines|
      invariant index <= wanted
      invariant Nth(References(lines, VariantPick, read), wanted)
             == Nth(References(lines[i..], VariantPick, read), wanted - index)
    {
      var line, trimmed := lines[i], Trim(lines[i]);
      assert lines[i..][0] == line && lines[i..][1..] == lines[i + 1..];
      if trimmed == "" {
        continue;
      }
      var value := "";
      if HasPrefix(trimmed, "#") {
        var uri := PlaylistUri(line);
        if uri.None? {
          continue;
        }
        value := uri.value;
      } else {
        value := trimmed;
      }
      NextReference(lines[i..], value, wanted - index, VariantPick, read);
      var ref := RefOf(value, parse);
      if ref.None? {
        return None;
      }
      if index == wanted {
        return ref;
      }
      index := index + 1;
    }
    return None;
  }

  lemma SkipReference(lines: seq<string>, pick: Pick, read: ReadRef)
    requires lines != [] && pick(lines[0]).None?
    ensures References(lines, pick, read) == References(lines[1..], pick, read)
  {
  }

  lemma NextReference(lines: seq<string>, value: string, k: nat, pick: Pick, read: ReadRef)
    requires lines != [] && pick(lines[0]) == Some(value)
    ensures read(value).None? ==> Nth(References(lines, pick, read), k) == None
    ensures read(value).Some? && k == 0 ==> Nth(References(lines, pick, read), k) == read(value)
    ensures read(value).Some? && k > 0 ==>
              Nth(References(lines, pick, read), k) == Nth(References(lines[1..], pick, read), k - 1)
  {
    var refs := References(lines, pick, read);
    assert refs[0] == read(value) && refs[1..] == References(lines[1..], pick, read);
  }

  function CidOf(ref: Option<Ref>): Option<string> {
    match ref case None => None case Some(r) => Some(r.cid)
  }

  method LinkedMasterPlaylistCid(content: string, wanted: nat, parse: Parse) returns (r: Option<string>)
    ensures r == CidOf(Nth(MasterRefs(content, parse), wanted))
  {
    var lines := Split(content, '\n');
    ghost var read := MasterRead(parse);
    ghost var result := Nth(References(lines, MasterPick, read), wanted);
    var index := 0;
    for i := 0 to |lines|
      invariant index <= wanted
      invariant result == Nth(References(lines[i..], MasterPick, read), wanted - index)
    {
      var trimmed := Trim(lines[i]);
      assert lines[i..][0] == lines[i] && lines[i..][1..] == lines[i + 1..];
      if trimmed == "" || HasPrefix(trimmed, "#") {
        SkipReference(lines[i..], MasterPick, read);
        continue;
      }
      NextReference(lines[i..], trimmed, wanted - index, MasterPick, read);
      var ref := RefOf(trimmed, parse);
      PlaylistRefIs(trimmed, parse);
      if ref.None? || ref.value.ext != PLAYLIST_EXT {
        return None;
      }
      if index == wanted {
        return Some(ref.value.cid);
      }
      index := index + 1;
    }
    return None;
  }

  lemma PlaylistRefIs(value: string, parse: Parse)
    ensures var ref := RefOf(value, parse);
            MasterRead(parse)(value) == if ref.None? || ref.value.ext != PLAYLIST_EXT then None else ref
  {
  }

  // ---------- Rewriting ----------

  /** What becomes of a line: refused, kept or changed without an index, or given the next index. */
  datatype Edit = Refused | Plain(line: string) | Indexed(line: string)

  type Editor = (string, nat) -> Edit

  function Rewritten(lines: seq<string>, index: nat, edit: Editor): Option<seq<string>> {
    if lines == [] then Some([])
    else match edit(lines[0], index)
      case Refused => None
      case Plain(line) => Prepend(line, Rewritten(lines[1..], index, edit))
      case Indexed(line) => Prepend(line, Rewritten(lines[1..], index + 1, edit))
  }

  function Prepend(line: string, rest: Option<seq<string>>): Option<seq<string>> {
    match rest case None => None case Some(lines) => Some([line] + lines)
  }

  /** How the k-th asset is named, given its extension, and the k-th playlist. */
  type Names = (nat, string) -> string

  function SegmentReference(playlist: nat, asset: nat, ext: string, suffix: string): string {
    Join(["..", SEGMENT, Digits(playlist)] + [Digits(asset) + (ext + suffix)], '/')
  }

  function SegmentNames(playlist: nat, suffix: string): Names {
    (asset: nat, ext: string) => SegmentReference(playlist, asset, ext, suffix)
  }

  function PlaylistReference(playlist: nat, ext: string, suffix: string): string {
    Join([PLAYLIST] + [Digits(playlist) + (ext + suffix)], '/')
  }

  function PlaylistNames(suffix: string): Names {
    (playlist: nat, ext: string) => PlaylistReference(playlist, ext, suffix)
  }

  function EditVariantLine(line: string, asset: nat, names: Names, parse: Parse): Edit {
    var trimmed := Trim(line);
    if trimmed == "" then Plain(line)
    else if IsTag(line) then
      if !Contains(trimmed, MARKER) then Plain(line)
      else match PlaylistUri(line)
        case None => Refused
        case Some(uri) => (
          match RefOf(uri, parse)
          case None => Refused
          case Some(ref) => (
            match ReplaceUri(line, names(asset, ref.ext))
            case None => Refused
            case Some(rewritten) => Indexed(rewritten)))
    else match RefOf(trimmed, parse)
      case None => Refused
      case Some(ref) => Indexed(names(asset, ref.ext))
  }

  function VariantEditor(names: Names, parse: Parse): Editor {
    (line: string, asset: nat) => EditVariantLine(line, asset, names, parse)
  }

  function EditMasterLine(line: string, playlist: nat, names: Names, poster: string, parse: Parse): Edit {
    var trimmed := Trim(line);
    if trimmed == "" then Plain(line)
    else if IsTag(line) then
      if !Contains(trimmed, MARKER) then Plain(line)
      else match ReplaceUri(line, poster)
        case None => Refused
        case Some(rewritten) => Plain(rewritten)
    else match RefOf(trimmed, parse)
      case None => Refused
      case Some(ref) => if ref.ext != PLAYLIST_EXT then Refused else Indexed(names(playlist, ref.ext))
  }

  function MasterEditor(names: Names, poster: string, parse: Parse): Editor {
    (line: string, playlist: nat) => EditMasterLine(line, playlist, names, poster, parse)
  }

  function Joined(lines: Option<seq<string>>): Option<string> {
    match lines case None => None case Some(l) => Some(Join(l, '\n'))
  }

  /** The lines done so far in front of those still to come. */
  function Onto(done: seq<string>, rest: Option<seq<string>>): Option<seq<string>> {
    match rest case None => None case Some(lines) => Some(done + lines)
  }

  lemma StepRewrite(lines: seq<string>, done: seq<string>, i: nat, k: nat, edit: Editor)
    requires i < |lines|
    ensures edit(lines[i], k).Refused? ==> Onto(done, Rewritten(lines[i..], k, edit)) == None
    ensures edit(lines[i], k).Plain? ==>
              (Onto(done, Rewritten(lines[i..], k, edit))
               == Onto(done + [edit(lines[i], k).line], Rewritten(lines[i + 1..], k, edit)))
    ensures edit(lines[i], k).Indexed? ==>
              (Onto(done, Rewritten(lines[i..], k, edit))
               == Onto(done + [edit(lines[i], k).line], Rewritten(lines[i + 1..], k + 1, edit)))
  {
    assert lines[i..][1..] == lines[i + 1..];
    match edit(lines[i], k) {
      case Refused =>
      case Plain(line) => OntoPrepend(done, line, Rewritten(lines[i + 1..], k, edit));
      case Indexed(line) => OntoPrepend(done, line, Rewritten(lines[i + 1..], k + 1, edit));
    }
  }

  lemma OntoPrepend(done: seq<string>, line: string, rest: Option<seq<string>>)
    ensures Onto(done, Prepend(line, rest)) == Onto(done + [line], rest)
  {
    match rest {
      case None =>
      case Some(lines) => assert done + ([line] + lines) == done + [line] + lines;
    }
  }

  lemma OntoNothing(rest: Option<seq<string>>)
    ensures Onto([], rest) == rest
  {
    match rest {
      case None =>
      case Some(all) => assert [] + all == all;
    }
  }

  lemma OntoEnds(lines: seq<string>, k: nat, edit: Editor)
    ensures Onto([], Rewritten(lines[0..], k, edit)) == Rewritten(lines, k, edit)
    ensures Onto(lines, Rewritten([], k, edit)) == Some(lines)
  {
    assert lines[0..] == lines;
    OntoNothing(Rewritten(lines, k, edit));
    assert lines + [] == lines;
  }

  /** `lines` is `before` with its first lines replaced by those done. */
  ghost predicate Partly(lines: seq<string>, done: seq<string>, before: seq<string>, i: nat) {
    i <= |before| && |done| == i && lines == done + before[i..]
  }

  lemma PartlyStep(lines: seq<string>, done: seq<string>, before: seq<string>, i: nat, line: string)
    requires Partly(lines, done, before, i) && i < |before|
    ensures |lines| == |before| && lines[i] == before[i]
    ensures Partly(lines[i := line], done + [line], before, i + 1)
    ensures line == before[i] ==> lines[i := line] == lines
  {
  }

  method RewriteVariantLines(content: string, names: Names, parse: Parse) returns (r: Option<string>)
    ensures r == Joined(Rewritten(Split(content, '\n'), 0, VariantEditor(names, parse)))
  {
    var lines := Split(content, '\n');
    ghost var before, edit := lines, VariantEditor(names, parse);
    ghost var result, done := Rewritten(before, 0, edit), [];
    OntoEnds(before, 0, edit);
    var assetIndex := 0;
    for index := 0 to |lines|
      invariant |lines| == |before| && Partly(lines, done, before, index)
      invariant result == Onto(done, Rewritten(before[index..], assetIndex, edit))
    {
      var line := lines[index];
      PartlyStep(lines, done, before, index, line);
      var trimmed := Trim(line);
      StepRewrite(before, done, index, assetIndex, edit);
      assert edit(line, assetIndex) == EditVariantLine(line, assetIndex, names, parse);
      if trimmed == "" {
        done := done + [line];
        continue;
      }
      if HasPrefix(trimmed, "#") {
        if Contains(trimmed, MARKER) {
          var uri := PlaylistUri(line);
          if uri.None? {
            return None;
          }
          var ref := RefOf(uri.value, parse);
          if ref.None? {
            return None;
          }
          var rewritten := ReplaceUri(line, names(assetIndex, ref.value.ext));
          if rewritten.None? {
            return None;
          }
          PartlyStep(lines, done, before, index, rewritten.value);
          lines, done := lines[index := rewritten.value], done + [rewritten.value];
          assetIndex := assetIndex + 1;
        } else {
          done := done + [line];
        }
        continue;
      }
      var ref := RefOf(trimmed, parse);
      if ref.None? {
        return None;
      }
      var name := names(assetIndex, ref.value.ext);
      PartlyStep(lines, done, before, index, name);
      lines, done := lines[index := name], done + [name];
      assetIndex := assetIndex + 1;
    }
    assert lines == done;
    OntoEnds(lines, assetIndex, edit);
    return Some(Join(lines, '\n'));
  }

  method RewriteLinkedVariantPlaylist(content: string, playlistIndex: nat, authSuffix: string,
                                      parse: Parse) returns (r: Option<string>)
    ensures r == Joined(Rewritten(Split(content, '\n'), 0,
                                  VariantEditor(SegmentNames(playlistIndex, authSuffix), parse)))
  {
    r := RewriteVariantLines(content, SegmentNames(playlistIndex, authSuffix), parse);
  }

  method RewriteMasterLines(content: string, names: Names, poster: string, parse: Parse) returns (r: Option<string>)
    ensures r == Joined(Rewritten(Split(content, '\n'), 0, MasterEditor(names, poster, parse)))
  {
    var lines := Split(content, '\n');
    ghost var before, edit := lines, MasterEditor(names, poster, parse);
    ghost var result, done := Rewritten(before, 0, edit), [];
    OntoEnds(before, 0, edit);
    var playlistIndex := 0;
    for index := 0 to |lines|
      invariant |lines| == |before| && Partly(lines, done, before, index)
      invariant result == Onto(done, Rewritten(before[index..], playlistIndex, edit))
    {
      var line := lines[index];
      PartlyStep(lines, done, before, index, line);
      var trimmed := Trim(line);
      StepRewrite(before, done, index, playlistIndex, edit);
      assert edit(line, playlistIndex) == EditMasterLine(line, playlistIndex, names, poster, parse);
      if trimmed == "" {
        done := done + [line];
        continue;
      }
      if HasPrefix(trimmed, "#") {
        if Contains(trimmed, MARKER) {
          var rewritten := ReplaceUri(line, poster);
          if rewritten.None? {
            return None;
          }
          PartlyStep(lines, done, before, index, rewritten.value);
          lines, done := lines[index := rewritten.value], done + [rewritten.value];
        } else {
          done := done + [line];
        }
        continue;
      }
      var ref := RefOf(trimmed, parse);
      if ref.None? || ref.value.ext != PLAYLIST_EXT {
        return None;
      }
      var name := names(playlistIndex, ref.value.ext);
      PartlyStep(lines, done, before, index, name);
      lines, done := lines[index := name], done + [name];
      playlistIndex := playlistIndex + 1;
    }
    assert lines == done;
    OntoEnds(lines, playlistIndex, edit);
    return Some(Join(lines, '\n'));
  }

  method RewriteLinkedMasterPlaylist(content: string, authSuffix: string, parse: Parse) returns (r: Option<string>)
    ensures r == Joined(Rewritten(Split(content, '\n'), 0,
                                  MasterEditor(PlaylistNames(authSuffix), "poster.jpg" + authSuffix, parse)))
  {
    r := RewriteMasterLines(content, PlaylistNames(authSuffix), "poster.jpg" + authSuffix, parse);
  }
}
