/** References in playlists: file names made of a content identifier and an extension. */
module PlaylistRef {
  import opened Options
  import Seqs
  import opened Text

  /** The path of a reference; None where parsing it fails.  Percent escapes are decoded in it. */
  type Parse = string -> Option<string>

  datatype Ref = Ref(cid: string, ext: string)

  predicate IsLetterOrDigit(c: char) { 'A' <= c <= 'Z' || 'a' <= c <= 'z' || '0' <= c <= '9' }

  predicate IsLowerOrDigit(c: char) { 'a' <= c <= 'z' || '0' <= c <= '9' }

  predicate ValidCid(cid: string) {
    || (|cid| == 46 && "Qm" <= cid && forall c <- cid[2..] :: IsLetterOrDigit(c))
    || (|cid| >= 53 && "baf" <= cid && forall c <- cid[3..] :: IsLowerOrDigit(c))
  }

  lemma CidChars(cid: string)
    requires ValidCid(cid)
    ensures cid != "" && forall c <- cid :: IsLetterOrDigit(c)
  {
    assert cid == cid[..2] + cid[2..] && cid == cid[..3] + cid[3..];
    if |cid| == 46 {
      assert cid[..2] == "Qm";
    } else {
      assert cid[..3] == "baf";
    }
  }

  function StripSlashes(path: string): string {
    if path != "" && path[|path| - 1] == '/' then StripSlashes(path[..|path| - 1]) else path
  }

  /** The last element of a path. */
  function Base(path: string): string {
    var stripped := StripSlashes(path);
    if path == "" then "."
    else if stripped == "" then "/"
    else var parts := Split(stripped, '/'); parts[|parts| - 1]
  }

  /** From the last dot of the last element on, or nothing. */
  function Ext(name: string): (e: string)
    ensures |e| <= |name| && name[|name| - |e|..] == e
  {
    ExtFrom(name, |name|)
  }

  function ExtFrom(name: string, i: nat): (e: string)
    requires i <= |name|
    ensures |e| <= |name| && name[|name| - |e|..] == e
  {
    if i == 0 || name[i - 1] == '/' then name[|name|..]
    else if name[i - 1] == '.' then name[i - 1..]
    else ExtFrom(name, i - 1)
  }

  function WithoutExt(name: string): string { name[..|name| - |Ext(name)|] }

  /** The identifier and extension that a reference names. */
  function RefOf(value: string, parse: Parse): Option<Ref> {
    match parse(Trim(value))
    case None => None
    case Some(path) =>
      var name := Base(path);
      if ValidCid(WithoutExt(name)) then Some(Ref(WithoutExt(name), Ext(name))) else None
  }

  // ---------- Names ----------

  /** An extension as a whole: nothing, or a dot and no further dot or slash. */
  predicate IsExt(e: string) {
    e == "" || (e[0] == '.' && '.' !in e[1..] && '/' !in e)
  }

  lemma {:induction false} ExtFromIsExt(name: string, i: nat)
    requires i <= |name| && forall k :: i <= k < |name| ==> name[k] != '.' && name[k] != '/'
    ensures IsExt(ExtFrom(name, i))
  {
    if i > 0 && name[i - 1] != '/' && name[i - 1] != '.' {
      ExtFromIsExt(name, i - 1);
    }
  }

  lemma RefHasExt(value: string, parse: Parse)
    requires RefOf(value, parse).Some?
    ensures IsExt(RefOf(value, parse).value.ext) && ValidCid(RefOf(value, parse).value.cid)
  {
    var name := Base(parse(Trim(value)).value);
    ExtFromIsExt(name, |name|);
  }

  lemma {:induction false} ExtFromDot(name: string, d: nat, i: nat)
    requires d < i <= |name| && name[d] == '.' && forall k :: d < k < |name| ==> name[k] != '.' && name[k] != '/'
    ensures ExtFrom(name, i) == name[d..]
  {
    if i - 1 > d {
      ExtFromDot(name, d, i - 1);
    }
  }

  lemma {:induction false} ExtFromNone(name: string, i: nat)
    requires i <= |name| && '.' !in name && '/' !in name
    ensures ExtFrom(name, i) == ""
  {
    if i > 0 {
      ExtFromNone(name, i - 1);
    }
  }

  /** A stem and an extension are taken apart again, if the stem has neither dot nor slash where there is none. */
  lemma ExtOfName(stem: string, ext: string)
    requires IsExt(ext) && (ext == "" ==> '.' !in stem && '/' !in stem)
    ensures Ext(stem + ext) == ext && WithoutExt(stem + ext) == stem
  {
    var name := stem + ext;
    if ext == "" {
      ExtFromNone(name, |name|);
    } else {
      forall k | |stem| < k < |name| ensures name[k] != '.' && name[k] != '/' {
        assert name[k] == ext[1..][k - |stem| - 1];
      }
      ExtFromDot(name, |stem|, |name|);
    }
  }

  /** Characters that stand for themselves in a relative reference. */
  predicate IsPlain(c: char) { IsLetterOrDigit(c) || c == '.' || c == '_' || c == '/' || c == '-' }

  /** Parsing leaves relative references of such characters as they are. */
  ghost predicate Relative(parse: Parse) {
    forall s: string :: s != "" && s[0] != '/' && (forall c <- s :: IsPlain(c)) ==> parse(s) == Some(s)
  }

  lemma BaseOfName(name: string)
    requires name != "" && '/' !in name
    ensures Base(name) == name
  {
    SplitFirst(name, "", '/');
  }

  lemma BaseInDirectory(dir: string, name: string)
    requires name != "" && '/' !in name
    ensures Base(dir + ['/'] + name) == name
  {
    SplitAt(dir, name, '/');
    SplitFirst(name, "", '/');
    var path := dir + ['/'] + name;
    assert path[|path| - 1] == name[|name| - 1];
  }

  lemma RefOfPath(path: string, cid: string, ext: string, parse: Parse)
    requires Relative(parse) && ValidCid(cid) && IsExt(ext)
    requires path != "" && path[0] != '/' && (forall c <- path :: IsPlain(c)) && Base(path) == cid + ext
    ensures RefOf(path, parse) == Some(Ref(cid, ext))
  {
    TrimSolid(path);
    CidChars(cid);
    ExtOfName(cid, ext);
  }

  predicate IsPlainExt(ext: string) { IsExt(ext) && forall c <- ext :: IsPlain(c) }

  /** A printed file name names what was printed. */
  lemma PrintedName(cid: string, ext: string, parse: Parse)
    requires Relative(parse) && ValidCid(cid) && IsPlainExt(ext)
    ensures RefOf(cid + ext, parse) == Some(Ref(cid, ext))
  {
    CidChars(cid);
    BaseOfName(cid + ext);
    RefOfPath(cid + ext, cid, ext, parse);
  }

  /** So does one in a directory. */
  lemma PrintedInDirectory(dir: string, cid: string, ext: string, parse: Parse)
    requires Relative(parse) && ValidCid(cid) && IsPlainExt(ext)
    requires dir != "" && dir[0] != '/' && forall c <- dir :: IsPlain(c)
    ensures RefOf(dir + ['/'] + (cid + ext), parse) == Some(Ref(cid, ext))
  {
    CidChars(cid);
    BaseInDirectory(dir, cid + ext);
    RefOfPath(dir + ['/'] + (cid + ext), cid, ext, parse);
  }

  // ---------- References inside tags ----------

  const MARKER := "URI=\""

  /** What stands before the next quote. */
  function Quoted(rest: string): (r: Option<string>)
    ensures r.Some? ==> r.value < rest && '"' !in r.value && rest[|r.value|] == '"'
  {
    var end := IndexOf(rest, '"');
    if end == |rest| then None else Some(rest[..end])
  }

  /** The quoted value after the first marker. */
  function UriOf(line: string, marker: string): Option<string> {
    match Find(line, marker)
    case None => None
    case Some(i) => Quoted(line[i + |marker|..])
  }

  function PlaylistUri(line: string): Option<string> { UriOf(line, MARKER) }

  function ReplaceUriOf(line: string, marker: string, replacement: string): Option<string> {
    match Find(line, marker)
    case None => None
    case Some(i) =>
      var start := i + |marker|;
      match Quoted(line[start..])
      case None => None
      case Some(value) => Some(line[..start] + (replacement + line[start..][|value|..]))
  }

  function ReplaceUri(line: string, replacement: string): Option<string> { ReplaceUriOf(line, MARKER, replacement) }

  /** A line around the value after its first marker. */
  function Framed(before: string, marker: string, value: string, rest: string): string {
    before + marker + (value + (['"'] + rest))
  }

  lemma UriParts(line: string, marker: string) returns (before: string, rest: string)
    requires UriOf(line, marker).Some?
    ensures line == Framed(before, marker, UriOf(line, marker).value, rest) && Find(line, marker) == Some(|before|)
  {
    var i := Find(line, marker).value;
    var tail := line[i + |marker|..];
    var value := Quoted(tail).value;
    before, rest := line[..i], tail[|value| + 1..];
    AtPlace(line, i, marker);
    BeforeQuote(tail, value);
  }

  lemma AtPlace(line: string, i: nat, marker: string)
    requires i + |marker| <= |line| && line[i..i + |marker|] == marker
    ensures line == line[..i] + marker + line[i + |marker|..]
  {
  }

  lemma BeforeQuote(tail: string, value: string)
    requires value < tail && tail[|value|] == '"'
    ensures tail == value + (['"'] + tail[|value| + 1..])
  {
  }

  lemma FramedUri(before: string, marker: string, value: string, rest: string)
    requires '"' !in value && Find(Framed(before, marker, value, rest), marker) == Some(|before|)
    ensures UriOf(Framed(before, marker, value, rest), marker) == Some(value)
    ensures forall now ::
              ReplaceUriOf(Framed(before, marker, value, rest), marker, now) == Some(Framed(before, marker, now, rest))
  {
    Seqs.Cut3(before, marker, value + (['"'] + rest));
    QuotedValue(value, ['"'] + rest);
    Seqs.TakeDrop(value, ['"'] + rest);
  }

  lemma QuotedValue(value: string, rest: string)
    requires '"' !in value && rest != "" && rest[0] == '"'
    ensures Quoted(value + rest) == Some(value)
  {
    IndexOfSkips(value, rest, '"');
  }

  /** What is read in a framed line, whatever was put in as its value. */
  lemma FramedQuoted(before: string, marker: string, value: string, rest: string)
    requires Find(Framed(before, marker, value, rest), marker) == Some(|before|)
    ensures UriOf(Framed(before, marker, value, rest), marker) == Quoted(value + (['"'] + rest))
  {
    Seqs.Cut3(before, marker, value + (['"'] + rest));
  }

  lemma QuotedStopsEarly(value: string, rest: string)
    requires '"' in value
    ensures Quoted(value + rest) != Some(value)
  {
    var i := IndexOf(value, '"');
    assert value == value[..i] + value[i..];
    assert value + rest == value[..i] + (value[i..] + rest);
    IndexOfSkips(value[..i], value[i..] + rest, '"');
  }

  /** Replacing a value keeps the rest of the line, and the new value reads back exactly when it holds no quote. */
  lemma ReplacedReadsBack(line: string, marker: string, now: string) returns (before: string, rest: string)
    requires marker != "" && UriOf(line, marker).Some?
    ensures line == Framed(before, marker, UriOf(line, marker).value, rest)
    ensures ReplaceUriOf(line, marker, now) == Some(Framed(before, marker, now, rest))
    ensures UriOf(Framed(before, marker, now, rest), marker) == Some(now) <==> '"' !in now
  {
    before, rest := UriParts(line, marker);
    var value := UriOf(line, marker).value;
    FramedUri(before, marker, value, rest);
    FindStays(before, marker, value + (['"'] + rest), now + (['"'] + rest));
    FramedQuoted(before, marker, now, rest);
    if '"' in now {
      QuotedStopsEarly(now, ['"'] + rest);
    } else {
      FramedUri(before, marker, now, rest);
    }
  }

  lemma {:induction false} FindAfterQuoteless(before: string, m: string, rest: string)
    requires '"' !in before && '"' !in m
    ensures Find(before + (m + ['"']) + rest, m + ['"']) == Some(|before|)
  {
    var p := m + ['"'];
    var s := before + p + rest;
    if before == "" {
      assert s == p + rest;
    } else {
      assert s[1..] == before[1..] + p + rest;
      FindAfterQuoteless(before[1..], m, rest);
      QuoteComesLater(before, p, rest, |m|);
    }
  }

  lemma QuoteComesLater(before: string, p: string, rest: string, n: nat)
    requires before != "" && '"' !in before && |p| == n + 1 && p[n] == '"' && '"' !in p[..n]
    ensures !(p <= before + p + rest)
  {
    var s := before + p + rest;
    if n < |before| {
      assert s[n] == before[n];
    } else {
      assert s[n] == p[n - |before|] == p[..n][n - |before|];
    }
  }

  lemma MarkerSolid()
    ensures Solid(MARKER) && MARKER != "" && |MARKER| == 5
  {
    assert MARKER == ['U', 'R', 'I', '=', '"'];
  }

  /** Trimming a line does not change the value in it. */
  lemma TrimKeepsUri(line: string)
    ensures PlaylistUri(Trim(line)) == PlaylistUri(line)
    ensures Contains(Trim(line), MARKER) <==> Contains(line, MARKER)
  {
    MarkerSolid();
    var before, after := TrimCuts(line);
    var t := Trim(line);
    assert line == before + (t + after);
    MarginsKeepValue(line, before, t, after, MARKER);
  }

  lemma MarginsKeepValue(line: string, before: string, t: string, after: string, marker: string)
    requires line == before + (t + after) && Blank(before) && Blank(after) && Solid(marker) && marker != ""
    ensures UriOf(t, marker) == UriOf(line, marker)
    ensures Contains(t, marker) <==> Contains(line, marker)
  {
    assert Find(line, marker) == Shifted(Find(t, marker), |before|) by {
      FindAfterBlank(before, t + after, marker);
      FindBeforeBlank(t, after, marker);
    }
    MarginsFound(line, before, t, after, marker);
  }

  lemma MarginsFound(line: string, before: string, t: string, after: string, marker: string)
    requires line == before + (t + after) && Blank(after) && Find(line, marker) == Shifted(Find(t, marker), |before|)
    ensures UriOf(t, marker) == UriOf(line, marker)
    ensures Contains(t, marker) <==> Contains(line, marker)
  {
    match Find(t, marker) {
      case None =>
      case Some(i) =>
        QuotedBeforeBlank(t[i + |marker|..], after);
        SameValue(line, before, t, after, marker, i);
    }
  }

  lemma SameValue(line: string, before: string, t: string, after: string, marker: string, i: nat)
    requires line == before + (t + after) && Find(t, marker) == Some(i) && Find(line, marker) == Some(i + |before|)
    requires Quoted(t[i + |marker|..]) == Quoted(t[i + |marker|..] + after)
    ensures UriOf(t, marker) == UriOf(line, marker)
  {
    TailOfMargins(before, t, after, i + |marker|);
  }

  lemma TailOfMargins(before: string, t: string, after: string, start: nat)
    requires start <= |t|
    ensures (before + (t + after))[|before| + start..] == t[start..] + after
  {
  }

  lemma QuotedBeforeBlank(s: string, after: string)
    requires Blank(after)
    ensures Quoted(s) == Quoted(s + after)
  {
    var e := IndexOf(s, '"');
    if e < |s| {
      assert s + after == s[..e] + (s[e..] + after);
      IndexOfSkips(s[..e], s[e..] + after, '"');
      assert (s + after)[..e] == s[..e];
    } else {
      assert !IsSpace('"') && s[..e] == s;
      IndexOfSkips(s, after, '"');
      NoneIn(after, '"');
    }
  }

  lemma NoneIn(s: string, c: char)
    requires c !in s
    ensures IndexOf(s, c) == |s|
  {
  }
}
