/**
 References in addresses: fragment and query cut off, percent escapes decoded (RFC 3986, sections 2.1, 3.4 and
 3.5).
 */
module Urls {
  import opened Options
  import opened PlaylistRef
  import Seqs
  import opened Text

  // ---------- Escapes ----------

  predicate IsHex(c: char) { '0' <= c <= '9' || 'a' <= c <= 'f' || 'A' <= c <= 'F' }

  function HexValue(c: char): nat
    requires IsHex(c)
  {
    if c <= '9' then c as int - '0' as int
    else if c <= 'F' then c as int - 'A' as int + 10
    else c as int - 'a' as int + 10
  }

  function Prefixed(a: string, r: Option<string>): Option<string> {
    match r case None => None case Some(s) => Some(a + s)
  }

  /** Each escape becomes the character it stands for; None for a percent sign without two digits. */
  function Unescape(s: string): Option<string> {
    if s == "" then Some("")
    else if s[0] != '%' then Prefixed([s[0]], Unescape(s[1..]))
    else if |s| < 3 || !IsHex(s[1]) || !IsHex(s[2]) then None
    else Prefixed([(16 * HexValue(s[1]) + HexValue(s[2])) as char], Unescape(s[3..]))
  }

  lemma PrefixedTwice(a: string, b: string, r: Option<string>)
    ensures Prefixed(a, Prefixed(b, r)) == Prefixed(a + b, r)
  {
    if r.Some? {
      Seqs.Assoc(a, b, r.value);
    }
  }

  lemma {:induction false} UnescapePlain(a: string, b: string)
    requires '%' !in a
    ensures Unescape(a + b) == Prefixed(a, Unescape(b))
  {
    if a == "" {
      assert a + b == b;
      match Unescape(b) {
        case None =>
        case Some(s) => assert "" + s == s;
      }
    } else {
      assert (a + b)[1..] == a[1..] + b && a == [a[0]] + a[1..];
      UnescapePlain(a[1..], b);
      PrefixedTwice([a[0]], a[1..], Unescape(b));
    }
  }

  lemma UnescapeOne(high: char, low: char, rest: string)
    requires IsHex(high) && IsHex(low)
    ensures Unescape(['%', high, low] + rest)
         == Prefixed([(16 * HexValue(high) + HexValue(low)) as char], Unescape(rest))
  {
    assert (['%', high, low] + rest)[3..] == rest;
  }

  /** Decoding changes nothing where there is no percent sign, and makes any other string shorter. */
  lemma {:induction false} UnescapeShrinks(s: string)
    ensures '%' !in s ==> Unescape(s) == Some(s)
    ensures '%' in s && Unescape(s).Some? ==> |Unescape(s).value| < |s|
  {
    if s != "" && s[0] != '%' {
      UnescapeShrinks(s[1..]);
      assert s == [s[0]] + s[1..];
    } else if s != "" && Unescape(s).Some? {
      UnescapeShrinks(s[3..]);
    }
  }

  // ---------- Fragment and query ----------

  function Until(s: string, c: char): string { s[..IndexOf(s, c)] }

  /** The path of a reference, escapes and all. */
  function PathPart(s: string): string { Until(Until(s, '#'), '?') }

  lemma UntilSkips(a: string, s: string, c: char)
    requires c !in a
    ensures Until(a + s, c) == a + Until(s, c)
  {
    IndexOfSkips(a, s, c);
  }

  lemma PathSkips(a: string, s: string)
    requires '#' !in a && '?' !in a
    ensures PathPart(a + s) == a + PathPart(s)
  {
    UntilSkips(a, s, '#');
    UntilSkips(a, Until(s, '#'), '?');
  }

  lemma UntilAll(s: string, c: char)
    ensures Until(s, c) == s <==> c !in s
    ensures c in s ==> |Until(s, c)| < |s|
  {
    var i := IndexOf(s, c);
    assert s == s[..i] + s[i..];
    assert c !in s ==> i == |s|;
  }

  /** What comes behind the first separator makes no difference. */
  lemma UntilStops(a: string, b: string, c: char)
    requires c in a || (b != "" && b[0] == c)
    ensures Until(a + b, c) == Until(a, c)
  {
    var e := Until(a, c);
    UntilAll(a, c);
    assert a == e + a[|e|..];
    Seqs.Assoc(e, a[|e|..], b);
    IndexOfSkips(e, a[|e|..] + b, c);
    var rest := a[|e|..] + b;
    assert rest != "" && rest[0] == c;
  }

  predicate IsSuffix(suffix: string) { suffix == "" || suffix[0] == '?' }

  /** A query behind a string is cut off again. */
  lemma PathSuffix(s: string, suffix: string)
    requires IsSuffix(suffix)
    ensures PathPart(s + suffix) == PathPart(s)
  {
    if suffix == "" {
      assert s + suffix == s;
    } else if '#' in s {
      UntilStops(s, suffix, '#');
    } else {
      UntilSkips(s, suffix, '#');
      UntilAll(s, '#');
      var rest := Until(suffix, '#');
      assert rest[0] == '?';
      UntilStops(s, rest, '?');
    }
  }

  predicate IsBare(s: string) { '#' !in s && '?' !in s && '%' !in s }

  lemma PathCuts(s: string)
    ensures |PathPart(s)| <= |s| && PathPart(s) <= s
    ensures '#' !in s && '?' !in s ==> PathPart(s) == s
    ensures '#' in s || '?' in s ==> |PathPart(s)| < |s|
  {
    UntilAll(s, '#');
    UntilAll(Until(s, '#'), '?');
    if '#' in s {
      assert |Until(s, '#')| < |s|;
    }
  }

  // ---------- Parsing ----------

  /** The path that parsing a relative reference gives. */
  function ParseReference(s: string): Option<string> { Unescape(PathPart(s)) }

  /** Plain references are parsed to themselves. */
  lemma ParsesRelative()
    ensures Relative(ParseReference)
  {
    forall s: string | s != "" && s[0] != '/' && (forall c <- s :: IsPlain(c)) ensures ParseReference(s) == Some(s) {
      PlainIsBare(s);
      PathCuts(s);
      UnescapeShrinks(s);
    }
  }

  lemma PlainIsBare(s: string)
    requires forall c <- s :: IsPlain(c)
    ensures IsBare(s)
  {
  }
}
