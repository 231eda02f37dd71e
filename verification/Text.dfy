/** Strings as sequences of characters: splitting, joining, trimming, searching and decimal numbers. */
module Text {
  import opened Options

  // ---------- Split and join ----------

  /** The first place of `c`, or the length when it does not occur. */
  function IndexOf(s: string, c: char): (i: nat)
    ensures i <= |s| && c !in s[..i] && (i < |s| ==> s[i] == c)
  {
    if s == "" || s[0] == c then 0 else 1 + IndexOf(s[1..], c)
  }

  function Split(s: string, c: char): (parts: seq<string>)
    ensures parts != []
    decreases |s|
  {
    var i := IndexOf(s, c);
    if i == |s| then [s] else [s[..i]] + Split(s[i + 1..], c)
  }

  function Join(parts: seq<string>, c: char): string {
    if parts == [] then ""
    else if |parts| == 1 then parts[0]
    else parts[0] + [c] + Join(parts[1..], c)
  }

  lemma {:induction false} IndexOfSkips(a: string, s: string, c: char)
    requires c !in a
    ensures IndexOf(a + s, c) == |a| + IndexOf(s, c)
  {
    if a == "" {
      assert a + s == s;
    } else {
      assert (a + s)[1..] == a[1..] + s;
      IndexOfSkips(a[1..], s, c);
    }
  }

  /** A string without the separator comes first when it is split off. */
  lemma SplitFirst(a: string, rest: string, c: char)
    requires c !in a
    ensures Split(a, c) == [a]
    ensures Split(a + [c] + rest, c) == [a] + Split(rest, c)
  {
    IndexOfSkips(a, "", c);
    assert a + "" == a;
    assert a + [c] + rest == a + ([c] + rest);
    IndexOfSkips(a, [c] + rest, c);
    assert (a + ([c] + rest))[..|a|] == a && (a + ([c] + rest))[|a| + 1..] == rest;
  }

  lemma {:induction false} SplitOfJoin(parts: seq<string>, c: char)
    requires parts != [] && forall p <- parts :: c !in p
    ensures Split(Join(parts, c), c) == parts
  {
    if |parts| == 1 {
      SplitFirst(parts[0], "", c);
    } else {
      SplitOfJoin(parts[1..], c);
      SplitFirst(parts[0], Join(parts[1..], c), c);
    }
  }

  lemma {:induction false} JoinOfSplit(s: string, c: char)
    ensures Join(Split(s, c), c) == s
    ensures forall p <- Split(s, c) :: c !in p
    decreases |s|
  {
    var i := IndexOf(s, c);
    if i < |s| {
      JoinOfSplit(s[i + 1..], c);
      var rest := Split(s[i + 1..], c);
      assert ([s[..i]] + rest)[1..] == rest;
      assert s == s[..i] + [c] + s[i + 1..];
    }
  }

  lemma {:induction false} JoinConcat(a: seq<string>, b: seq<string>, c: char)
    requires a != [] && b != []
    ensures Join(a + b, c) == Join(a, c) + [c] + Join(b, c)
  {
    if |a| == 1 {
      assert (a + b)[1..] == b;
    } else {
      assert (a + b)[1..] == a[1..] + b;
      JoinConcat(a[1..], b, c);
      Reassociate(a[0], [c], Join(a[1..], c), [c], Join(b, c));
    }
  }

  lemma Reassociate(a: string, b: string, c: string, d: string, e: string)
    ensures (a + b + c) + d + e == a + b + (c + d + e)
  {
  }

  /** Splitting a joint pair splits each. */
  lemma SplitAt(a: string, b: string, c: char)
    ensures Split(a + [c] + b, c) == Split(a, c) + Split(b, c)
  {
    JoinOfSplit(a, c);
    JoinOfSplit(b, c);
    JoinConcat(Split(a, c), Split(b, c), c);
    SplitOfJoin(Split(a, c) + Split(b, c), c);
  }

  /** Joins that spell the same string join the same parts. */
  lemma JoinInjective(a: seq<string>, b: seq<string>, c: char)
    requires a != [] && b != [] && (forall p <- a :: c !in p) && (forall p <- b :: c !in p)
    requires Join(a, c) == Join(b, c)
    ensures a == b
  {
    SplitOfJoin(a, c);
    SplitOfJoin(b, c);
  }

  lemma JoinSnoc(parts: seq<string>, last: string, c: char)
    requires parts != []
    ensures Join(parts + [last], c) == Join(parts, c) + [c] + last
  {
    JoinConcat(parts, [last], c);
  }

  lemma {:induction false} JoinLacks(parts: seq<string>, sep: char, c: char)
    requires c != sep && forall p <- parts :: c !in p
    ensures c !in Join(parts, sep)
  {
    if |parts| > 1 {
      JoinLacks(parts[1..], sep, c);
    }
  }

  /** Each line with a newline after it. */
  function Lines(lines: seq<string>): string {
    if lines == [] then "" else lines[0] + "\n" + Lines(lines[1..])
  }

  lemma {:induction false} SplitOfLines(lines: seq<string>)
    requires forall l <- lines :: '\n' !in l
    ensures Split(Lines(lines), '\n') == lines + [""]
  {
    if lines != [] {
      SplitOfLines(lines[1..]);
      SplitFirst(lines[0], Lines(lines[1..]), '\n');
    }
  }

  lemma {:induction false} LinesSnoc(lines: seq<string>, last: string)
    ensures Lines(lines + [last]) == Lines(lines) + last + "\n"
  {
    if lines == [] {
      assert [] + [last] == [last];
      assert Lines([last]) == last + "\n" + "";
    } else {
      assert (lines + [last])[1..] == lines[1..] + [last];
      LinesSnoc(lines[1..], last);
      assert lines[0] + "\n" + (Lines(lines[1..]) + last + "\n") == lines[0] + "\n" + Lines(lines[1..]) + last + "\n";
    }
  }

  // ---------- White space ----------

  predicate IsSpace(c: char) {
    || '\t' <= c <= '\r' || c == ' ' || c == '\U{85}' || c == '\U{a0}' || c == '\U{1680}' ||
       '\U{2000}' <= c <= '\U{200a}'
    || c == '\U{2028}' || c == '\U{2029}' || c == '\U{202f}' || c == '\U{205f}' || c == '\U{3000}'
  }

  predicate Blank(s: string) { forall i :: 0 <= i < |s| ==> IsSpace(s[i]) }

  predicate Solid(s: string) { forall c <- s :: !IsSpace(c) }

  function TrimLeft(s: string): string { if s != "" && IsSpace(s[0]) then TrimLeft(s[1..]) else s }

  function TrimRight(s: string): string { if s != "" && IsSpace(s[|s| - 1]) then TrimRight(s[..|s| - 1]) else s }

  function Trim(s: string): string { TrimRight(TrimLeft(s)) }

  lemma {:induction false} TrimLeftCuts(s: string)
    ensures |TrimLeft(s)| <= |s| && s == s[..|s| - |TrimLeft(s)|] + TrimLeft(s) && Blank(s[..|s| - |TrimLeft(s)|])
    ensures TrimLeft(s) == "" || !IsSpace(TrimLeft(s)[0])
  {
    if s != "" && IsSpace(s[0]) {
      TrimLeftCuts(s[1..]);
      var n := |s| - |TrimLeft(s)|;
      assert s[..n] == [s[0]] + s[1..][..n - 1];
    }
  }

  lemma {:induction false} TrimRightCuts(s: string)
    ensures |TrimRight(s)| <= |s| && TrimRight(s) == s[..|TrimRight(s)|] && Blank(s[|TrimRight(s)|..])
    ensures TrimRight(s) == "" || !IsSpace(TrimRight(s)[|TrimRight(s)| - 1])
  {
    if s != "" && IsSpace(s[|s| - 1]) {
      TrimRightCuts(s[..|s| - 1]);
      CutLonger(s, |TrimRight(s)|);
    }
  }

  lemma CutLonger(s: string, n: nat)
    requires n < |s|
    ensures s[..|s| - 1][..n] == s[..n] && s[n..] == s[..|s| - 1][n..] + [s[|s| - 1]]
  {
  }

  lemma {:induction false} TrimRightHead(s: string)
    requires s != "" && !IsSpace(s[0])
    ensures TrimRight(s) != "" && TrimRight(s)[0] == s[0]
  {
    if IsSpace(s[|s| - 1]) {
      TrimRightHead(s[..|s| - 1]);
    }
  }

  /** What trimming takes away is white space, and only at the ends. */
  lemma TrimCuts(s: string) returns (before: string, after: string)
    ensures s == before + Trim(s) + after && Blank(before) && Blank(after)
    ensures Trim(s) != "" ==> !IsSpace(Trim(s)[0]) && !IsSpace(Trim(s)[|Trim(s)| - 1])
  {
    TrimLeftCuts(s);
    var t := TrimLeft(s);
    TrimRightCuts(t);
    before, after := s[..|s| - |t|], t[|Trim(s)|..];
    if Trim(s) != "" {
      assert t[0] == Trim(s)[0];
    }
  }

  lemma {:induction false} TrimLeftOfBlank(before: string, s: string)
    requires Blank(before)
    ensures TrimLeft(before + s) == TrimLeft(s)
  {
    if before == "" {
      assert before + s == s;
    } else {
      assert (before + s)[1..] == before[1..] + s;
      TrimLeftOfBlank(before[1..], s);
    }
  }

  lemma {:induction false} TrimRightOfBlank(s: string, after: string)
    requires Blank(after)
    ensures TrimRight(s + after) == TrimRight(s)
  {
    if after == "" {
      assert s + after == s;
    } else {
      assert (s + after)[..|s + after| - 1] == s + after[..|after| - 1];
      TrimRightOfBlank(s, after[..|after| - 1]);
    }
  }

  /** A string that begins and ends with other characters is what is left between white space. */
  lemma TrimBetween(before: string, s: string, after: string)
    requires Blank(before) && Blank(after) && s != "" && !IsSpace(s[0]) && !IsSpace(s[|s| - 1])
    ensures Trim(before + s + after) == s
  {
    assert before + s + after == before + (s + after);
    TrimLeftOfBlank(before, s + after);
    assert TrimLeft(s + after) == s + after;
    TrimRightOfBlank(s, after);
  }

  lemma TrimSolid(s: string)
    requires Solid(s)
    ensures Trim(s) == s
  {
  }

  // ---------- Searching ----------

  predicate HasPrefix(s: string, p: string) { p <= s }

  predicate HasSuffix(s: string, p: string) { |p| <= |s| && s[|s| - |p|..] == p }

  function Find(s: string, p: string): (r: Option<nat>)
    ensures r.Some? ==> r.value + |p| <= |s| && s[r.value..r.value + |p|] == p
  {
    if p <= s then Some(0)
    else if s == "" then None
    else match Find(s[1..], p) case None => None case Some(i) => Some(i + 1)
  }

  predicate Contains(s: string, p: string) { Find(s, p).Some? }

  function Shifted(r: Option<nat>, n: nat): Option<nat> { match r case None => None case Some(i) => Some(i + n) }

  lemma NotAtBlank(c: char, s: string, p: string)
    requires IsSpace(c) && p != "" && !IsSpace(p[0])
    ensures Find([c] + s, p) == Shifted(Find(s, p), 1)
  {
    assert ([c] + s)[0] == c && ([c] + s)[1..] == s;
  }

  lemma HeadAndTail(before: string, s: string)
    requires before != ""
    ensures before + s == [before[0]] + (before[1..] + s)
  {
  }

  lemma BlankHead(before: string)
    requires Blank(before) && before != ""
    ensures IsSpace(before[0]) && Blank(before[1..])
  {
  }

  lemma SolidHead(p: string)
    requires Solid(p) && p != ""
    ensures !IsSpace(p[0])
  {
    assert p[0] in p;
  }

  lemma ShiftedTwice(r: Option<nat>, n: nat)
    ensures Shifted(Shifted(r, n), 1) == Shifted(r, n + 1)
  {
  }

  /** What a blank margin on the left does to a search for something solid. */
  lemma {:induction false} FindAfterBlank(before: string, s: string, p: string)
    requires Blank(before) && p != "" && Solid(p)
    ensures Find(before + s, p) == Shifted(Find(s, p), |before|)
  {
    if before == "" {
      assert before + s == s;
    } else {
      var t := before[1..] + s;
      BlankHead(before);
      SolidHead(p);
      FindAfterBlank(before[1..], s, p);
      HeadAndTail(before, s);
      NotAtBlank(before[0], t, p);
      ShiftedTwice(Find(s, p), |before| - 1);
    }
  }

  lemma FitsBeforeBlank(s: string, after: string, p: string)
    requires Blank(after) && Solid(p)
    ensures p <= s + after <==> p <= s
  {
    if |s| < |p| {
      assert !IsSpace(p[|s|]);
      assert |after| > 0 ==> IsSpace(after[0]) && (s + after)[|s|] == after[0];
    } else {
      assert (s + after)[..|p|] == s[..|p|];
    }
  }

  lemma {:induction false} FindBeforeBlank(s: string, after: string, p: string)
    requires Blank(after) && p != "" && Solid(p)
    ensures Find(s + after, p) == Find(s, p)
  {
    if s == "" {
      assert s + after == after && after + "" == after;
      FindAfterBlank(after, "", p);
    } else {
      assert (s + after)[1..] == s[1..] + after;
      FindBeforeBlank(s[1..], after, p);
      FitsBeforeBlank(s, after, p);
    }
  }

  lemma PrefixCut(s: string, p: string, more: string)
    ensures p + more <= s ==> p <= s
  {
    if p + more <= s {
      assert s[..|p|] == (p + more)[..|p|];
    }
  }

  /** The first occurrence of a longer word is where its first part first occurs, if it stands there. */
  lemma {:induction false} FindLonger(s: string, p: string, more: string)
    requires Find(s, p).Some? && p + more <= s[Find(s, p).value..]
    ensures Find(s, p + more) == Find(s, p)
  {
    if p <= s {
      assert s[0..] == s;
    } else {
      PrefixCut(s, p, more);
      var i := Find(s[1..], p).value;
      assert s[i + 1..] == s[1..][i..];
      FindLonger(s[1..], p, more);
    }
  }

  lemma HeadAlike(a: string, p: string, b: string)
    ensures (a + p + b)[..|p|] == (a + p)[..|p|]
    ensures a != "" ==> (a + p + b)[1..] == a[1..] + p + b
  {
  }

  /** What follows the first occurrence does not decide where it is. */
  lemma {:induction false} FindStays(a: string, p: string, b: string, c: string)
    requires p != "" && Find(a + p + b, p) == Some(|a|)
    ensures Find(a + p + c, p) == Some(|a|)
  {
    HeadAlike(a, p, b);
    HeadAlike(a, p, c);
    if a == "" {
      assert a + p + c == p + c;
    } else {
      FindStays(a[1..], p, b, c);
    }
  }

  // ---------- Decimal numbers ----------

  predicate IsDigit(c: char) { '0' <= c <= '9' }

  function Digit(n: nat): char
    requires n < 10
  {
    ('0' as int + n) as char
  }

  function Digits(n: nat): string {
    if n < 10 then [Digit(n)] else Digits(n / 10) + [Digit(n % 10)]
  }

  function ValueOf(s: string): nat
    requires forall c <- s :: IsDigit(c)
  {
    if s == "" then 0
    else
      assert IsDigit(s[|s| - 1]);
      10 * ValueOf(s[..|s| - 1]) + (s[|s| - 1] as int - '0' as int)
  }

  lemma {:induction false} ValueOfDigits(n: nat)
    ensures Digits(n) != "" && (forall c <- Digits(n) :: IsDigit(c)) && ValueOf(Digits(n)) == n
  {
    if n < 10 {
      assert Digits(n)[..0] == "";
    } else {
      ValueOfDigits(n / 10);
      var s := Digits(n);
      assert s[..|s| - 1] == Digits(n / 10);
    }
  }

  lemma DigitsInjective(a: nat, b: nat)
    requires Digits(a) == Digits(b)
    ensures a == b
  {
    ValueOfDigits(a);
    ValueOfDigits(b);
  }

  const MAX_INT := 0x7fff_ffff_ffff_ffff

  /** A decimal number with an optional sign that fits a 64-bit integer. */
  function Atoi(s: string): Option<int> {
    var digits := if s != "" && (s[0] == '+' || s[0] == '-') then s[1..] else s;
    if digits == "" || !(forall c <- digits :: IsDigit(c)) then None
    else
      var value: int := ValueOf(digits);
      var n := if s[0] == '-' then -value else value;
      if -MAX_INT - 1 <= n <= MAX_INT then Some(n) else None
  }

  lemma AtoiOfDigits(n: nat)
    requires n <= MAX_INT
    ensures Atoi(Digits(n)) == Some(n)
  {
    ValueOfDigits(n);
    assert IsDigit(Digits(n)[0]);
  }
}
