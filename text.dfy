/** The handful of Python string and POSIX path operations the library leans on,
    with Python's semantics written out: `str.replace`, `str.strip`, `str.rstrip`,
    `str.join`, `str.startswith`, `int()` of a string, `str()` of an int, and
    `os.path.join`, `os.path.split`, `os.path.basename` on POSIX. */
module Text {
  import opened Wrappers

  predicate StartsWith(s: string, prefix: string) {
    |prefix| <= |s| && s[..|prefix|] == prefix
  }

  /** A string that differs from `prefix` at some position does not start with it. */
  lemma DiffersAt(s: string, prefix: string, k: nat)
    requires k < |prefix| && k < |s| && s[k] != prefix[k]
    ensures !StartsWith(s, prefix)
  {
    if |prefix| <= |s| {
      assert s[..|prefix|][k] == s[k];
    }
  }

  predicate EndsWith(s: string, suffix: string) {
    |suffix| <= |s| && s[|s| - |suffix|..] == suffix
  }

  /** Python's `sub in s`. */
  predicate Contains(s: string, sub: string)
    decreases |s|
  {
    StartsWith(s, sub) || (|s| > 0 && Contains(s[1..], sub))
  }

  /** Python's `s[n:]` for a non-negative `n`. */
  function Drop(s: string, n: nat): (r: string)
    ensures n <= |s| ==> r == s[n..]
    ensures n > |s| ==> r == []
  {
    if n <= |s| then s[n..] else []
  }

  /** The index of the first `c` in `s`, or `|s|` when there is none. */
  function IndexOf(s: string, c: char): (i: nat)
    ensures i <= |s|
    ensures i < |s| ==> s[i] == c
    ensures forall j :: 0 <= j < i ==> s[j] != c
  {
    if |s| == 0 then 0
    else if s[0] == c then 0
    else 1 + IndexOf(s[1..], c)
  }

  /** The first `c` of `x + y` is the first `c` of `x`, when `x` has one. */
  lemma IndexOfAppendHit(x: string, y: string, c: char)
    requires IndexOf(x, c) < |x|
    ensures IndexOf(x + y, c) == IndexOf(x, c)
  {
    var i := IndexOf(x, c);
    assert (x + y)[i] == c;
    assert forall j :: 0 <= j < i ==> (x + y)[j] == x[j];
    IndexOfIsFirst(x + y, c, i);
  }

  /** When `x` has no `c`, the first `c` of `x + y` is found in `y`. */
  lemma IndexOfAppendMiss(x: string, y: string, c: char)
    requires IndexOf(x, c) == |x|
    ensures IndexOf(x + y, c) == |x| + IndexOf(y, c)
  {
    var k := IndexOf(y, c);
    assert forall j :: 0 <= j < |x| ==> (x + y)[j] == x[j];
    assert forall j :: |x| <= j < |x| + k ==> (x + y)[j] == y[j - |x|];
    if k < |y| {
      assert (x + y)[|x| + k] == c;
      IndexOfIsFirst(x + y, c, |x| + k);
    } else {
      IndexOfIsFirst(x + y, c, |x + y|);
    }
  }

  /** `IndexOf` is the unique position characterised by its contract. */
  lemma IndexOfIsFirst(s: string, c: char, i: nat)
    requires i <= |s|
    requires i < |s| ==> s[i] == c
    requires forall j :: 0 <= j < i ==> s[j] != c
    ensures IndexOf(s, c) == i
  {
  }

  /** Python's `s.rfind(c)`: the index of the last `c`, or -1. */
  function LastIndexOf(s: string, c: char): (i: int)
    ensures -1 <= i < |s|
    ensures 0 <= i ==> s[i] == c
    ensures forall j :: i < j < |s| ==> s[j] != c
  {
    if |s| == 0 then -1
    else if s[|s| - 1] == c then |s| - 1
    else LastIndexOf(s[..|s| - 1], c)
  }

  /** Python's `s.replace(pat, rep)`: every non-overlapping occurrence of `pat`,
      scanning from the left, is replaced.  An empty `pat` matches before every
      character and once at the end. */
  function ReplaceAll(s: string, pat: string, rep: string): (r: string)
    ensures rep == pat ==> r == s
    ensures pat != [] && |s| < |pat| ==> r == s
    decreases |s|
  {
    if pat == [] then
      (if s == [] then rep else rep + [s[0]] + ReplaceAll(s[1..], pat, rep))
    else if |s| < |pat| then s
    else if s[..|pat|] == pat then
      assert rep == pat ==> s == rep + s[|pat|..];
      rep + ReplaceAll(s[|pat|..], pat, rep)
    else
      assert s == [s[0]] + s[1..];
      [s[0]] + ReplaceAll(s[1..], pat, rep)
  }

  /** A string without an occurrence of a non-empty `pat` is left unchanged. */
  lemma {:induction false} ReplaceAllAbsent(s: string, pat: string, rep: string)
    requires pat != [] && !Contains(s, pat)
    ensures ReplaceAll(s, pat, rep) == s
    decreases |s|
  {
    if |s| >= |pat| {
      ReplaceAllAbsent(s[1..], pat, rep);
    }
  }

  /** A string in which the first character of `pat` occurs only where too
      few characters are left for a match is left unchanged. */
  lemma {:induction false} ReplaceAllNoLead(s: string, pat: string, rep: string)
    requires pat != [] && forall i :: 0 <= i < |s| && |s| - i >= |pat| ==> s[i] != pat[0]
    ensures ReplaceAll(s, pat, rep) == s
    decreases |s|
  {
    if |s| >= |pat| {
      assert s[..|pat|][0] != pat[0];
      assert forall i :: 0 <= i < |s| - 1 ==> s[1..][i] == s[i + 1];
      ReplaceAllNoLead(s[1..], pat, rep);
      assert [s[0]] + s[1..] == s;
    }
  }

  /** A prefix without the first character of `pat` passes through unchanged. */
  lemma {:induction false} ReplaceAllSkip(p: string, t: string, pat: string, rep: string)
    requires pat != [] && forall i :: 0 <= i < |p| ==> p[i] != pat[0]
    ensures ReplaceAll(p + t, pat, rep) == p + ReplaceAll(t, pat, rep)
    decreases |p|
  {
    if p != [] {
      var s := p + t;
      assert s[1..] == p[1..] + t;
      ReplaceAllSkip(p[1..], t, pat, rep);
      if |s| >= |pat| {
        assert s[..|pat|][0] != pat[0];
        assert ReplaceAll(s, pat, rep) == [p[0]] + ReplaceAll(s[1..], pat, rep);
        hide ReplaceAll;
        assert [p[0]] + (p[1..] + ReplaceAll(t, pat, rep)) == p + ReplaceAll(t, pat, rep);
      } else {
        assert |t| < |pat|;
        assert ReplaceAll(t, pat, rep) == t;
      }
    } else {
      assert p + t == t;
    }
  }

  /** No proper non-empty prefix of `w` is also a suffix of `w`, so two
      occurrences of `w` can never overlap. */
  predicate BorderFree(w: string) {
    forall k :: 0 < k < |w| ==> w[..k] != w[|w| - k..]
  }

  /** A non-empty `p` shorter than `pat` such that `p + pat` starts with `pat`
      exhibits a border of `pat`. */
  lemma OverlapIsBorder(p: string, pat: string)
    requires 0 < |p| < |pat|
    ensures (p + pat)[..|pat|] == pat ==> pat[..|pat| - |p|] == pat[|p|..]
  {
    var s := p + pat;
    var k := |pat| - |p|;
    if s[..|pat|] == pat {
      forall j | 0 <= j < k
        ensures pat[..k][j] == pat[|p|..][j]
      {
        assert s[|p| + j] == pat[j];
        assert s[..|pat|][|p| + j] == pat[|p| + j];
      }
    }
  }

  /** Replacing a border-free pattern distributes over a trailing occurrence of
      it: `(p + pat).replace(pat, rep) == p.replace(pat, rep) + rep`. */
  lemma {:induction false} ReplaceAllTrailing(p: string, pat: string, rep: string)
    requires pat != [] && BorderFree(pat)
    ensures ReplaceAll(p + pat, pat, rep) == ReplaceAll(p, pat, rep) + rep
    decreases |p|
  {
    var s := p + pat;
    if |p| == 0 {
      assert s == pat;
      assert s[|pat|..] == [];
    } else if |p| >= |pat| && p[..|pat|] == pat {
      assert s[..|pat|] == pat;
      assert s[|pat|..] == p[|pat|..] + pat;
      ReplaceAllTrailing(p[|pat|..], pat, rep);
    } else {
      if |p| >= |pat| {
        assert s[..|pat|] == p[..|pat|];
      } else {
        OverlapIsBorder(p, pat);
        var k := |pat| - |p|;
        assert pat[..k] != pat[|pat| - k..];
      }
      assert s[..|pat|] != pat;
      assert s[1..] == p[1..] + pat;
      ReplaceAllTrailing(p[1..], pat, rep);
    }
  }

  /** Python's `str.isspace` for one character. */
  predicate IsSpace(c: char) {
    var n := c as int;
    (9 <= n <= 13) || (28 <= n <= 32) || n == 0x85 || n == 0xA0 || n == 0x1680
    || (0x2000 <= n <= 0x200A) || n == 0x2028 || n == 0x2029 || n == 0x202F
    || n == 0x205F || n == 0x3000
  }

  function TrimStart(s: string): (r: string)
    ensures |r| <= |s| && r == s[|s| - |r|..]
    ensures |r| > 0 ==> !IsSpace(r[0])
    ensures forall i :: 0 <= i < |s| - |r| ==> IsSpace(s[i])
  {
    if |s| > 0 && IsSpace(s[0]) then TrimStart(s[1..]) else s
  }

  function TrimEnd(s: string): (r: string)
    ensures |r| <= |s| && r == s[..|r|]
    ensures |r| > 0 ==> !IsSpace(r[|r| - 1])
    ensures forall i :: |r| <= i < |s| ==> IsSpace(s[i])
  {
    if |s| > 0 && IsSpace(s[|s| - 1]) then TrimEnd(s[..|s| - 1]) else s
  }

  /** Python's `s.strip()`. */
  function Strip(s: string): (r: string)
    ensures |r| <= |s|
    ensures |r| > 0 ==> !IsSpace(r[0]) && !IsSpace(r[|r| - 1])
    ensures NoSpace(s) ==> r == s
  {
    if NoSpace(s) && |s| > 0 then
      assert !IsSpace(s[0]) && !IsSpace(s[|s| - 1]);
      TrimEnd(TrimStart(s))
    else TrimEnd(TrimStart(s))
  }

  predicate NoSpace(s: string) {
    forall i :: 0 <= i < |s| ==> !IsSpace(s[i])
  }

  /** Stripping a string without whitespace changes nothing. */
  lemma StripNoSpace(s: string)
    requires NoSpace(s)
    ensures Strip(s) == s
  {
  }

  /** Python's `s.rstrip(c)` for one character `c`. */
  function RStripChar(s: string, c: char): (r: string)
    ensures |r| <= |s| && r == s[..|r|]
    ensures |r| > 0 ==> r[|r| - 1] != c
    ensures forall i :: |r| <= i < |s| ==> s[i] == c
  {
    if |s| > 0 && s[|s| - 1] == c then RStripChar(s[..|s| - 1], c) else s
  }

  /** Python's `sep.join(parts)`. */
  function Join(sep: string, parts: seq<string>): string {
    if |parts| == 0 then ""
    else if |parts| == 1 then parts[0]
    else parts[0] + sep + Join(sep, parts[1..])
  }

  /** `os.path.basename`: what follows the last slash. */
  function Basename(p: string): (r: string)
    ensures EndsWith(p, r)
    ensures forall i :: 0 <= i < |r| ==> r[i] != '/'
    ensures |r| == |p| || p[|p| - |r| - 1] == '/'
  {
    var r := p[LastIndexOf(p, '/') + 1..];
    assert p[|p| - |r|..] == r;
    r
  }

  predicate AllChar(s: string, c: char) {
    forall i :: 0 <= i < |s| ==> s[i] == c
  }

  /** `os.path.split`: the part up to the last slash, with trailing slashes
      removed unless it consists of slashes only, and the part after it. */
  function PathSplit(p: string): (r: (string, string))
    ensures r.1 == Basename(p)
  {
    var i := LastIndexOf(p, '/') + 1;
    var head := p[..i];
    var tail := p[i..];
    if head != [] && !AllChar(head, '/') then (RStripChar(head, '/'), tail) else (head, tail)
  }

  /** The head `os.path.split` returns is everything before the basename with
      its trailing slashes removed, unless that is slashes only (the root, or
      nothing), which is kept whole. */
  lemma PathSplitHead(p: string)
    ensures var r := PathSplit(p);
      var head := p[..|p| - |r.1|];
      StartsWith(head, r.0) && (forall i :: |r.0| <= i < |head| ==> head[i] == '/')
      && (AllChar(head, '/') ==> r.0 == head)
      && (!AllChar(head, '/') ==> r.0 != "" && r.0[|r.0| - 1] != '/')
  {
    var i := LastIndexOf(p, '/') + 1;
    var head := p[..i];
    assert |PathSplit(p).1| == |p| - i;
    if head != [] && !AllChar(head, '/') {
      StrippedKeepsText(head, '/');
    }
  }

  /** Stripping `c` from a string that is not all `c` leaves something. */
  lemma StrippedKeepsText(s: string, c: char)
    requires !AllChar(s, c)
    ensures RStripChar(s, c) != ""
  {
    var r := RStripChar(s, c);
    assert r == "" ==> AllChar(s, c);
  }

  /** `os.path.join(a, b)` on POSIX. */
  function PathJoin(a: string, b: string): (r: string)
    ensures EndsWith(r, b)
    ensures StartsWith(b, "/") ==> r == b
    ensures !StartsWith(b, "/") ==> StartsWith(r, a) && |r| >= |a| + |b|
  {
    if StartsWith(b, "/") then b
    else if a == [] || EndsWith(a, "/") then a + b
    else a + "/" + b
  }

  predicate IsDigit(c: char) {
    '0' <= c <= '9'
  }

  function DigitChar(d: nat): (c: char)
    requires d < 10
    ensures IsDigit(c)
  {
    ('0' as int + d) as char
  }

  function DigitValue(c: char): (d: nat)
    requires IsDigit(c)
    ensures d < 10
  {
    c as int - '0' as int
  }

  /** The decimal digits of `n`, without leading zeros. */
  function NatToString(n: nat): (s: string)
    ensures |s| > 0
    ensures forall i :: 0 <= i < |s| ==> IsDigit(s[i])
  {
    if n < 10 then [DigitChar(n)] else NatToString(n / 10) + [DigitChar(n % 10)]
  }

  /** Python's `str(n)` for an int. */
  function IntToString(n: int): (s: string)
    ensures |s| > 0 && NoSpace(s)
  {
    if n < 0 then "-" + NatToString(-n) else NatToString(n)
  }

  predicate AllDigits(s: string) {
    forall i :: 0 <= i < |s| ==> IsDigit(s[i])
  }

  /** The value of a string of decimal digits, most significant first. */
  function DigitsValue(s: string): nat
    requires AllDigits(s)
  {
    if |s| == 0 then 0 else 10 * DigitsValue(s[..|s| - 1]) + DigitValue(s[|s| - 1])
  }

  /** The digits `int` accepts after the sign: decimal digits, where single
      underscores may separate two digits. */
  predicate IsDigitRun(s: string) {
    |s| > 0 && IsDigit(s[0]) && IsDigit(s[|s| - 1])
    && (forall i :: 0 <= i < |s| ==> IsDigit(s[i]) || s[i] == '_')
    && (forall i :: 0 <= i < |s| - 1 ==> s[i] == '_' ==> s[i + 1] != '_')
  }

  /** The digits of a digit run, without its underscores. */
  function DropUnderscores(s: string): (r: string)
    requires forall i :: 0 <= i < |s| ==> IsDigit(s[i]) || s[i] == '_'
    ensures AllDigits(r) && |r| <= |s|
    ensures AllDigits(s) ==> r == s
  {
    if s == [] then []
    else (if s[0] == '_' then [] else [s[0]]) + DropUnderscores(s[1..])
  }

  /** Python's `int(s)` for a string: surrounding whitespace, an optional sign
      and a run of decimal digits, underscores allowed between digits;
      anything else raises (here: None). */
  function ParseInt(s: string): (r: Option<int>)
    ensures var t := Strip(s);
      r.Some? <==> IsDigitRun(t) || (|t| > 0 && (t[0] == '-' || t[0] == '+') && IsDigitRun(t[1..]))
    ensures r.Some? && r.value < 0 ==> Strip(s)[0] == '-'
    ensures |Strip(s)| > 0 && AllDigits(Strip(s)) ==> r == Some(DigitsValue(Strip(s)) as int)
  {
    var t := Strip(s);
    var signed := |t| > 0 && (t[0] == '-' || t[0] == '+');
    var digits := if signed then t[1..] else t;
    if IsDigitRun(digits) then
      var v := DigitsValue(DropUnderscores(digits)) as int;
      Some(if signed && t[0] == '-' then 0 - v else v)
    else None
  }

  /** A sign in front of a digit run negates it or leaves it be. */
  lemma ParseIntSign(d: string)
    requires NoSpace(d) && IsDigitRun(d)
    ensures ParseInt("-" + d).Some? && ParseInt("-" + d).value == 0 - ParseInt(d).value
    ensures ParseInt("+" + d) == ParseInt(d)
  {
    hide Strip, DropUnderscores, DigitsValue;
    StripNoSpace(d);
    Signed('-', d);
    Signed('+', d);
  }

  lemma Signed(c: char, d: string)
    requires !IsSpace(c) && NoSpace(d)
    ensures Strip([c] + d) == [c] + d && ([c] + d)[0] == c && ([c] + d)[1..] == d
  {
    var s := [c] + d;
    assert forall i :: 1 <= i < |s| ==> s[i] == d[i - 1];
    StripNoSpace(s);
  }

  lemma {:induction false} DigitsOfNat(n: nat)
    ensures DigitsValue(NatToString(n)) == n
  {
    var s := NatToString(n);
    if n >= 10 {
      var h := NatToString(n / 10);
      assert s == h + [DigitChar(n % 10)];
      assert s[..|s| - 1] == h;
      DigitsOfNat(n / 10);
    }
  }

  /** `int(str(n)) == n`. */
  lemma ParseIntOfIntToString(n: int)
    ensures ParseInt(IntToString(n)) == Some(n)
  {
    var s := IntToString(n);
    StripNoSpace(s);
    if n < 0 {
      var d := NatToString(-n);
      assert s[1..] == d;
      DigitsOfNat(-n);
      assert IsDigitRun(d);
    } else {
      DigitsOfNat(n);
    }
  }

  /** `str(a) == str(b)` only when `a == b`. */
  lemma IntToStringInjective(a: int, b: int)
    requires IntToString(a) == IntToString(b)
    ensures a == b
  {
    ParseIntOfIntToString(a);
    ParseIntOfIntToString(b);
  }
}
