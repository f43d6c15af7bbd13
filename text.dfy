/**
 * The Python string operations the two scripts rely on, over Dafny strings
 * (sequences of Unicode code points, as Python 3 `str` is): `strip`, `split`
 * with a one-character separator, `join`, `str` of an integer, the `in`
 * substring test, and the code-point order that sorting by a string column uses.
 */
module Text {

  /** Python's `str.isspace` for one character: exactly the characters `str.strip()` removes. */
  predicate IsSpace(c: char) {
    c == ' ' || ('\t' <= c <= '\r') || ('\U{1C}' <= c <= '\U{1F}')
    || c == '\U{85}' || c == '\U{A0}' || c == '\U{1680}'
    || ('\U{2000}' <= c <= '\U{200A}') || c == '\U{2028}' || c == '\U{2029}'
    || c == '\U{202F}' || c == '\U{205F}' || c == '\U{3000}'
  }

  predicate AllSpace(s: string) {
    forall i :: 0 <= i < |s| ==> IsSpace(s[i])
  }

  /** Python's `sub in s` for strings: `sub` occurs in `s` at some position. */
  predicate Contains(s: string, sub: string)
    decreases |s|
  {
    sub <= s || (|s| > 0 && Contains(s[1..], sub))
  }

  lemma {:induction false} ContainsAt(s: string, sub: string, i: nat)
    requires i <= |s| - |sub| && s[i..i + |sub|] == sub
    ensures Contains(s, sub)
    decreases i
  {
    if i > 0 {
      assert s[1..][i - 1..i - 1 + |sub|] == sub;
      ContainsAt(s[1..], sub, i - 1);
    }
  }

  /** Every character of a substring is a character of the string. */
  lemma {:induction false} ContainsChars(s: string, sub: string, c: char)
    requires Contains(s, sub) && c in sub
    ensures c in s
    decreases |s|
  {
    if !(sub <= s) {
      ContainsChars(s[1..], sub, c);
    } else {
      var k :| 0 <= k < |sub| && sub[k] == c;
      assert s[k] == c;
    }
  }

  predicate EndsWith(s: string, suffix: string) {
    |suffix| <= |s| && s[|s| - |suffix|..] == suffix
  }

  lemma EndsWithAppended(a: string, b: string)
    ensures EndsWith(a + b, b)
  {
    assert (a + b)[|a + b| - |b|..] == b;
  }

  lemma EndsWithAppended3(p: string, a: string, b: string, c: string)
    ensures EndsWith(p + a + b + c, a + b + c)
  {
    assert p + a + b + c == p + (a + b + c);
    EndsWithAppended(p, a + b + c);
  }

  lemma PrefixOfAppended(a: string, b: string)
    ensures a <= a + b
  {
  }

  /** A text that ends with `b` does not end with a `c` whose last character differs from that of `b`. */
  lemma EndsWithDistinctLast(a: string, b: string, c: string)
    requires |b| > 0 && |c| > 0 && b[|b| - 1] != c[|c| - 1]
    ensures !EndsWith(a + b, c)
  {
    var t := a + b;
    assert t[|t| - 1] == b[|b| - 1];
    if |t| >= |c| {
      assert t[|t| - |c|..][|c| - 1] == t[|t| - 1];
    }
  }


  // ---------------------------------------------------------------- strip

  /** `s.lstrip()`: `s` without its leading whitespace. */
  function StripLeft(s: string): string
  {
    if |s| > 0 && IsSpace(s[0]) then StripLeft(s[1..]) else s
  }

  /** `s.lstrip()` is the suffix of `s` after a run of whitespace, and starts with a visible character. */
  lemma {:induction false} StripLeftShape(s: string)
    ensures var r := StripLeft(s);
      |r| <= |s| && r == s[|s| - |r|..]
      && AllSpace(s[..|s| - |r|])
      && (r != [] ==> !IsSpace(r[0]))
    decreases |s|
  {
    if |s| > 0 && IsSpace(s[0]) {
      StripLeftShape(s[1..]);
      var r := StripLeft(s);
      assert s[..|s| - |r|] == [s[0]] + s[1..][..|s| - 1 - |r|];
    }
  }

  /** `s.rstrip()`: `s` without its trailing whitespace. */
  function StripRight(s: string): string
  {
    if |s| > 0 && IsSpace(s[|s| - 1]) then StripRight(s[..|s| - 1]) else s
  }

  /** `s.rstrip()` is the prefix of `s` before a run of whitespace, and ends with a visible character. */
  lemma {:induction false} StripRightShape(s: string)
    ensures var r := StripRight(s);
      |r| <= |s| && r == s[..|r|]
      && AllSpace(s[|r|..])
      && (r != [] ==> !IsSpace(r[|r| - 1]))
    decreases |s|
  {
    if |s| > 0 && IsSpace(s[|s| - 1]) {
      StripRightShape(s[..|s| - 1]);
      var r := StripRight(s);
      assert s[|r|..] == s[..|s| - 1][|r|..] + [s[|s| - 1]];
    }
  }

  /** `s.strip()`: `s` without its leading and trailing whitespace. */
  function Strip(s: string): string {
    StripRight(StripLeft(s))
  }

  /** What `strip` returns is a piece of `s`. */
  lemma StripContained(s: string)
    ensures Contains(s, Strip(s))
  {
    var left := StripLeft(s);
    var r := StripRight(left);
    StripLeftShape(s);
    StripRightShape(left);
    assert s[|s| - |left|..|s| - |left| + |r|] == r;
    ContainsAt(s, r, |s| - |left|);
  }

  /**
   * What `strip` returns neither starts nor ends with whitespace (StripFrame
   * shows it is the only such piece with nothing but whitespace around it).
   */
  lemma StripEdges(s: string)
    ensures Strip(s) != [] ==> !IsSpace(Strip(s)[0]) && !IsSpace(Strip(s)[|Strip(s)| - 1])
  {
    var left := StripLeft(s);
    var r := StripRight(left);
    StripLeftShape(s);
    StripRightShape(left);
    if r != [] {
      assert r[0] == left[0];
      assert !IsSpace(left[0]);
    }
  }

  /** `strip` returns the empty string exactly for an all-whitespace string. */
  lemma StripEmpty(s: string)
    ensures Strip(s) == [] <==> AllSpace(s)
  {
    var left := StripLeft(s);
    var r := StripRight(left);
    StripLeftShape(s);
    StripRightShape(left);
    if r == [] {
      assert left[|r|..] == left;
      assert s[..|s| - |left|] == s;
    } else {
      assert r[0] == left[0] == s[|s| - |left|];
      assert !IsSpace(left[0]);
    }
  }

  lemma {:induction false} StripLeftSpaces(a: string, x: string)
    requires AllSpace(a)
    ensures StripLeft(a + x) == StripLeft(x)
    decreases |a|
  {
    if a != [] {
      assert (a + x)[0] == a[0] && IsSpace(a[0]);
      assert (a + x)[1..] == a[1..] + x;
      StripLeftSpaces(a[1..], x);
    } else {
      assert a + x == x;
    }
  }

  lemma {:induction false} StripRightSpaces(x: string, b: string)
    requires AllSpace(b)
    ensures StripRight(x + b) == StripRight(x)
    decreases |b|
  {
    if b != [] {
      assert (x + b)[|x + b| - 1] == b[|b| - 1] && IsSpace(b[|b| - 1]);
      assert (x + b)[..|x + b| - 1] == x + b[..|b| - 1];
      StripRightSpaces(x, b[..|b| - 1]);
    } else {
      assert x + b == x;
    }
  }

  /** Whatever whitespace surrounds a piece without edge whitespace, `strip` returns exactly that piece. */
  lemma StripFrame(a: string, m: string, b: string)
    requires AllSpace(a) && AllSpace(b)
    requires m != [] ==> !IsSpace(m[0]) && !IsSpace(m[|m| - 1])
    ensures Strip(a + m + b) == m
  {
    assert a + m + b == a + (m + b);
    StripLeftSpaces(a, m + b);
    if m == [] {
      assert m + b == b + "" == b;
      StripLeftSpaces(b, "");
      assert StripLeft(b) == "";
    } else {
      assert StripLeft(m + b) == m + b;
      StripRightSpaces(m, b);
    }
  }

  /** Stripping twice is stripping once. */
  lemma StripIdempotent(s: string)
    ensures Strip(Strip(s)) == Strip(s)
  {
    var r := Strip(s);
    StripEdges(s);
    assert "" + r + "" == r;
    StripFrame("", r, "");
  }

  /** A character absent from `s` is absent from `s.strip()`. */
  lemma StripKeepsOut(s: string, c: char)
    requires c !in s
    ensures c !in Strip(s)
  {
    if c in Strip(s) {
      StripContained(s);
      ContainsChars(s, Strip(s), c);
    }
  }

  // ---------------------------------------------------------------- split / join

  /** `sep.join(parts)` for a one-character separator. */
  function Join(parts: seq<string>, sep: char): string
  {
    if |parts| == 0 then ""
    else if |parts| == 1 then parts[0]
    else parts[0] + [sep] + Join(parts[1..], sep)
  }

  /**
   * `s.split(sep)` for a one-character separator: the pieces of `s` between the
   * occurrences of `sep`, at least one of them, none holding `sep`, and joining
   * them back with `sep` gives `s` again.
   */
  function Split(s: string, sep: char): (r: seq<string>)
    ensures |r| >= 1
    ensures forall i :: 0 <= i < |r| ==> sep !in r[i]
    ensures Join(r, sep) == s
    decreases |s|
  {
    if |s| == 0 then [""]
    else
      var rest := Split(s[1..], sep);
      if s[0] == sep then
        assert [sep] + s[1..] == s;
        [""] + rest
      else
        var r := [[s[0]] + rest[0]] + rest[1..];
        assert r[1..] == rest[1..];
        assert |rest| == 1 ==> Join(rest, sep) == rest[0];
        assert |rest| > 1 ==> Join(rest, sep) == rest[0] + [sep] + Join(rest[1..], sep);
        assert [s[0]] + s[1..] == s;
        r
  }

  lemma {:induction false} SplitSegment(x: string, sep: char)
    requires sep !in x
    ensures Split(x, sep) == [x]
    decreases |x|
  {
    if x != [] {
      SplitSegment(x[1..], sep);
      assert [x[0]] + x[1..] == x;
    }
  }

  lemma {:induction false} SplitAfterSegment(x: string, y: string, sep: char)
    requires sep !in x
    ensures Split(x + [sep] + y, sep) == [x] + Split(y, sep)
    decreases |x|
  {
    var s := x + [sep] + y;
    if x == [] {
      assert s[1..] == y;
    } else {
      assert s[1..] == x[1..] + [sep] + y;
      SplitAfterSegment(x[1..], y, sep);
      assert [x[0]] + x[1..] == x;
    }
  }

  /** Two separator-free texts joined by the separator split back into the two. */
  lemma SplitTwo(x: string, y: string, sep: char)
    requires sep !in x && sep !in y
    ensures Split(x + [sep] + y, sep) == [x, y]
  {
    SplitAfterSegment(x, y, sep);
    SplitSegment(y, sep);
  }

  /** Splitting a join of separator-free pieces gives the pieces back. */
  lemma {:induction false} SplitJoin(parts: seq<string>, sep: char)
    requires |parts| >= 1
    requires forall i :: 0 <= i < |parts| ==> sep !in parts[i]
    ensures Split(Join(parts, sep), sep) == parts
    decreases |parts|
  {
    if |parts| == 1 {
      SplitSegment(parts[0], sep);
    } else {
      SplitJoin(parts[1..], sep);
      SplitAfterSegment(parts[0], Join(parts[1..], sep), sep);
      assert [parts[0]] + parts[1..] == parts;
    }
  }

  /** The join of the first `m` pieces is a prefix of the join of all of them. */
  lemma {:induction false} JoinTakeIsPrefix(parts: seq<string>, m: nat, sep: char)
    requires m <= |parts|
    ensures Join(parts[..m], sep) <= Join(parts, sep)
    decreases m
  {
    if m >= 2 {
      assert parts[..m][1..] == parts[1..][..m - 1];
      JoinTakeIsPrefix(parts[1..], m - 1, sep);
      var x := Join(parts[1..][..m - 1], sep);
      var y := Join(parts[1..], sep);
      assert x == y[..|x|];
      assert Join(parts[..m], sep) == parts[0] + [sep] + x;
      assert (parts[0] + [sep] + y)[..|parts[0] + [sep] + x|] == parts[0] + [sep] + x;
    } else if m == 1 && |parts| >= 2 {
      assert parts[..1] == [parts[0]];
    } else if m == 1 {
      assert parts[..1] == parts;
    }
  }

  /** With two or more pieces, the last piece follows the last separator of the join. */
  lemma {:induction false} JoinLast(parts: seq<string>, sep: char)
    requires |parts| >= 2
    ensures Join(parts, sep) == Join(parts[..|parts| - 1], sep) + [sep] + parts[|parts| - 1]
    decreases |parts|
  {
    if |parts| > 2 {
      JoinLast(parts[1..], sep);
      assert parts[1..][..|parts| - 2] == parts[..|parts| - 1][1..];
    } else {
      assert parts[..1] == [parts[0]];
    }
  }

  // ---------------------------------------------------------------- str(int)

  function DigitChar(d: nat): char
    requires d < 10
  {
    (48 + d) as char
  }

  predicate IsDigits(s: string) {
    forall i :: 0 <= i < |s| ==> '0' <= s[i] <= '9'
  }

  /** Python's `str(n)` for a natural number: decimal digits, no leading zero. */
  function NatToString(n: nat): (r: string)
    ensures |r| >= 1 && IsDigits(r)
    ensures |r| > 1 ==> r[0] != '0'
    decreases n
  {
    if n < 10 then [DigitChar(n)] else NatToString(n / 10) + [DigitChar(n % 10)]
  }

  /** The value of a string of decimal digits. */
  function ParseDigits(s: string): nat
    requires IsDigits(s)
    decreases |s|
  {
    if s == [] then 0 else 10 * ParseDigits(s[..|s| - 1]) + (s[|s| - 1] as int - 48)
  }

  /** Reading the digits of `str(n)` gives `n` back. */
  lemma {:induction false} ParseNatToString(n: nat)
    ensures ParseDigits(NatToString(n)) == n
    decreases n
  {
    if n >= 10 {
      var r := NatToString(n);
      ParseNatToString(n / 10);
      assert r[..|r| - 1] == NatToString(n / 10);
    }
  }

  /** Python's `str(k)` for any integer, with a leading '-' when negative. */
  function IntToString(k: int): (r: string)
  {
    if k < 0 then "-" + NatToString(-k) else NatToString(k)
  }

  /** `str(k)` is unambiguous: its sign and digits give `k` back. */
  lemma IntToStringRoundTrip(k: int)
    ensures |IntToString(k)| >= 1
    ensures k < 0 <==> IntToString(k)[0] == '-'
    ensures k < 0 ==> IsDigits(IntToString(k)[1..]) && ParseDigits(IntToString(k)[1..]) == -k
    ensures k >= 0 ==> IsDigits(IntToString(k)) && ParseDigits(IntToString(k)) == k
  {
    var s := IntToString(k);
    if k < 0 {
      var d := NatToString(-k);
      ParseNatToString(-k);
      assert s == "-" + d && s[0] == '-';
      assert s[1..] == d;
    } else {
      var d := NatToString(k);
      ParseNatToString(k);
      assert s == d && '0' <= d[0] <= '9';
    }
  }

  // ---------------------------------------------------------------- ordering

  /** Code-point lexicographic order: the order in which a string column is sorted. */
  predicate LexLe(a: string, b: string)
    decreases |a|
  {
    |a| == 0 || (|b| > 0 && (a[0] < b[0] || (a[0] == b[0] && LexLe(a[1..], b[1..]))))
  }

  lemma {:induction false} LexLeTotal(a: string, b: string)
    ensures LexLe(a, b) || LexLe(b, a)
    decreases |a|
  {
    if |a| > 0 && |b| > 0 && a[0] == b[0] {
      LexLeTotal(a[1..], b[1..]);
    }
  }

  lemma {:induction false} LexLeTransitive(a: string, b: string, c: string)
    requires LexLe(a, b) && LexLe(b, c)
    ensures LexLe(a, c)
    decreases |a|
  {
    if |a| > 0 && a[0] == b[0] && b[0] == c[0] {
      LexLeTransitive(a[1..], b[1..], c[1..]);
    }
  }
}
