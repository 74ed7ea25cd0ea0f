/**
 * The Python 2 built-ins on byte strings and POSIX paths that the Agora CLI
 * relies on (`str.strip`, `str.rstrip`, `str.rfind`, `os.path.basename`,
 * `os.path.splitext`, `str(int)`), together with the inverse functions used to
 * state round trips about them (`Split`/`Join`, `ParseInt`).
 */
module PyText {
  import opened Wrappers

  /** `str.isspace` for one character of a Python 2 byte string in the C locale. */
  predicate IsSpace(c: char)
  {
    c == ' ' || c == '\t' || c == '\n' || c == '\r' || c == '\U{000B}' || c == '\U{000C}'
  }

  // ---------------------------------------------------------------------------
  // strip / rstrip

  /** Removes leading whitespace. */
  function LStripSpace(s: string): (r: string)
    ensures |r| <= |s| && r == s[|s| - |r|..]
    ensures r == [] || !IsSpace(r[0])
    ensures forall k :: 0 <= k < |s| - |r| ==> IsSpace(s[k])
  {
    if s != [] && IsSpace(s[0]) then LStripSpace(s[1..]) else s
  }

  /** Removes trailing whitespace. */
  function RStripSpace(s: string): (r: string)
    ensures |r| <= |s| && r == s[..|r|]
    ensures r == [] || !IsSpace(r[|r| - 1])
    ensures forall k :: |r| <= k < |s| ==> IsSpace(s[k])
  {
    if s != [] && IsSpace(s[|s| - 1]) then RStripSpace(s[..|s| - 1]) else s
  }

  /** `s.strip()`: the slice of `s` left once whitespace is removed from both ends. */
  function Strip(s: string): (r: string)
    ensures r == [] || (!IsSpace(r[0]) && !IsSpace(r[|r| - 1]))
    ensures exists i {:trigger s[i..]} :: 0 <= i <= |s| - |r| && s[i..][..|r|] == r
                        && (forall k :: 0 <= k < i ==> IsSpace(s[k]))
                        && (forall k :: i + |r| <= k < |s| ==> IsSpace(s[k]))
  {
    var t := LStripSpace(s);
    var r := RStripSpace(t);
    var i := |s| - |t|;
    assert s[i..][..|r|] == r;
    r
  }

  /** `s.rstrip(c)` with a one-character argument: removes EVERY trailing `c`. */
  function RStrip(s: string, c: char): (r: string)
    ensures |r| <= |s| && r == s[..|r|]
    ensures r == [] || r[|r| - 1] != c
    ensures forall k :: |r| <= k < |s| ==> s[k] == c
  {
    if s != [] && s[|s| - 1] == c then RStrip(s[..|s| - 1], c) else s
  }

  // ---------------------------------------------------------------------------
  // POSIX paths

  /** `s.rfind(c)`: the index of the last `c` in `s`, or -1 when there is none. */
  function RFind(s: string, c: char): (r: int)
    ensures -1 <= r < |s|
    ensures r >= 0 ==> s[r] == c
    ensures forall k :: r < k < |s| ==> s[k] != c
  {
    if s == [] then -1
    else if s[|s| - 1] == c then |s| - 1
    else RFind(s[..|s| - 1], c)
  }

  /** The contract of RFind pins its value down: the last occurrence, or -1. */
  lemma RFindIs(s: string, c: char, i: int)
    requires -1 <= i < |s|
    requires i >= 0 ==> s[i] == c
    requires forall k :: i < k < |s| ==> s[k] != c
    ensures RFind(s, c) == i
  {
  }

  /** No newline anywhere but, possibly, in the last position: one line as `readlines` gives it. */
  predicate NewlineOnlyLast(s: string)
  {
    forall k :: 0 <= k < |s| - 1 ==> s[k] != '\n'
  }

  lemma LStripKeepsNewlineOnlyLast(s: string)
    requires NewlineOnlyLast(s)
    ensures NewlineOnlyLast(LStripSpace(s))
  {
    var t := LStripSpace(s);
    forall k | 0 <= k < |t| - 1
      ensures t[k] != '\n'
    {
      assert t[k] == s[|s| - |t| + k];
    }
  }

  lemma RStripDropsNewline(t: string)
    requires NewlineOnlyLast(t)
    ensures '\n' !in RStripSpace(t)
  {
    var r := RStripSpace(t);
    forall p | 0 <= p < |r|
      ensures r[p] != '\n'
    {
      if p < |r| - 1 {
        assert r[p] == t[p];
      } else {
        assert !IsSpace(r[p]);
      }
    }
  }

  /** Stripping a line whose only newline, if any, is its last character leaves no newline. */
  lemma StripDropsFinalNewline(line: string)
    requires NewlineOnlyLast(line)
    ensures '\n' !in Strip(line)
  {
    LStripKeepsNewlineOnlyLast(line);
    RStripDropsNewline(LStripSpace(line));
  }

  /** `os.path.basename(p)` on POSIX: everything after the last '/'. */
  function Basename(p: string): (r: string)
    ensures '/' !in r
    ensures |r| <= |p| && p[|p| - |r|..] == r
    ensures |r| == |p| || p[|p| - |r| - 1] == '/'
  {
    var i := RFind(p, '/') + 1;
    assert forall k :: 0 <= k < |p[i..]| ==> p[i..][k] == p[i + k];
    p[i..]
  }

  /**
   * `os.path.splitext(p)` (Python 2 `genericpath._splitext` with sep '/'):
   * the extension runs from the last '.' that follows the last '/', unless
   * everything between that '/' and the dot is dots, so ".bashrc" has none.
   */
  function SplitExt(p: string): (r: (string, string))
    ensures r.0 + r.1 == p
    ensures r.1 == [] || (r.1[0] == '.' && forall k :: 1 <= k < |r.1| ==> r.1[k] != '.' && r.1[k] != '/')
    ensures r.1 != [] <==> exists k, i :: RFind(p, '/') < k < i < |p| && p[k] != '.' && p[i] == '.'
  {
    var sep := RFind(p, '/');
    var dot := RFind(p, '.');
    if dot > sep && exists k :: sep < k < dot && p[k] != '.' then
      assert p[..dot] + p[dot..] == p;
      assert p[dot..][0] == '.';
      (p[..dot], p[dot..])
    else
      assert forall k, i :: sep < k < i < |p| && p[k] != '.' && p[i] == '.' ==> i <= dot && k < dot;
      (p, [])
  }

  /** On a name without '/', an extension is split off exactly when a '.' follows a non-dot. */
  lemma SplitExtOfName(b: string)
    requires '/' !in b
    ensures SplitExt(b).1 != [] <==> exists k, i :: 0 <= k < i < |b| && b[k] != '.' && b[i] == '.'
  {
    RFindIs(b, '/', -1);
  }

  // ---------------------------------------------------------------------------
  // Decimal rendering of integers and its inverse

  predicate IsDigit(c: char) { '0' <= c <= '9' }

  function DigitChar(d: nat): (c: char)
    requires d < 10
    ensures IsDigit(c)
  {
    ('0' as int + d) as char
  }

  function DigitValue(c: char): (d: nat)
    requires IsDigit(c)
    ensures d < 10
  {
    c as int - '0' as int
  }

  /** The decimal digits of `n`, most significant first, without leading zeros. */
  function Digits(n: nat): (r: string)
    ensures r != [] && forall k :: 0 <= k < |r| ==> IsDigit(r[k])
    ensures |r| > 1 ==> r[0] != '0'
    ensures r[0] == '0' <==> n == 0
  {
    if n < 10 then [DigitChar(n)] else Digits(n / 10) + [DigitChar(n % 10)]
  }

  /** `str(n)` for a Python int: an optional '-' followed by the decimal digits. */
  function Str(n: int): (r: string)
    ensures r != []
    ensures forall k :: 0 <= k < |r| ==> IsDigit(r[k]) || (k == 0 && r[k] == '-')
    ensures r[0] == '-' <==> n < 0
    ensures var d := if n < 0 then r[1..] else r; d != [] && (|d| > 1 ==> d[0] != '0')
    ensures n < 0 ==> r[1] != '0'
  {
    if n < 0 then "-" + Digits(-n) else Digits(n)
  }

  /** The value of a non-empty string of decimal digits. */
  function ParseNat(s: string): nat
    requires s != [] && forall k :: 0 <= k < |s| ==> IsDigit(s[k])
  {
    if |s| == 1 then DigitValue(s[0])
    else ParseNat(s[..|s| - 1]) * 10 + DigitValue(s[|s| - 1])
  }

  predicate AllDigits(s: string) { s != [] && forall k :: 0 <= k < |s| ==> IsDigit(s[k]) }

  /** `int(s)` restricted to plain decimal integers; None where Python would raise. */
  function ParseInt(s: string): Option<int>
  {
    if s != [] && s[0] == '-' && AllDigits(s[1..]) then Some(0 - ParseNat(s[1..]) as int)
    else if AllDigits(s) then Some(ParseNat(s))
    else None
  }

  lemma {:induction false} ParseDigits(n: nat)
    ensures ParseNat(Digits(n)) == n
  {
    if n >= 10 {
      var s := Digits(n);
      assert s[..|s| - 1] == Digits(n / 10);
      ParseDigits(n / 10);
    }
  }

  /** `int(str(n)) == n`: the decimal rendering loses nothing. */
  lemma StrRoundTrip(n: int)
    ensures ParseInt(Str(n)) == Some(n)
  {
    if n < 0 {
      assert Str(n)[1..] == Digits(-n);
      ParseDigits(-n);
    } else {
      ParseDigits(n);
    }
  }

  // ---------------------------------------------------------------------------
  // Splitting on a separator and joining back

  /** `s.split(sep)`: the maximal separator-free pieces, in order. */
  function Split(s: string, sep: char): (parts: seq<string>)
    ensures |parts| >= 1
    ensures forall i :: 0 <= i < |parts| ==> sep !in parts[i]
  {
    if s == [] then [[]]
    else
      var rest := Split(s[1..], sep);
      if s[0] == sep then [[]] + rest else [[s[0]] + rest[0]] + rest[1..]
  }

  /** `sep.join(parts)`. */
  function Join(parts: seq<string>, sep: char): string
    requires |parts| >= 1
  {
    if |parts| == 1 then parts[0] else parts[0] + [sep] + Join(parts[1..], sep)
  }

  lemma {:induction false} SplitFree(a: string, rest: string, sep: char)
    requires sep !in a
    ensures Split(a + rest, sep) == [a + Split(rest, sep)[0]] + Split(rest, sep)[1..]
  {
    if a != [] {
      assert (a + rest)[1..] == a[1..] + rest;
      SplitFree(a[1..], rest, sep);
      assert [a[0]] + (a[1..] + Split(rest, sep)[0]) == a + Split(rest, sep)[0];
    } else {
      var parts := Split(rest, sep);
      assert a + rest == rest && a + parts[0] == parts[0];
      assert [parts[0]] + parts[1..] == parts;
    }
  }

  /** Splitting a separator-free piece followed by a separator yields that piece first. */
  lemma SplitCons(a: string, b: string, sep: char)
    requires sep !in a
    ensures Split(a + [sep] + b, sep) == [a] + Split(b, sep)
  {
    assert a + [sep] + b == a + ([sep] + b);
    SplitFree(a, [sep] + b, sep);
    assert ([sep] + b)[1..] == b;
    assert Split([sep] + b, sep) == [[]] + Split(b, sep);
    assert a + [] == a;
  }

  /** Splitting undoes joining, provided no piece contains the separator. */
  lemma {:induction false} SplitJoin(parts: seq<string>, sep: char)
    requires |parts| >= 1
    requires forall i :: 0 <= i < |parts| ==> sep !in parts[i]
    ensures Split(Join(parts, sep), sep) == parts
  {
    if |parts| == 1 {
      SplitFree(parts[0], [], sep);
      assert parts[0] + [] == parts[0];
    } else {
      SplitCons(parts[0], Join(parts[1..], sep), sep);
      SplitJoin(parts[1..], sep);
      assert [parts[0]] + parts[1..] == parts;
    }
  }

  /** Joining undoes splitting, for every string. */
  lemma {:induction false} JoinSplit(s: string, sep: char)
    ensures Join(Split(s, sep), sep) == s
  {
    if s != [] {
      var rest := Split(s[1..], sep);
      JoinSplit(s[1..], sep);
      if s[0] == sep {
        assert ([[]] + rest)[1..] == rest;
      } else if |rest| > 1 {
        var parts := [[s[0]] + rest[0]] + rest[1..];
        assert parts[1..] == rest[1..];
      }
    }
  }

  lemma JoinCons(x: string, parts: seq<string>, sep: char)
    requires |parts| >= 1
    ensures Join([x] + parts, sep) == x + [sep] + Join(parts, sep)
  {
    assert ([x] + parts)[1..] == parts;
  }

  /** Joining with one more piece at the end appends a separator and that piece. */
  lemma {:induction false} JoinSnoc(parts: seq<string>, x: string, sep: char)
    requires |parts| >= 1
    ensures Join(parts + [x], sep) == Join(parts, sep) + [sep] + x
  {
    if |parts| > 1 {
      assert (parts + [x])[1..] == parts[1..] + [x];
      JoinSnoc(parts[1..], x, sep);
    }
  }
}
