/**
  The string operations of Python's `str` that the modelled code uses, written
  out over `seq<char>`.

  Approximations (stated once, used everywhere):
  - `IsSpace` is exactly the set of characters for which Python's
    `str.isspace()` is true, so `Strip` is `str.strip()` with no argument.
  - `IsDigits` / `IsNumeric` accept the ASCII digits `0`-`9` only, and
    `IsAlnum` the ASCII letters and digits only; Python also accepts other
    Unicode digits, numerals and letters.
  - `ParseInt` is Python's `int(s)` on an ASCII optional sign followed by ASCII
    digits, after stripping whitespace; Python also accepts `_` between
    digits and non-ASCII decimal digits.
*/
module Text {
  import opened Outcomes

  // ---------------------------------------------------------------- whitespace

  /** Exactly the characters for which Python's `str.isspace()` is true. */
  predicate IsSpace(c: char)
  {
    || c == ' ' || c == '\t' || c == '\n' || c == '\r'
    || c == '\U{B}' || c == '\U{C}'
    || ('\U{1C}' <= c <= '\U{1F}')
    || c == '\U{85}' || c == '\U{A0}' || c == '\U{1680}'
    || ('\U{2000}' <= c <= '\U{200A}')
    || c == '\U{2028}' || c == '\U{2029}' || c == '\U{202F}' || c == '\U{205F}'
    || c == '\U{3000}'
  }

  predicate AllSpace(s: string)
  {
    forall i :: 0 <= i < |s| ==> IsSpace(s[i])
  }

  /** No leading and no trailing whitespace. */
  predicate IsStripped(s: string)
  {
    s == [] || (!IsSpace(s[0]) && !IsSpace(s[|s| - 1]))
  }

  /** `s.lstrip()`. */
  function TrimLeft(s: string): (r: string)
    ensures |r| <= |s|
    ensures r == [] || !IsSpace(r[0])
    decreases |s|
  {
    if s != [] && IsSpace(s[0]) then TrimLeft(s[1..]) else s
  }

  /** `s.rstrip()`. */
  function TrimRight(s: string): (r: string)
    ensures |r| <= |s|
    ensures r == [] || !IsSpace(r[|r| - 1])
    decreases |s|
  {
    if s != [] && IsSpace(s[|s| - 1]) then TrimRight(s[..|s| - 1]) else s
  }

  /** `lstrip` removes a prefix made of whitespace only. */
  lemma {:induction false} TrimLeftSuffix(s: string)
    ensures TrimLeft(s) == s[|s| - |TrimLeft(s)|..]
    ensures AllSpace(s[..|s| - |TrimLeft(s)|])
    decreases |s|
  {
    if s != [] && IsSpace(s[0]) {
      TrimLeftSuffix(s[1..]);
      var n := |s| - |TrimLeft(s)|;
      assert s[1..][..n - 1] == s[1..n];
    }
  }

  /** `rstrip` removes a suffix made of whitespace only. */
  lemma {:induction false} TrimRightPrefix(s: string)
    ensures TrimRight(s) == s[..|TrimRight(s)|]
    ensures AllSpace(s[|TrimRight(s)|..])
    decreases |s|
  {
    if s != [] && IsSpace(s[|s| - 1]) {
      TrimRightPrefix(s[..|s| - 1]);
      var n := |TrimRight(s)|;
      assert s[..|s| - 1][..n] == s[..n];
      assert s[n..] == s[..|s| - 1][n..] + [s[|s| - 1]];
    }
  }

  /** Python's `s.strip()`: the infix of `s` left after removing leading and
      trailing whitespace. */
  function Strip(s: string): (r: string)
    ensures IsStripped(r)
  {
    var l := TrimLeft(s);
    var r := TrimRight(l);
    TrimRightPrefix(l);
    assert r == [] || !IsSpace(r[0]) by {
      if r != [] { assert r[0] == l[0]; }
    }
    r
  }

  /** Stripping keeps only characters of `s`, and leaves nothing exactly when
      `s` is all whitespace. */
  lemma StripFacts(s: string)
    ensures forall c :: c in Strip(s) ==> c in s
    ensures Strip(s) == [] <==> AllSpace(s)
  {
    var l := TrimLeft(s);
    var r := TrimRight(l);
    TrimLeftSuffix(s);
    TrimRightPrefix(l);
    assert r == Strip(s);
    forall c | c in r ensures c in s {
      var i :| 0 <= i < |r| && r[i] == c;
      assert l[i] == c;
      assert s[|s| - |l| + i] == c;
    }
    if r == [] {
      assert l == [];
      assert s[..|s| - |l|] == s;
    } else {
      assert !IsSpace(s[|s| - |l|]);
    }
  }

  lemma StripOfStripped(s: string)
    requires IsStripped(s)
    ensures Strip(s) == s
  {
  }

  // ---------------------------------------------------------- char rewriting

  /** Python's `s.replace(c, '')` for a one-character `c`. */
  function RemoveChar(s: string, c: char): (r: string)
    ensures c !in r
    ensures |r| <= |s|
  {
    if s == [] then []
    else (if s[0] == c then [] else [s[0]]) + RemoveChar(s[1..], c)
  }

  /** Removing `c` keeps every other character and changes nothing when `c`
      does not occur. */
  lemma {:induction false} RemoveCharFacts(s: string, c: char)
    ensures forall x :: x in RemoveChar(s, c) <==> x in s && x != c
    ensures c !in s ==> RemoveChar(s, c) == s
  {
    if s != [] {
      RemoveCharFacts(s[1..], c);
      assert s == [s[0]] + s[1..];
    }
  }

  /** Python's `s.replace(c, d)` for one-character `c` and `d`. */
  function ReplaceChar(s: string, c: char, d: char): (r: string)
    ensures |r| == |s|
    ensures forall i :: 0 <= i < |s| ==> r[i] == (if s[i] == c then d else s[i])
    ensures c !in s ==> r == s
  {
    if s == [] then []
    else [if s[0] == c then d else s[0]] + ReplaceChar(s[1..], c, d)
  }

  /** Number of occurrences of `c` in `s`. */
  function Count(s: string, c: char): nat
  {
    if s == [] then 0 else Count(s[..|s| - 1], c) + (if s[|s| - 1] == c then 1 else 0)
  }

  // ------------------------------------------------------- digits and numbers

  predicate IsAsciiDigit(c: char) { '0' <= c <= '9' }

  predicate IsAsciiLetter(c: char) { ('a' <= c <= 'z') || ('A' <= c <= 'Z') }

  /** `s.isdigit()` (ASCII approximation): non-empty, digits only. */
  predicate IsDigits(s: string)
  {
    |s| > 0 && forall i :: 0 <= i < |s| ==> IsAsciiDigit(s[i])
  }

  /** `s.isnumeric()` (ASCII approximation); for ASCII it coincides with isdigit. */
  predicate IsNumeric(s: string) { IsDigits(s) }

  /** `s.isalnum()` (ASCII approximation): non-empty, letters and digits only. */
  predicate IsAlnum(s: string)
  {
    |s| > 0 && forall i :: 0 <= i < |s| ==> IsAsciiDigit(s[i]) || IsAsciiLetter(s[i])
  }

  function DigitValue(c: char): nat
    requires IsAsciiDigit(c)
  {
    (c as int - '0' as int) as nat
  }

  function DigitChar(d: nat): (c: char)
    requires d < 10
    ensures IsAsciiDigit(c) && DigitValue(c) == d
  {
    ('0' as int + d) as char
  }

  /** The value of a string of ASCII digits read in base 10. */
  function DecimalValue(s: string): nat
    requires forall i :: 0 <= i < |s| ==> IsAsciiDigit(s[i])
  {
    if s == [] then 0 else DecimalValue(s[..|s| - 1]) * 10 + DigitValue(s[|s| - 1])
  }

  /** Python's `int(s)` on a `str` (ASCII approximation): `None` where Python
      raises `ValueError`. */
  function ParseInt(s: string): (r: Option<int>)
    ensures IsDigits(Strip(s)) ==> r == Some(DecimalValue(Strip(s)))
  {
    var t := Strip(s);
    if IsDigits(t) then Some(DecimalValue(t))
    else if |t| >= 2 && (t[0] == '+' || t[0] == '-') && IsDigits(t[1..]) then
      Some(if t[0] == '-' then -(DecimalValue(t[1..]) as int) else DecimalValue(t[1..]) as int)
    else None
  }

  predicate IsInt(s: string) { ParseInt(s).Some? }

  /** `str(n)` for a natural number: its decimal digits, no leading zero. */
  function Decimal(n: nat): (r: string)
    ensures |r| > 0
    ensures forall i :: 0 <= i < |r| ==> IsAsciiDigit(r[i])
    decreases n
  {
    if n < 10 then [DigitChar(n)] else Decimal(n / 10) + [DigitChar(n % 10)]
  }

  lemma {:induction false} DecimalRoundTrip(n: nat)
    ensures DecimalValue(Decimal(n)) == n
    decreases n
  {
    if n >= 10 {
      DecimalRoundTrip(n / 10);
      var r := Decimal(n);
      assert r[..|r| - 1] == Decimal(n / 10);
    }
  }

  /** Distinct numbers print differently. */
  lemma DecimalInjective(a: nat, b: nat)
    requires Decimal(a) == Decimal(b)
    ensures a == b
  {
    DecimalRoundTrip(a);
    DecimalRoundTrip(b);
  }

  /** `str(n)` for any Python `int`. */
  function IntText(n: int): string
  {
    if n < 0 then "-" + Decimal(-n) else Decimal(n)
  }

  /** `'%02d' % n` for 0 <= n < 100. */
  function Pad2(n: nat): (r: string)
    requires n < 100
    ensures |r| == 2 && IsAsciiDigit(r[0]) && IsAsciiDigit(r[1])
    ensures DigitValue(r[0]) * 10 + DigitValue(r[1]) == n
  {
    [DigitChar(n / 10), DigitChar(n % 10)]
  }

  /** `'%02d' % n` for any `int`: at least two digits, a sign if negative. */
  function ZeroPad2(n: int): string
  {
    if 0 <= n < 100 then Pad2(n) else IntText(n)
  }

  /** A four-digit year prints as four characters. */
  lemma DecimalFourDigits(n: nat)
    requires 1000 <= n <= 9999
    ensures |Decimal(n)| == 4
  {
    assert Decimal(n) == Decimal(n / 10) + [DigitChar(n % 10)];
    assert Decimal(n / 10) == Decimal(n / 100) + [DigitChar(n / 10 % 10)];
    assert Decimal(n / 100) == Decimal(n / 1000) + [DigitChar(n / 100 % 10)];
  }

  // --------------------------------------------------------- string ordering

  /** Python's `a <= b` on `str`: lexicographic by code point. */
  predicate LexLe(a: string, b: string)
    decreases |a|
  {
    a == [] || (b != [] && (a[0] < b[0] || (a[0] == b[0] && LexLe(a[1..], b[1..]))))
  }

  lemma {:induction false} LexLeTotal(a: string, b: string)
    ensures LexLe(a, b) || LexLe(b, a)
    decreases |a|
  {
    if a != [] && b != [] && a[0] == b[0] {
      LexLeTotal(a[1..], b[1..]);
    }
  }

  lemma {:induction false} LexLeTransitive(a: string, b: string, c: string)
    requires LexLe(a, b) && LexLe(b, c)
    ensures LexLe(a, c)
    decreases |a|
  {
    if a != [] && a[0] == b[0] && b[0] == c[0] {
      LexLeTransitive(a[1..], b[1..], c[1..]);
    }
  }

  lemma {:induction false} LexLeAntisymmetric(a: string, b: string)
    requires LexLe(a, b) && LexLe(b, a)
    ensures a == b
    decreases |a|
  {
    if a != [] {
      LexLeAntisymmetric(a[1..], b[1..]);
    }
  }

  /** Python's `min` over a non-empty list of strings. */
  function MinString(xs: seq<string>): (m: string)
    requires |xs| > 0
    ensures m in xs
    ensures forall i :: 0 <= i < |xs| ==> LexLe(m, xs[i])
  {
    if |xs| == 1 then
      LexLeTotal(xs[0], xs[0]);
      xs[0]
    else
      var rest := MinString(xs[1..]);
      LexLeTotal(xs[0], rest);
      if LexLe(xs[0], rest) then
        forall i | 1 <= i < |xs| ensures LexLe(xs[0], xs[i]) {
          assert xs[1..][i - 1] == xs[i];
          LexLeTransitive(xs[0], rest, xs[i]);
        }
        LexLeTotal(xs[0], xs[0]);
        xs[0]
      else
        forall i | 1 <= i < |xs| ensures LexLe(rest, xs[i]) {
          assert xs[1..][i - 1] == xs[i];
        }
        rest
  }

  /** Every string that is <= all elements and one of them is the minimum. */
  lemma MinStringUnique(xs: seq<string>, m: string)
    requires |xs| > 0 && m in xs
    requires forall i :: 0 <= i < |xs| ==> LexLe(m, xs[i])
    ensures MinString(xs) == m
  {
    var k :| 0 <= k < |xs| && xs[k] == m;
    var n := MinString(xs);
    var j :| 0 <= j < |xs| && xs[j] == n;
    LexLeAntisymmetric(m, n);
  }

  // -------------------------------------------------------- split and join

  /** `sep` occurs in `s` at position `k`. */
  predicate OccursAt(s: string, sep: string, k: nat)
  {
    k + |sep| <= |s| && s[k..k + |sep|] == sep
  }

  ghost predicate Contains(s: string, sep: string)
  {
    exists k: nat :: OccursAt(s, sep, k)
  }

  /** The first position at which `sep` occurs in `s`, if any (`str.find`). */
  function Find(s: string, sep: string): (r: Option<nat>)
    requires |sep| > 0
    ensures r.Some? ==> OccursAt(s, sep, r.value)
    ensures r.Some? ==> forall k: nat :: k < r.value ==> !OccursAt(s, sep, k)
    ensures r.None? ==> forall k: nat :: !OccursAt(s, sep, k)
    decreases |s|
  {
    if |s| < |sep| then None
    else if s[..|sep|] == sep then Some(0)
    else
      var t := Find(s[1..], sep);
      assert !OccursAt(s, sep, 0);
      forall k: nat | 1 <= k
        ensures OccursAt(s, sep, k) <==> OccursAt(s[1..], sep, k - 1)
      {
        if k + |sep| <= |s| {
          assert s[1..][k - 1..k - 1 + |sep|] == s[k..k + |sep|];
        }
      }
      if t.None? then None else Some(t.value + 1)
  }

  /** Python's `s.split(sep)` for a non-empty separator. */
  function Split(s: string, sep: string): (r: seq<string>)
    requires |sep| > 0
    ensures |r| > 0
    decreases |s|
  {
    match Find(s, sep)
    case None => [s]
    case Some(k) => [s[..k]] + Split(s[k + |sep|..], sep)
  }

  /** Python's `sep.join(xs)`. */
  function Join(xs: seq<string>, sep: string): (r: string)
    ensures |xs| == 1 ==> r == xs[0]
    ensures forall i, c :: 0 <= i < |xs| && c in xs[i] ==> c in r
  {
    if xs == [] then "" else if |xs| == 1 then xs[0] else xs[0] + sep + Join(xs[1..], sep)
  }

  /** Joining a concatenation joins the two joins. */
  lemma {:induction false} JoinAppend(xs: seq<string>, ys: seq<string>, sep: string)
    requires xs != [] && ys != []
    ensures Join(xs + ys, sep) == Join(xs, sep) + sep + Join(ys, sep)
  {
    if |xs| == 1 {
      assert (xs + ys)[1..] == ys;
    } else {
      JoinAppend(xs[1..], ys, sep);
      assert (xs + ys)[1..] == xs[1..] + ys;
    }
  }

  /** The first separator of `a + [c] + t` is the one after `a` when `a` has none. */
  lemma FindAfterFree(a: string, c: char, t: string)
    requires c !in a
    ensures Find(a + [c] + t, [c]) == Some(|a|)
  {
    var s := a + [c] + t;
    assert s[|a|..|a| + 1] == [c];
    assert OccursAt(s, [c], |a|);
    forall k: nat | k < |a| ensures !OccursAt(s, [c], k) {
      assert s[k..k + 1] == [a[k]];
    }
    var r := Find(s, [c]);
    assert r.Some?;
    assert !(r.value < |a|) && !(|a| < r.value);
  }

  /** Pieces free of a one-character separator can be read back from their
      join: two joins of equally many such pieces agree only when the pieces do. */
  lemma {:induction false} JoinInjective(xs: seq<string>, ys: seq<string>, c: char)
    requires |xs| == |ys|
    requires forall i :: 0 <= i < |xs| ==> c !in xs[i]
    requires forall i :: 0 <= i < |ys| ==> c !in ys[i]
    requires Join(xs, [c]) == Join(ys, [c])
    ensures xs == ys
  {
    if |xs| > 1 {
      var a, b := xs[0], ys[0];
      var s := Join(xs, [c]);
      assert s == a + [c] + Join(xs[1..], [c]);
      assert s == b + [c] + Join(ys[1..], [c]);
      FindAfterFree(a, c, Join(xs[1..], [c]));
      FindAfterFree(b, c, Join(ys[1..], [c]));
      assert a == s[..|a|] == b;
      assert Join(xs[1..], [c]) == s[|a| + 1..] == Join(ys[1..], [c]);
      JoinInjective(xs[1..], ys[1..], c);
      assert xs == [a] + xs[1..] && ys == [b] + ys[1..];
    }
  }

  /** Joining the pieces of a split gives back the original string. */
  lemma {:induction false} SplitJoin(s: string, sep: string)
    requires |sep| > 0
    ensures Join(Split(s, sep), sep) == s
    decreases |s|
  {
    match Find(s, sep)
    case None =>
    case Some(k) =>
      var rest := s[k + |sep|..];
      SplitJoin(rest, sep);
      assert Split(s, sep) == [s[..k]] + Split(rest, sep);
      assert s == s[..k] + sep + rest;
  }

  /** No piece of a split contains the separator. */
  lemma {:induction false} SplitPiecesFree(s: string, sep: string)
    requires |sep| > 0
    ensures forall i :: 0 <= i < |Split(s, sep)| ==> !Contains(Split(s, sep)[i], sep)
    decreases |s|
  {
    match Find(s, sep)
    case None =>
      assert Split(s, sep) == [s];
    case Some(k) =>
      var rest := s[k + |sep|..];
      SplitPiecesFree(rest, sep);
      assert !Contains(s[..k], sep) by {
        forall j: nat ensures !OccursAt(s[..k], sep, j) {
          if OccursAt(s[..k], sep, j) {
            assert s[..k][j..j + |sep|] == s[j..j + |sep|];
            assert OccursAt(s, sep, j);
            assert false;
          }
        }
      }
      var r := Split(s, sep);
      assert r == [s[..k]] + Split(rest, sep);
      forall i | 0 <= i < |r| ensures !Contains(r[i], sep) {
        if i > 0 { assert r[i] == Split(rest, sep)[i - 1]; }
      }
  }
}
