/**
 * The JavaScript string operations the scanners rely on: `toLowerCase`,
 * `trim`, `substring(0, n)`, `split(" ")`, `join` and the decimal rendering
 * of a number in a template literal.  A string is a sequence of Unicode
 * scalar values, one `char` each; JavaScript's `length` and `substring`
 * count UTF-16 code units instead, two for a character outside the Basic
 * Multilingual Plane, and `Length` and `Substring` below count them that way.
 */
module Strings {
  import opened Optional

  /** `toLowerCase` on one code unit (ASCII letters only). */
  function LowerChar(c: char): (r: char)
    ensures 'A' <= c <= 'Z' ==> r as int == c as int + 32
    ensures !('A' <= c <= 'Z') ==> r == c
  {
    if 'A' <= c <= 'Z' then (c as int + 32) as char else c
  }

  function Lower(s: string): (r: string)
    ensures |r| == |s|
    ensures forall i :: 0 <= i < |s| ==> r[i] == LowerChar(s[i])
  {
    if s == [] then [] else [LowerChar(s[0])] + Lower(s[1..])
  }

  /** The code units `trim` removes: WhiteSpace and LineTerminator of ECMA-262. */
  predicate IsWhite(c: char) {
    || c == '\t' || c == '\n' || c == '\U{B}' || c == '\U{C}' || c == '\r'
    || c == ' ' || c == '\U{A0}' || c == '\U{1680}'
    || ('\U{2000}' <= c <= '\U{200A}')
    || c == '\U{2028}' || c == '\U{2029}' || c == '\U{202F}' || c == '\U{205F}'
    || c == '\U{3000}' || c == '\U{FEFF}'
  }

  /** Drops the leading white space: the result is a suffix of `s`. */
  function TrimStart(s: string): (r: string)
    ensures |r| <= |s| && r == s[|s| - |r|..]
    ensures forall k :: 0 <= k < |s| - |r| ==> IsWhite(s[k])
    ensures r != [] ==> !IsWhite(r[0])
    decreases |s|
  {
    if s != [] && IsWhite(s[0]) then TrimStart(s[1..]) else s
  }

  /** Drops the trailing white space: the result is a prefix of `s`. */
  function TrimEnd(s: string): (r: string)
    ensures |r| <= |s| && r == s[..|r|]
    ensures forall k :: |r| <= k < |s| ==> IsWhite(s[k])
    ensures r != [] ==> !IsWhite(r[|r| - 1])
    decreases |s|
  {
    if s != [] && IsWhite(s[|s| - 1]) then TrimEnd(s[..|s| - 1]) else s
  }

  /** `String.prototype.trim`. */
  function Trim(s: string): (r: string)
  {
    TrimEnd(TrimStart(s))
  }

  /** Where the trimmed text starts inside the original. */
  function TrimOffset(s: string): nat
  {
    |s| - |TrimStart(s)|
  }

  /**
   * The trimmed string is a slice of the original with only white space cut
   * away on either side, and it neither starts nor ends with white space.
   */
  lemma TrimIsSlice(s: string)
    ensures TrimOffset(s) + |Trim(s)| <= |s|
    ensures Trim(s) == s[TrimOffset(s)..TrimOffset(s) + |Trim(s)|]
    ensures forall k :: 0 <= k < TrimOffset(s) ==> IsWhite(s[k])
    ensures forall k :: TrimOffset(s) + |Trim(s)| <= k < |s| ==> IsWhite(s[k])
    ensures Trim(s) != [] ==> !IsWhite(Trim(s)[0]) && !IsWhite(Trim(s)[|Trim(s)| - 1])
  {
    var t := TrimStart(s);
    var r := TrimEnd(t);
    assert Trim(s) == r && TrimOffset(s) == |s| - |t|;
    TrimSliceBounds(s, t, r);
    TrimTailWhite(s, t, r);
    TrimEnds(s);
  }

  /** A non-empty trimmed string starts and ends with a character that is not white space. */
  lemma TrimEnds(s: string)
    ensures Trim(s) != [] ==> !IsWhite(Trim(s)[0]) && !IsWhite(Trim(s)[|Trim(s)| - 1])
  {
    var t := TrimStart(s);
    var r := TrimEnd(t);
    if r != [] {
      assert r[0] == t[0];
    }
  }

  /** A prefix `r` of the suffix `t` of `s` is the slice of `s` where `t` starts. */
  lemma TrimSliceBounds(s: string, t: string, r: string)
    requires |t| <= |s| && t == s[|s| - |t|..]
    requires |r| <= |t| && r == t[..|r|]
    ensures r == s[|s| - |t|..|s| - |t| + |r|]
  {
  }

  /** What `TrimEnd` cuts from the suffix left by `TrimStart` is white space at the end of `s`. */
  lemma TrimTailWhite(s: string, t: string, r: string)
    requires |t| <= |s| && t == s[|s| - |t|..]
    requires |r| <= |t| && forall k :: |r| <= k < |t| ==> IsWhite(t[k])
    ensures forall k :: |s| - |t| + |r| <= k < |s| ==> IsWhite(s[k])
  {
    var i := |s| - |t|;
    forall k | i + |r| <= k < |s| ensures IsWhite(s[k]) {
      assert s[k] == t[k - i];
    }
  }

  /** Trimming yields "" exactly when the string is white space only. */
  lemma TrimEmptyIffWhite(s: string)
    ensures Trim(s) == [] <==> forall k :: 0 <= k < |s| ==> IsWhite(s[k])
  {
    TrimIsSlice(s);
  }

  /** A string that neither starts nor ends with white space is its own trim. */
  lemma TrimmedAlready(s: string)
    requires s != [] && !IsWhite(s[0]) && !IsWhite(s[|s| - 1])
    ensures Trim(s) == s
  {
    assert TrimStart(s) == s;
    assert TrimEnd(s) == s;
  }

  /** The UTF-16 code units a character takes: two outside the Basic Multilingual Plane. */
  function Units(c: char): nat
  {
    if c as int >= 0x1_0000 then 2 else 1
  }

  /** `s.length`: the number of UTF-16 code units of `s`. */
  function Length(s: string): (n: nat)
    ensures |s| <= n <= 2 * |s|
    ensures n == 0 <==> s == []
  {
    if s == [] then 0 else Units(s[0]) + Length(s[1..])
  }

  /** Code-unit lengths add up over concatenation. */
  lemma {:induction false} LengthAppend(a: string, b: string)
    ensures Length(a + b) == Length(a) + Length(b)
  {
    if a == [] {
      assert a + b == b;
    } else {
      assert (a + b)[0] == a[0];
      assert (a + b)[1..] == a[1..] + b;
      LengthAppend(a[1..], b);
    }
  }

  /** A string made only of characters outside the Basic Multilingual Plane has twice as many code units as characters. */
  lemma {:induction false} LengthAstral(s: string)
    requires forall k :: 0 <= k < |s| ==> Units(s[k]) == 2
    ensures Length(s) == 2 * |s|
  {
    if s != [] {
      assert forall k :: 0 <= k < |s[1..]| ==> Units(s[1..][k]) == 2 by {
        forall k | 0 <= k < |s[1..]| ensures Units(s[1..][k]) == 2 {
          assert s[1..][k] == s[k + 1];
        }
      }
      LengthAstral(s[1..]);
    }
  }

  /**
   * `s.substring(0, n)`, cut at a character boundary: the longest prefix of
   * `s` of at most `n` code units.  It is all of `s` when `s` fits, and
   * otherwise the next character would not fit, so it falls short of `n`
   * units only by the high half of a surrogate pair.
   */
  function Substring(s: string, n: nat): (r: string)
    ensures |r| <= |s| && r == s[..|r|]
    ensures Length(r) <= n
    ensures Length(s) <= n ==> r == s
    ensures |r| < |s| ==> Length(r) + Units(s[|r|]) > n
    decreases |s|
  {
    if s == [] || Units(s[0]) > n then []
    else [s[0]] + Substring(s[1..], n - Units(s[0]))
  }

  /** A cut string keeps `n` code units, or `n - 1` when a surrogate pair straddles the cut. */
  lemma SubstringLength(s: string, n: nat)
    requires Length(s) > n
    ensures |Substring(s, n)| < |s|
    ensures Length(Substring(s, n)) == n
            || (Length(Substring(s, n)) == n - 1 && Units(s[|Substring(s, n)|]) == 2)
  {
    var r := Substring(s, n);
    assert Length(r) <= n < Length(s);
  }


  /**
   * `s.split(" ")`: the runs between single space separators, empty runs
   * included, so "" splits into [""] and "a  b" into ["a", "", "b"].
   */
  function SplitOnSpace(s: string): (parts: seq<string>)
    ensures |parts| == 1 + CountSpaces(s)
    ensures forall p :: p in parts ==> ' ' !in p
  {
    if s == [] then [""]
    else
      var rest := SplitOnSpace(s[1..]);
      if s[0] == ' ' then [""] + rest else [[s[0]] + rest[0]] + rest[1..]
  }

  function CountSpaces(s: string): nat
  {
    if s == [] then 0 else (if s[0] == ' ' then 1 else 0) + CountSpaces(s[1..])
  }

  /** `parts.join(sep)`. */
  function JoinWith(parts: seq<string>, sep: string): string
  {
    if parts == [] then ""
    else if |parts| == 1 then parts[0]
    else parts[0] + sep + JoinWith(parts[1..], sep)
  }

  /** A string without spaces splits into itself alone. */
  lemma {:induction false} SplitToken(t: string)
    requires ' ' !in t
    ensures SplitOnSpace(t) == [t]
  {
    if t != [] {
      assert ' ' !in t[1..] by {
        forall k | 0 <= k < |t[1..]|
          ensures t[1..][k] != ' '
        {
          assert t[1..][k] == t[k + 1];
        }
      }
      SplitToken(t[1..]);
      assert [t[0]] + t[1..] == t;
    }
  }

  /** A leading space splits off an empty token. */
  lemma SplitLeadingSpace(t: string)
    ensures SplitOnSpace(" " + t) == [""] + SplitOnSpace(t)
  {
    assert (" " + t)[1..] == t;
  }

  /** Splitting on " " and joining with " " gives the string back. */
  lemma {:induction false} SplitJoin(s: string)
    ensures JoinWith(SplitOnSpace(s), " ") == s
  {
    if s != [] {
      var rest := SplitOnSpace(s[1..]);
      SplitJoin(s[1..]);
      if s[0] == ' ' {
        assert SplitOnSpace(s) == [""] + rest;
        assert s == [' '] + s[1..];
      } else {
        var parts := [[s[0]] + rest[0]] + rest[1..];
        assert SplitOnSpace(s) == parts;
        if |rest| == 1 {
          assert s == [s[0]] + rest[0];
        } else {
          assert rest == [rest[0]] + rest[1..];
          assert JoinWith(rest, " ") == rest[0] + " " + JoinWith(rest[1..], " ");
          assert parts[1..] == rest[1..];
          assert s == [s[0]] + s[1..];
        }
      }
    }
  }

  function DigitChar(d: nat): (c: char)
    requires d < 10
    ensures '0' <= c <= '9' && c as int - '0' as int == d
  {
    (d + '0' as int) as char
  }

  /** The decimal rendering `${n}` of a natural number. */
  function Decimal(n: nat): (r: string)
    ensures |r| >= 1
    ensures forall k :: 0 <= k < |r| ==> '0' <= r[k] <= '9'
  {
    if n < 10 then [DigitChar(n)] else Decimal(n / 10) + [DigitChar(n % 10)]
  }

  /** Reads a string of decimal digits back as a number. */
  function ParseDecimal(s: string): nat
    requires forall k :: 0 <= k < |s| ==> '0' <= s[k] <= '9'
  {
    if s == [] then 0 else ParseDecimal(s[..|s| - 1]) * 10 + (s[|s| - 1] as int - '0' as int)
  }

  lemma {:induction false} DecimalRoundTrip(n: nat)
    ensures ParseDecimal(Decimal(n)) == n
  {
    if n >= 10 {
      DecimalRoundTrip(n / 10);
      var r := Decimal(n);
      assert r[..|r| - 1] == Decimal(n / 10);
    }
  }

  /** Distinct numbers have distinct renderings. */
  lemma DecimalInjective(m: nat, n: nat)
    ensures Decimal(m) == Decimal(n) ==> m == n
  {
    DecimalRoundTrip(m);
    DecimalRoundTrip(n);
  }

  /** `xs.filter(p)`. */
  function Filter(xs: seq<string>, p: string -> bool): (r: seq<string>)
    ensures |r| <= |xs|
    ensures forall x :: x in r ==> x in xs && p(x)
  {
    if xs == [] then [] else (if p(xs[0]) then [xs[0]] else []) + Filter(xs[1..], p)
  }

  /**
   * `xs.filter(p)` is empty exactly when no element passes `p`, and
   * otherwise starts with the first element that passes.
   */
  lemma FilterHead(xs: seq<string>, p: string -> bool)
    ensures Filter(xs, p) == [] <==> forall k :: 0 <= k < |xs| ==> !p(xs[k])
    ensures Filter(xs, p) != [] ==>
              exists i :: 0 <= i < |xs| && xs[i] == Filter(xs, p)[0] && p(xs[i])
                          && forall j :: 0 <= j < i ==> !p(xs[j])
  {
    FilterEmpty(xs, p);
    if Filter(xs, p) != [] {
      FilterFirst(xs, p);
    }
  }

  /** `xs.filter(p)` is empty exactly when no element passes `p`. */
  lemma {:induction false} FilterEmpty(xs: seq<string>, p: string -> bool)
    ensures Filter(xs, p) == [] <==> forall k :: 0 <= k < |xs| ==> !p(xs[k])
  {
    if xs != [] {
      FilterEmpty(xs[1..], p);
      if p(xs[0]) {
        assert Filter(xs, p)[0] == xs[0];
      } else {
        assert Filter(xs, p) == Filter(xs[1..], p);
        if forall k :: 0 <= k < |xs[1..]| ==> !p(xs[1..][k]) {
          forall k | 0 < k < |xs| ensures !p(xs[k]) {
            assert xs[k] == xs[1..][k - 1];
          }
        }
      }
    }
  }

  /** A non-empty `xs.filter(p)` starts with the first element of `xs` that passes `p`. */
  lemma {:induction false} FilterFirst(xs: seq<string>, p: string -> bool)
    requires Filter(xs, p) != []
    ensures exists i :: 0 <= i < |xs| && xs[i] == Filter(xs, p)[0] && p(xs[i])
                        && forall j :: 0 <= j < i ==> !p(xs[j])
  {
    if p(xs[0]) {
      assert Filter(xs, p)[0] == xs[0];
    } else {
      assert Filter(xs, p) == Filter(xs[1..], p);
      FilterFirst(xs[1..], p);
      var i :| 0 <= i < |xs[1..]| && xs[1..][i] == Filter(xs, p)[0] && p(xs[1..][i])
               && forall j :: 0 <= j < i ==> !p(xs[1..][j]);
      assert xs[i + 1] == xs[1..][i];
      forall j | 0 < j < i + 1 ensures !p(xs[j]) {
        assert xs[j] == xs[1..][j - 1];
      }
    }
  }

  /** Regrouping two appends to a list. */
  lemma AppendTwo<T>(a: seq<T>, x: seq<T>, y: seq<T>)
    ensures a + x + y == a + (x + y)
  {
  }

  /** Regrouping three appends to a list. */
  lemma AppendThree<T>(a: seq<T>, x: seq<T>, y: seq<T>, z: seq<T>)
    ensures a + x + y + z == a + (x + y + z)
  {
  }
}
