/**
 * String operations the dispenser code relies on, written on `seq<char>`:
 * `trim`/`strip`, `split` on one character and its inverse `join`,
 * prefix/suffix/substring tests, `parseInt`, decimal rendering of naturals,
 * and ASCII upper-casing.
 */
module Text {
  import opened Wrappers

  /** The whitespace that `String.prototype.trim` and Python's `str.strip` remove (ASCII part). */
  predicate IsWhite(c: char)
  {
    c == ' ' || c == '\t' || c == '\n' || c == '\r' || c == '\U{000B}' || c == '\U{000C}'
  }

  predicate AllWhite(s: string)
  {
    forall i :: 0 <= i < |s| ==> IsWhite(s[i])
  }

  /** Number of leading whitespace characters. */
  function LeadingWhite(s: string): (k: nat)
    ensures k <= |s| && AllWhite(s[..k])
    ensures k < |s| ==> !IsWhite(s[k])
  {
    if |s| == 0 || !IsWhite(s[0]) then 0 else 1 + LeadingWhite(s[1..])
  }

  /** Length of `s` once its trailing whitespace is cut off. */
  function TrailingCut(s: string): (k: nat)
    ensures k <= |s| && AllWhite(s[k..])
    ensures k > 0 ==> !IsWhite(s[k - 1])
  {
    if |s| == 0 || !IsWhite(s[|s| - 1]) then |s|
    else
      var k := TrailingCut(s[..|s| - 1]);
      assert s[..|s| - 1][k..] + [s[|s| - 1]] == s[k..];
      k
  }

  /** `s.trim()` / `s.strip()`. */
  function Trim(s: string): (r: string)
    ensures |r| <= |s|
    ensures r == [] <==> AllWhite(s)
    ensures r != [] ==> !IsWhite(r[0]) && !IsWhite(r[|r| - 1])
    ensures forall i :: 0 <= i < |r| ==> r[i] in s
  {
    var a := LeadingWhite(s);
    var t := s[a..];
    var r := t[..TrailingCut(t)];
    assert a < |s| ==> !IsWhite(s[a]) && t[0] == s[a];
    assert r == [] ==> AllWhite(s) by {
      if r == [] {
        assert t[TrailingCut(t)..] == t;
        assert a == |s|;
        assert s[..a] == s;
      }
    }
    assert forall i :: 0 <= i < |r| ==> r[i] == s[a + i];
    r
  }

  lemma {:induction false} TrimIdempotent(s: string)
    ensures Trim(Trim(s)) == Trim(s)
  {
    var r := Trim(s);
    if r != [] {
      assert LeadingWhite(r) == 0;
      assert TrailingCut(r) == |r|;
      assert r[0..] == r;
      assert r[..|r|] == r;
    }
  }

  /** A string that starts and ends with a non-blank character is its own trim. */
  lemma {:induction false} TrimKeeps(s: string)
    requires |s| > 0 && !IsWhite(s[0]) && !IsWhite(s[|s| - 1])
    ensures Trim(s) == s
  {
    assert LeadingWhite(s) == 0;
    assert s[0..] == s;
    assert TrailingCut(s) == |s|;
    assert s[..|s|] == s;
  }

  // ---------------------------------------------------------------------------
  // Prefixes, suffixes and substrings

  predicate StartsWith(s: string, p: string)
  {
    |p| <= |s| && s[..|p|] == p
  }

  predicate EndsWith(s: string, p: string)
  {
    |p| <= |s| && s[|s| - |p|..] == p
  }

  /** `s.includes(p)` / Python's `p in s`. */
  predicate Contains(s: string, p: string)
    decreases |s|
  {
    StartsWith(s, p) || (|s| > 0 && Contains(s[1..], p))
  }

  /** Index of the first occurrence of `p` in `s` (`str.find`), if any. */
  function IndexOf(s: string, p: string): (r: Option<nat>)
    decreases |s|
    ensures r.Some? ==> r.value + |p| <= |s| && s[r.value..r.value + |p|] == p
    ensures r.Some? ==> forall j :: 0 <= j < r.value ==> !StartsWith(s[j..], p)
    ensures r.None? <==> !Contains(s, p)
  {
    if StartsWith(s, p) then Some(0)
    else if |s| == 0 then None
    else
      match IndexOf(s[1..], p)
      case None =>
        assert !Contains(s, p);
        None
      case Some(i) =>
        assert Contains(s, p);
        assert s[i + 1..i + 1 + |p|] == p by {
          forall k | 0 <= k < |p|
            ensures s[i + 1 + k] == p[k]
          {
            assert s[1..][i..i + |p|][k] == s[1..][i + k];
          }
        }
        assert forall j :: 1 <= j < i + 1 ==> !StartsWith(s[j..], p) by {
          forall j | 1 <= j < i + 1
            ensures !StartsWith(s[j..], p)
          {
            assert s[j..] == s[1..][j - 1..];
          }
        }
        Some(i + 1)
  }

  lemma {:induction false} ContainsAt(s: string, p: string, i: nat)
    requires i + |p| <= |s| && s[i..i + |p|] == p
    ensures Contains(s, p)
    decreases i
  {
    if i > 0 {
      assert s[1..][i - 1..i - 1 + |p|] == s[i..i + |p|];
      ContainsAt(s[1..], p, i - 1);
    }
  }

  // ---------------------------------------------------------------------------
  // Splitting on one character (`str.split(c)` in JavaScript and Python)

  /** Index of the first `c` in `s`, if any. */
  function IndexOfChar(s: string, c: char): (r: Option<nat>)
    ensures r.Some? ==> r.value < |s| && s[r.value] == c && c !in s[..r.value]
    ensures r.None? ==> c !in s
  {
    if |s| == 0 then None
    else if s[0] == c then Some(0)
    else
      match IndexOfChar(s[1..], c)
      case None => None
      case Some(i) =>
        assert s[..i + 1] == [s[0]] + s[1..][..i];
        Some(i + 1)
  }

  /** Joins `parts` with `c` between consecutive parts (`parts.join(c)`). */
  function Join(parts: seq<string>, c: char): string
  {
    if |parts| == 0 then ""
    else if |parts| == 1 then parts[0]
    else parts[0] + [c] + Join(parts[1..], c)
  }

  /** The joined string starts with the first part and ends with the last one. */
  lemma {:induction false} JoinEnds(parts: seq<string>, c: char)
    requires |parts| >= 1
    ensures StartsWith(Join(parts, c), parts[0])
    ensures EndsWith(Join(parts, c), parts[|parts| - 1])
  {
    if |parts| > 1 {
      JoinEnds(parts[1..], c);
      var rest := Join(parts[1..], c);
      var s := parts[0] + [c] + rest;
      assert s[..|parts[0]|] == parts[0];
      assert s[|s| - |rest|..] == rest;
    }
  }

  /** `s.split(c)`: the maximal `c`-free pieces between the occurrences of `c`. */
  function Split(s: string, c: char): (r: seq<string>)
    decreases |s|
    ensures |r| >= 1
    ensures forall k :: 0 <= k < |r| ==> c !in r[k]
    ensures Join(r, c) == s
  {
    match IndexOfChar(s, c)
    case None => [s]
    case Some(i) =>
      var rest := Split(s[i + 1..], c);
      assert s == s[..i] + [c] + s[i + 1..];
      [s[..i]] + rest
  }

  lemma {:induction false} IndexOfCharJoined(a: string, c: char, b: string)
    requires c !in a
    ensures IndexOfChar(a + [c] + b, c) == Some(|a|)
  {
    var s := a + [c] + b;
    var r := IndexOfChar(s, c);
    assert s[|a|] == c;
    assert c in s;
    assert forall j :: 0 <= j < |a| ==> s[j] == a[j];
    assert forall j :: 0 <= j < r.value ==> s[..r.value][j] == s[j];
  }

  /** Splitting a joined list of `c`-free parts gives the parts back. */
  lemma {:induction false} SplitJoin(parts: seq<string>, c: char)
    requires |parts| >= 1
    requires forall k :: 0 <= k < |parts| ==> c !in parts[k]
    ensures Split(Join(parts, c), c) == parts
  {
    if |parts| == 1 {
      assert Join(parts, c) == parts[0];
    } else {
      var rest := Join(parts[1..], c);
      assert Join(parts, c) == parts[0] + [c] + rest;
      IndexOfCharJoined(parts[0], c, rest);
      var s := parts[0] + [c] + rest;
      assert s[..|parts[0]|] == parts[0];
      assert s[|parts[0]| + 1..] == rest;
      SplitJoin(parts[1..], c);
      assert parts == [parts[0]] + parts[1..];
    }
  }

  // ---------------------------------------------------------------------------
  // Whitespace tokens (Python's `str.split()` without arguments)

  /** `s.split()[0]`: the first whitespace-delimited token; `None` where Python raises IndexError. */
  function FirstToken(s: string): (r: Option<string>)
    ensures r.None? <==> AllWhite(s)
    ensures r.Some? ==> r.value != [] && forall i :: 0 <= i < |r.value| ==> !IsWhite(r.value[i])
  {
    var a := LeadingWhite(s);
    if a == |s| then None else Some(TokenAt(s[a..]))
  }

  /** The longest whitespace-free prefix of `s`. */
  function TokenAt(s: string): (r: string)
    ensures StartsWith(s, r)
    ensures forall i :: 0 <= i < |r| ==> !IsWhite(r[i])
    ensures |r| < |s| ==> IsWhite(s[|r|])
    ensures |s| > 0 && !IsWhite(s[0]) ==> r != []
  {
    if |s| == 0 || IsWhite(s[0]) then []
    else [s[0]] + TokenAt(s[1..])
  }

  lemma {:induction false} FirstTokenOf(t: string, rest: string)
    requires t != [] && forall i :: 0 <= i < |t| ==> !IsWhite(t[i])
    requires rest == [] || IsWhite(rest[0])
    ensures FirstToken(t + rest) == Some(t)
  {
    var s := t + rest;
    assert LeadingWhite(s) == 0;
    assert s[0..] == s;
    TokenAtPrefix(t, rest);
  }

  lemma {:induction false} TokenAtPrefix(t: string, rest: string)
    requires forall i :: 0 <= i < |t| ==> !IsWhite(t[i])
    requires rest == [] || IsWhite(rest[0])
    ensures TokenAt(t + rest) == t
    decreases |t|
  {
    if |t| > 0 {
      assert (t + rest)[1..] == t[1..] + rest;
      TokenAtPrefix(t[1..], rest);
    } else {
      assert t + rest == rest;
    }
  }

  // ---------------------------------------------------------------------------
  // Decimal numbers

  predicate IsDigit(c: char)
  {
    '0' <= c <= '9'
  }

  function DigitChar(d: nat): (c: char)
    requires d < 10
    ensures IsDigit(c) && c as int - '0' as int == d
  {
    ('0' as int + d) as char
  }

  /** The value of a string of decimal digits, most significant first. */
  function DigitsValue(s: string): nat
    requires forall i :: 0 <= i < |s| ==> IsDigit(s[i])
  {
    if |s| == 0 then 0
    else
      var d := s[|s| - 1];
      assert IsDigit(d);
      DigitsValue(s[..|s| - 1]) * 10 + (d as int - '0' as int)
  }

  /** `String(n)` for a natural number `n`. */
  function NatToString(n: nat): (r: string)
    ensures |r| >= 1
    ensures forall i :: 0 <= i < |r| ==> IsDigit(r[i])
  {
    if n < 10 then [DigitChar(n)] else NatToString(n / 10) + [DigitChar(n % 10)]
  }

  /** Reading back the decimal rendering of `n` gives `n`. */
  lemma {:induction false} NatToStringValue(n: nat)
    ensures DigitsValue(NatToString(n)) == n
  {
    var r := NatToString(n);
    if n < 10 {
      assert r[..0] == [];
    } else {
      NatToStringValue(n / 10);
      assert r[..|r| - 1] == NatToString(n / 10);
    }
  }

  /** Different numbers are rendered differently. */
  lemma {:induction false} NatToStringInjective(n: nat, m: nat)
    requires NatToString(n) == NatToString(m)
    ensures n == m
  {
    NatToStringValue(n);
    NatToStringValue(m);
  }

  /** Number of leading decimal digits of `s`. */
  function DigitRun(s: string): (k: nat)
    ensures k <= |s|
    ensures forall i :: 0 <= i < k ==> IsDigit(s[i])
    ensures k < |s| ==> !IsDigit(s[k])
  {
    if |s| == 0 || !IsDigit(s[0]) then 0 else 1 + DigitRun(s[1..])
  }

  /** A hexadecimal digit, in either case. */
  predicate IsHexDigit(c: char)
  {
    IsDigit(c) || 'a' <= c <= 'f' || 'A' <= c <= 'F'
  }

  function HexDigitValue(c: char): (d: nat)
    requires IsHexDigit(c)
    ensures d < 16
    ensures IsDigit(c) ==> d == c as int - '0' as int
  {
    if IsDigit(c) then c as int - '0' as int
    else if 'a' <= c <= 'f' then c as int - 'a' as int + 10
    else c as int - 'A' as int + 10
  }

  /** The value of a string of hexadecimal digits, most significant first. */
  function HexValue(s: string): nat
    requires forall i :: 0 <= i < |s| ==> IsHexDigit(s[i])
  {
    if |s| == 0 then 0
    else
      var d := s[|s| - 1];
      assert IsHexDigit(d);
      HexValue(s[..|s| - 1]) * 16 + HexDigitValue(d)
  }

  /** Number of leading hexadecimal digits of `s`. */
  function HexRun(s: string): (k: nat)
    ensures k <= |s|
    ensures forall i :: 0 <= i < k ==> IsHexDigit(s[i])
    ensures k < |s| ==> !IsHexDigit(s[k])
  {
    if |s| == 0 || !IsHexDigit(s[0]) then 0 else 1 + HexRun(s[1..])
  }

  /** The `0x` or `0X` that makes `parseInt` without a radix read base 16. */
  predicate HexPrefixed(u: string)
  {
    |u| >= 2 && u[0] == '0' && (u[1] == 'x' || u[1] == 'X')
  }

  /** `s` after its leading whitespace and its sign, if any. */
  function Unsigned(s: string): string
  {
    var t := s[LeadingWhite(s)..];
    if |t| > 0 && (t[0] == '+' || t[0] == '-') then t[1..] else t
  }

  /**
   * `parseInt(s)` with no radix: leading whitespace, an optional sign, then
   * either `0x`/`0X` and the longest run of hexadecimal digits, or the
   * longest run of decimal digits; `None` stands for `NaN` (no digit where
   * one is needed).
   */
  function ParseInt(s: string): (r: Option<int>)
    ensures r.None? <==>
      (if HexPrefixed(Unsigned(s)) then HexRun(Unsigned(s)[2..]) == 0 else DigitRun(Unsigned(s)) == 0)
  {
    var t := s[LeadingWhite(s)..];
    var negative := |t| > 0 && t[0] == '-';
    var u := Unsigned(s);
    if HexPrefixed(u) then
      var k := HexRun(u[2..]);
      if k == 0 then None
      else
        var v: int := HexValue(u[2..][..k]);
        Some(if negative then -v else v)
    else
      var k := DigitRun(u);
      if k == 0 then None
      else
        var v: int := DigitsValue(u[..k]);
        Some(if negative then -v else v)
  }

  /** `parseInt` reads `0x` followed by hexadecimal digits as their base-16 value. */
  lemma {:induction false} ParseIntHex(h: string)
    requires |h| > 0 && forall i :: 0 <= i < |h| ==> IsHexDigit(h[i])
    ensures ParseInt("0x" + h) == Some(HexValue(h))
  {
    var s := "0x" + h;
    assert !IsWhite(s[0]);
    assert LeadingWhite(s) == 0;
    assert s[0..] == s;
    assert Unsigned(s) == s;
    assert s[2..] == h;
    assert HexRun(h) == |h| by {
      HexRunAll(h);
    }
    assert h[..|h|] == h;
  }

  /** A string of hexadecimal digits is one run. */
  lemma {:induction false} HexRunAll(h: string)
    requires forall i :: 0 <= i < |h| ==> IsHexDigit(h[i])
    ensures HexRun(h) == |h|
  {
    if |h| > 0 {
      HexRunAll(h[1..]);
    }
  }

  lemma {:induction false} ParseNatString(n: nat)
    ensures ParseInt(NatToString(n)) == Some(n)
  {
    var s := NatToString(n);
    assert !IsWhite(s[0]);
    assert LeadingWhite(s) == 0;
    assert s[0..] == s;
    assert Unsigned(s) == s;
    assert !HexPrefixed(s) by {
      if |s| >= 2 {
        assert IsDigit(s[1]);
      }
    }
    assert DigitRun(s) == |s|;
    assert s[..|s|] == s;
    NatToStringValue(n);
  }

  /** `String(n)` / `n.toString()` for an integer `n`. */
  function IntToString(n: int): (r: string)
    ensures |r| >= 1
    ensures n >= 0 ==> r == NatToString(n)
    ensures n < 0 ==> r == "-" + NatToString(-n)
  {
    if n >= 0 then NatToString(n) else "-" + NatToString(-n)
  }

  /** `parseInt` reads back what `toString` wrote. */
  lemma {:induction false} ParseIntString(n: int)
    ensures ParseInt(IntToString(n)) == Some(n)
  {
    if n >= 0 {
      ParseNatString(n);
    } else {
      var d := NatToString(-n);
      var s := "-" + d;
      assert !IsWhite(s[0]);
      assert LeadingWhite(s) == 0;
      assert s[0..] == s;
      assert s[1..] == d;
      assert Unsigned(s) == d;
      assert !HexPrefixed(d) by {
        if |d| >= 2 {
          assert IsDigit(d[1]);
        }
      }
      assert DigitRun(d) == |d|;
      assert d[..|d|] == d;
      NatToStringValue(-n);
    }
  }

  // ---------------------------------------------------------------------------
  // Case

  /** ASCII upper-casing of one character. */
  function UpperChar(c: char): (r: char)
    ensures 'a' <= c <= 'z' ==> r as int == c as int - 32
    ensures !('a' <= c <= 'z') ==> r == c
    ensures !('a' <= r <= 'z')
  {
    if 'a' <= c <= 'z' then (c as int - 32) as char else c
  }
}
