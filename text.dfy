/**
 * The few .NET string operations the core relies on: ordinal `StartsWith`,
 * `Trim`/`TrimStart`/`TrimEnd` over a set of characters, and the decimal
 * rendering of an integer used by `string.Format("{0}", n)`.
 */
module Text {

  /** Ordinal `s.StartsWith(prefix)`. */
  predicate StartsWith(s: string, prefix: string) {
    |prefix| <= |s| && s[..|prefix|] == prefix
  }

  /** The characters `Char.IsWhiteSpace` accepts, i.e. what `String.Trim()` removes. */
  const WhiteSpace: set<char> := {
    ' ', '\t', '\n', '\U{0B}', '\U{0C}', '\r', '\U{85}', '\U{A0}', '\U{1680}',
    '\U{2000}', '\U{2001}', '\U{2002}', '\U{2003}', '\U{2004}', '\U{2005}',
    '\U{2006}', '\U{2007}', '\U{2008}', '\U{2009}', '\U{200A}',
    '\U{2028}', '\U{2029}', '\U{202F}', '\U{205F}', '\U{3000}'
  }

  /** Where `s[..n]` ends once its trailing characters in `drop` are cut. */
  function KeptEnd(s: string, drop: set<char>, n: nat): (m: nat)
    requires n <= |s|
    ensures m <= n
    ensures m == 0 || s[m - 1] !in drop
    ensures forall k :: m <= k < n ==> s[k] in drop
    decreases n
  {
    if n > 0 && s[n - 1] in drop then KeptEnd(s, drop, n - 1) else n
  }

  /** Where `s[i..]` starts once its leading characters in `drop` are cut. */
  function KeptStart(s: string, drop: set<char>, i: nat): (m: nat)
    requires i <= |s|
    ensures i <= m <= |s|
    ensures m == |s| || s[m] !in drop
    ensures forall k :: i <= k < m ==> s[k] in drop
    decreases |s| - i
  {
    if i < |s| && s[i] in drop then KeptStart(s, drop, i + 1) else i
  }

  /** `s.TrimEnd(drop)`: the longest prefix of `s` that does not end in `drop`. */
  function TrimEnd(s: string, drop: set<char>): (r: string)
    ensures |r| <= |s| && r == s[..|r|]
    ensures r == [] || r[|r| - 1] !in drop
    ensures forall k :: |r| <= k < |s| ==> s[k] in drop
  {
    s[..KeptEnd(s, drop, |s|)]
  }

  /** `s.TrimStart(drop)`: the longest suffix of `s` that does not start in `drop`. */
  function TrimStart(s: string, drop: set<char>): (r: string)
    ensures |r| <= |s| && r == s[|s| - |r|..]
    ensures r == [] || r[0] !in drop
    ensures forall k :: 0 <= k < |s| - |r| ==> s[k] in drop
  {
    s[KeptStart(s, drop, 0)..]
  }

  /** `s.Trim(drop)`: both ends stripped of characters in `drop`. */
  function Trim(s: string, drop: set<char>): string {
    TrimEnd(TrimStart(s, drop), drop)
  }

  /** A trimmed string is a contiguous piece of the original, and everything cut away on either
      side is in `drop`. */
  lemma {:induction false} TrimIsInfix(s: string, drop: set<char>)
    ensures var r, i := Trim(s, drop), |s| - |TrimStart(s, drop)|;
      0 <= i <= |s| - |r| && r == s[i..i + |r|]
      && (forall k :: 0 <= k < i ==> s[k] in drop)
      && (forall k :: i + |r| <= k < |s| ==> s[k] in drop)
  {
    var t := TrimStart(s, drop);
    var r := TrimEnd(t, drop);
    var i := |s| - |t|;
    assert r == s[i..i + |r|];
    forall k | i + |r| <= k < |s| ensures s[k] in drop {
      assert s[k] == t[k - i];
    }
  }

  /** A trimmed string neither starts nor ends in `drop`. */
  lemma {:induction false} TrimEndsKept(s: string, drop: set<char>)
    ensures var r := Trim(s, drop); r == [] || (r[0] !in drop && r[|r| - 1] !in drop)
  {
    var t := TrimStart(s, drop);
    var r := TrimEnd(t, drop);
    if r != [] {
      assert r[0] == t[0];
    }
  }

  /** A string that neither starts nor ends in `drop` is left as it is. */
  lemma {:induction false} TrimUntouched(s: string, drop: set<char>)
    requires s == [] || (s[0] !in drop && s[|s| - 1] !in drop)
    ensures Trim(s, drop) == s
  {
    assert TrimStart(s, drop) == s;
  }

  /** Trimming a second time changes nothing. */
  lemma {:induction false} TrimIdempotent(s: string, drop: set<char>)
    ensures Trim(Trim(s, drop), drop) == Trim(s, drop)
  {
    var r := Trim(s, drop);
    TrimIsInfix(s, drop);
    TrimEndsKept(s, drop);
    assert TrimStart(r, drop) == r;
    assert TrimEnd(r, drop) == r;
  }

  /** The character for a decimal digit. */
  function DigitChar(d: nat): (c: char)
    requires d < 10
    ensures '0' <= c <= '9' && c as int - '0' as int == d
  {
    ('0' as int + d) as char
  }

  predicate IsDigits(s: string) {
    forall k :: 0 <= k < |s| ==> '0' <= s[k] <= '9'
  }

  /** The decimal digits of `n`, most significant first, without leading zeros. */
  function Digits(n: nat): (s: string)
    ensures |s| >= 1 && IsDigits(s)
    ensures s[0] == '0' ==> n == 0 && s == "0"
  {
    if n < 10 then [DigitChar(n)] else Digits(n / 10) + [DigitChar(n % 10)]
  }

  /** Reads a run of decimal digits back as a number; the partner of `Digits`. */
  function DigitsValue(s: string): nat
    requires IsDigits(s)
  {
    if s == [] then 0 else DigitsValue(s[..|s| - 1]) * 10 + (s[|s| - 1] as int - '0' as int)
  }

  lemma {:induction false} DigitsRoundTrip(n: nat)
    ensures DigitsValue(Digits(n)) == n
  {
    if n >= 10 {
      DigitsRoundTrip(n / 10);
      var s := Digits(n);
      assert s[..|s| - 1] == Digits(n / 10);
    }
  }

  /** Invariant-culture rendering of an integer, as `string.Format("{0}", n)` produces it. */
  function IntToString(n: int): (s: string)
    ensures |s| >= 1
    ensures s[0] == '0' ==> s == "0"
    ensures s[0] == '-' ==> |s| >= 2 && '1' <= s[1] <= '9'
  {
    if n < 0 then "-" + Digits(-n) else Digits(n)
  }

  /** Reads an optional minus sign followed by digits; the partner of `IntToString`. */
  function ParseInt(s: string): int
    requires |s| >= 1 && (s[0] == '-' ==> IsDigits(s[1..])) && (s[0] != '-' ==> IsDigits(s))
  {
    if s[0] == '-' then -(DigitsValue(s[1..]) as int) else DigitsValue(s)
  }

  lemma {:induction false} IntToStringRoundTrip(n: int)
    ensures var s := IntToString(n);
      |s| >= 1 && (s[0] == '-' ==> IsDigits(s[1..])) && (s[0] != '-' ==> IsDigits(s))
      && ParseInt(s) == n
  {
    var s := IntToString(n);
    if n < 0 {
      DigitsRoundTrip(-n);
      assert s == "-" + Digits(-n);
      assert s[1..] == Digits(-n);
    } else {
      DigitsRoundTrip(n);
      assert s == Digits(n);
    }
  }
}
