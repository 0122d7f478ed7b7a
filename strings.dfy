/**
 * The handful of Python `str` operations the core relies on, written out:
 * `startswith`, `endswith`, `in` on strings, `replace` of one character,
 * `split` and `rsplit(..., 1)` on one character, `strip`, `join`, `str(int)`,
 * `int(str)` and `hexdigest` formatting.
 */
module Strings {
  import opened Wrappers

  /** The characters Python's `str.strip()` (no argument) and `int()` treat as white space. */
  predicate IsWhitespace(c: char) {
    || '\t' <= c <= '\r'
    || '\U{001C}' <= c <= ' '
    || c == '\U{0085}' || c == '\U{00A0}' || c == '\U{1680}'
    || '\U{2000}' <= c <= '\U{200A}'
    || c == '\U{2028}' || c == '\U{2029}' || c == '\U{202F}' || c == '\U{205F}' || c == '\U{3000}'
  }

  const Whitespace: set<char> := set c: char | IsWhitespace(c)

  /** Concatenation regroups freely; stated once so that proofs need not rediscover it. */
  lemma Associative<T>(a: seq<T>, b: seq<T>, c: seq<T>)
    ensures a + (b + c) == (a + b) + c
  {
  }

  predicate StartsWith(s: string, prefix: string) {
    prefix <= s
  }

  predicate EndsWith(s: string, suffix: string) {
    |suffix| <= |s| && s[|s| - |suffix|..] == suffix
  }

  /** `sub in s` for two Python strings: `sub` occurs somewhere in `s`. */
  predicate IsSubstring(sub: string, s: string)
    decreases |s|
  {
    sub <= s || (|s| > 0 && IsSubstring(sub, s[1..]))
  }

  predicate IsAscii(s: string) {
    forall i :: 0 <= i < |s| ==> s[i] < '\U{0080}'
  }

  /** `s.replace(c, with)` for a one-character pattern `c`. */
  function ReplaceChar(s: string, c: char, with: string): (r: string)
    ensures c !in s ==> r == s
    decreases |s|
  {
    if s == [] then []
    else (if s[0] == c then with else [s[0]]) + ReplaceChar(s[1..], c, with)
  }

  /** `s.split(c)`: the pieces between occurrences of `c`; never empty. */
  function Split(s: string, c: char): (r: seq<string>)
    ensures |r| > 0
    ensures forall i :: 0 <= i < |r| ==> c !in r[i]
    decreases |s|
  {
    if s == [] then [""]
    else
      var rest := Split(s[1..], c);
      if s[0] == c then [""] + rest else [[s[0]] + rest[0]] + rest[1..]
  }

  /** Splitting `a + [c] + b` on `c` splits `a` and `b` separately. */
  lemma {:induction false} SplitConcat(a: string, b: string, c: char)
    ensures Split(a + [c] + b, c) == Split(a, c) + Split(b, c)
    decreases |a|
  {
    if a == [] {
      assert a + [c] + b == [c] + b;
      assert ([c] + b)[1..] == b;
    } else {
      assert (a + [c] + b)[1..] == a[1..] + [c] + b;
      SplitConcat(a[1..], b, c);
    }
  }

  /** The number of occurrences of `c` in `s`. */
  function Count(s: string, c: char): nat
    decreases |s|
  {
    if s == [] then 0 else (if s[0] == c then 1 else 0) + Count(s[1..], c)
  }

  /** `s.split(c)` has one more piece than `s` has occurrences of `c`. */
  lemma {:induction false} SplitLength(s: string, c: char)
    ensures |Split(s, c)| == Count(s, c) + 1
    decreases |s|
  {
    if s != [] {
      SplitLength(s[1..], c);
    }
  }

  /** A string without `c` splits into itself alone. */
  lemma {:induction false} SplitNoSeparator(s: string, c: char)
    requires c !in s
    ensures Split(s, c) == [s]
    decreases |s|
  {
    if s != [] {
      SplitNoSeparator(s[1..], c);
      assert [s[0]] + s[1..] == s;
    }
  }

  /** `s.rsplit(c, 1)` unpacked into two names: `None` when `c` does not occur (the unpacking fails). */
  function RSplitOnce(s: string, c: char): (r: Option<(string, string)>)
    ensures r.None? <==> c !in s
    ensures r.Some? ==> s == r.value.0 + [c] + r.value.1 && c !in r.value.1
    decreases |s|
  {
    if s == [] then None
    else if s[|s| - 1] == c then Some((s[..|s| - 1], ""))
    else match RSplitOnce(s[..|s| - 1], c)
      case None => None
      case Some((front, back)) => Some((front, back + [s[|s| - 1]]))
  }

  function StripLeft(s: string, cs: set<char>): (r: string)
    ensures |r| <= |s|
    ensures r != [] ==> r[0] !in cs
    decreases |s|
  {
    if s != [] && s[0] in cs then StripLeft(s[1..], cs) else s
  }

  function StripRight(s: string, cs: set<char>): (r: string)
    ensures |r| <= |s| && r == s[..|r|]
    ensures r != [] ==> r[|r| - 1] !in cs
    decreases |s|
  {
    if s != [] && s[|s| - 1] in cs then StripRight(s[..|s| - 1], cs) else s
  }

  /** `s.strip(cs)`: drop every leading and trailing character that is in `cs`. */
  function Strip(s: string, cs: set<char>): (r: string)
    ensures r != [] ==> r[0] !in cs && r[|r| - 1] !in cs
  {
    var l := StripLeft(s, cs);
    var r := StripRight(l, cs);
    assert r != [] ==> r[0] == l[0];
    r
  }

  /** `sep.join(parts)`. */
  function Join(parts: seq<string>, sep: string): string
    decreases |parts|
  {
    if parts == [] then ""
    else if |parts| == 1 then parts[0]
    else parts[0] + sep + Join(parts[1..], sep)
  }

  /** Joining the pieces of `s.split(c)` with `c` gives back `s`. */
  lemma {:induction false} SplitJoin(s: string, c: char)
    ensures Join(Split(s, c), [c]) == s
    decreases |s|
  {
    if s != [] {
      SplitJoin(s[1..], c);
      var rest := Split(s[1..], c);
      if s[0] != c && |rest| > 1 {
        assert Join(rest, [c]) == rest[0] + [c] + Join(rest[1..], [c]);
      }
      assert s == [s[0]] + s[1..];
    }
  }

  function DigitChar(d: nat): (c: char)
    requires d < 10
    ensures '0' <= c <= '9'
  {
    ['0', '1', '2', '3', '4', '5', '6', '7', '8', '9'][d]
  }

  predicate IsDigit(c: char) {
    '0' <= c <= '9'
  }

  function DigitValue(c: char): (d: nat)
    requires IsDigit(c)
    ensures d < 10
  {
    (c as int) - ('0' as int)
  }

  /** `str(n)` for `n >= 0`: decimal digits, no sign, no leading zero. */
  function NatToString(n: nat): (s: string)
    ensures |s| > 0
    ensures forall i :: 0 <= i < |s| ==> IsDigit(s[i])
    decreases n
  {
    if n < 10 then [DigitChar(n)] else NatToString(n / 10) + [DigitChar(n % 10)]
  }

  /** `str(n)` for a Python int. */
  function IntToString(n: int): (s: string)
    ensures |s| > 0
    ensures forall i :: 0 <= i < |s| ==> IsDigit(s[i]) || (i == 0 && s[i] == '-')
    ensures IsDigit(s[|s| - 1])
  {
    if n < 0 then "-" + NatToString(-n) else NatToString(n)
  }

  /**
   * The body of a base-10 literal as `int()` accepts it: digits, with single
   * underscores allowed between two digits.
   */
  predicate DigitGroups(s: string) {
    && |s| > 0
    && IsDigit(s[0])
    && IsDigit(s[|s| - 1])
    && (forall i :: 0 <= i < |s| ==> IsDigit(s[i]) || s[i] == '_')
    && !IsSubstring("__", s)
  }

  /** The value of a run of digits and underscores, underscores ignored. */
  function DigitsValue(s: string): nat
    requires forall i :: 0 <= i < |s| ==> IsDigit(s[i]) || s[i] == '_'
    decreases |s|
  {
    if s == [] then 0
    else if s[|s| - 1] == '_' then DigitsValue(s[..|s| - 1])
    else 10 * DigitsValue(s[..|s| - 1]) + DigitValue(s[|s| - 1])
  }

  /** A run of digit groups read as a number; `None` when it is not one. */
  function ParseDigits(body: string): (r: Option<nat>)
    ensures r.Some? <==> DigitGroups(body)
  {
    if DigitGroups(body) then Some(DigitsValue(body)) else None
  }

  /** An optional sign followed by digit groups. */
  function ParseSigned(t: string): (r: Option<int>)
  {
    if |t| > 0 && t[0] == '-' then
      match ParseDigits(t[1..])
      case None => None
      case Some(v) => var negated: int := -(v as int); Some(negated)
    else if |t| > 0 && t[0] == '+' then
      match ParseDigits(t[1..])
      case None => None
      case Some(v) => Some(v)
    else
      match ParseDigits(t)
      case None => None
      case Some(v) => Some(v)
  }

  /** `rsplit` cuts at the last occurrence: the one followed by a `c`-free tail. */
  lemma {:induction false} RSplitOnceLast(a: string, b: string, c: char)
    requires c !in b
    ensures RSplitOnce(a + [c] + b, c) == Some((a, b))
    decreases |b|
  {
    var s := a + [c] + b;
    if b == [] {
      assert s[..|s| - 1] == a;
    } else {
      assert s[..|s| - 1] == a + [c] + b[..|b| - 1];
      RSplitOnceLast(a, b[..|b| - 1], c);
      assert b[..|b| - 1] + [b[|b| - 1]] == b;
    }
  }

  /** A string that contains `c` splits into at least two pieces. */
  lemma SplitAtLeastTwo(s: string, c: char)
    requires c in s
    ensures |Split(s, c)| >= 2
  {
    var i :| 0 <= i < |s| && s[i] == c;
    assert s == s[..i] + [c] + s[i + 1..];
    SplitConcat(s[..i], s[i + 1..], c);
  }

  /**
   * `int(s)` for a base-10 string written in ASCII digits: surrounding white
   * space, an optional sign, then digit groups of `0`-`9`. `None` where Python
   * raises `ValueError`, and also for the other Unicode decimal digits
   * (fullwidth `１`, say), which Python reads but this model does not.
   */
  function ParseInt(s: string): (r: Option<int>)
  {
    ParseSigned(Strip(s, Whitespace))
  }

  lemma {:induction false} NatToStringValue(n: nat)
    ensures DigitsValue(NatToString(n)) == n
    decreases n
  {
    var s := NatToString(n);
    if n >= 10 {
      NatToStringValue(n / 10);
      assert s[..|s| - 1] == NatToString(n / 10);
    }
  }

  lemma {:induction false} NoUnderscoreInDigits(s: string)
    requires forall i :: 0 <= i < |s| ==> IsDigit(s[i])
    ensures !IsSubstring("__", s)
    decreases |s|
  {
    if s != [] {
      NoUnderscoreInDigits(s[1..]);
      assert IsDigit(s[0]);
    }
  }

  /** `int(str(n)) == n`: the decimal rendering of an int parses back to it. */
  lemma {:induction false} ParseIntRoundTrip(n: int)
    ensures ParseInt(IntToString(n)) == Some(n)
  {
    var s := IntToString(n);
    var m: nat := if n < 0 then -n else n;
    var digits := NatToString(m);
    NatToStringValue(m);
    NoUnderscoreInDigits(digits);
    assert ParseDigits(digits) == Some(m);
    NotWhitespace(s[0]);
    NotWhitespace(s[|s| - 1]);
    StripNothing(s, Whitespace);
    if n < 0 {
      assert s[1..] == digits;
    } else {
      assert s == digits;
    }
  }

  lemma NotWhitespace(c: char)
    requires IsDigit(c) || c == '-'
    ensures c !in Whitespace
  {
  }

  lemma StripNothing(s: string, cs: set<char>)
    requires s != [] ==> s[0] !in cs && s[|s| - 1] !in cs
    ensures Strip(s, cs) == s
  {
    assert StripLeft(s, cs) == s;
  }

  lemma {:induction false} StripLeftKeepsChars(s: string, cs: set<char>)
    ensures forall c :: c in StripLeft(s, cs) ==> c in s
    decreases |s|
  {
    if s != [] && s[0] in cs {
      StripLeftKeepsChars(s[1..], cs);
      forall c | c in s[1..] ensures c in s {
        var i :| 0 <= i < |s[1..]| && s[1..][i] == c;
        assert s[i + 1] == c;
      }
    }
  }

  /** Stripping only removes characters: what is left was in `s`. */
  lemma StripKeepsChars(s: string, cs: set<char>)
    ensures forall c :: c in Strip(s, cs) ==> c in s
  {
    StripLeftKeepsChars(s, cs);
    var l := StripLeft(s, cs);
    forall c | c in StripRight(l, cs) ensures c in l {
      var r := StripRight(l, cs);
      var i :| 0 <= i < |r| && r[i] == c;
      assert l[i] == c;
    }
  }

  lemma {:induction false} StripLeftAll(s: string, cs: set<char>)
    requires forall i :: 0 <= i < |s| ==> s[i] in cs
    ensures StripLeft(s, cs) == []
    decreases |s|
  {
    if s != [] {
      StripLeftAll(s[1..], cs);
    }
  }

  /** A string made only of stripped characters strips to nothing. */
  lemma StripAll(s: string, cs: set<char>)
    requires forall i :: 0 <= i < |s| ==> s[i] in cs
    ensures Strip(s, cs) == []
  {
    StripLeftAll(s, cs);
  }

  lemma {:induction false} StripRightPadding(s: string, t: string, cs: set<char>)
    requires s != [] && s[|s| - 1] !in cs
    requires forall i :: 0 <= i < |t| ==> t[i] in cs
    ensures StripRight(s + t, cs) == s
    decreases |t|
  {
    if t == [] {
      assert s + t == s;
    } else {
      assert (s + t)[..|s + t| - 1] == s + t[..|t| - 1];
      StripRightPadding(s, t[..|t| - 1], cs);
    }
  }

  /** Stripping a string that neither starts nor ends with a stripped character drops exactly the padding after it. */
  lemma StripPadding(s: string, t: string, cs: set<char>)
    requires s != [] && s[0] !in cs && s[|s| - 1] !in cs
    requires forall i :: 0 <= i < |t| ==> t[i] in cs
    ensures Strip(s + t, cs) == s
  {
    assert StripLeft(s + t, cs) == s + t;
    StripRightPadding(s, t, cs);
  }

  function HexChar(d: bv8): (c: char)
    requires d < 16
  {
    "0123456789abcdef"[d as int]
  }

  /** `digest.hex()` / `hexdigest()`: two lower-case hex characters per byte. */
  function Hex(bytes: seq<bv8>): (s: string)
    ensures |s| == 2 * |bytes|
    ensures IsAscii(s)
    decreases |bytes|
  {
    if bytes == [] then ""
    else [HexChar(bytes[0] >> 4), HexChar(bytes[0] & 15)] + Hex(bytes[1..])
  }
}
