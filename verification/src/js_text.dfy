/**
 * The handful of JavaScript string operations the application relies on:
 * case mapping, `trim`, `includes`, `split`/`join`, number-to-text and the
 * "is this property key an array index" test that decides the key order of
 * plain objects.  Strings are sequences of characters; case mapping is
 * restricted to ASCII letters.
 */
module JsText {
  import opened Wrappers


  /** The `\d` class of a regular expression without the `u` flag. */
  predicate IsDigit(c: char) {
    '0' <= c <= '9'
  }

  predicate AllDigits(s: string) {
    forall i :: 0 <= i < |s| ==> IsDigit(s[i])
  }

  function LowerChar(c: char): char {
    if 'A' <= c <= 'Z' then (c as int + 32) as char else c
  }

  function UpperChar(c: char): char {
    if 'a' <= c <= 'z' then (c as int - 32) as char else c
  }

  /** `s.toLowerCase()` on ASCII letters. */
  function Lower(s: string): (r: string)
    ensures |r| == |s|
    ensures forall i :: 0 <= i < |s| ==> r[i] == LowerChar(s[i])
  {
    seq(|s|, i requires 0 <= i < |s| => LowerChar(s[i]))
  }

  /** Lower-casing twice is lower-casing once. */
  lemma LowerIdempotent(s: string)
    ensures Lower(Lower(s)) == Lower(s)
  {
  }

  /** `s.charAt(0).toUpperCase() + s.slice(1)`. */
  function Capitalize(s: string): (r: string)
    ensures |r| == |s|
    ensures |s| > 0 ==> r[0] == UpperChar(s[0]) && r[1..] == s[1..]
  {
    if |s| == 0 then "" else [UpperChar(s[0])] + s[1..]
  }

  /** The characters `String.prototype.trim` removes: WhiteSpace and LineTerminator. */
  predicate IsSpace(c: char) {
    || c == '\t' || c == '\n' || c == '\U{000B}' || c == '\U{000C}' || c == '\r' || c == ' '
    || c == '\U{00A0}' || c == '\U{1680}' || ('\U{2000}' <= c <= '\U{200A}')
    || c == '\U{2028}' || c == '\U{2029}' || c == '\U{202F}' || c == '\U{205F}'
    || c == '\U{3000}' || c == '\U{FEFF}'
  }

  predicate AllSpace(s: string) {
    forall i :: 0 <= i < |s| ==> IsSpace(s[i])
  }

  function TrimStart(s: string): (r: string)
    ensures |r| <= |s| && r == s[|s| - |r|..]
    ensures AllSpace(s[..|s| - |r|])
    ensures |r| > 0 ==> !IsSpace(r[0])
  {
    if |s| > 0 && IsSpace(s[0]) then TrimStart(s[1..]) else s
  }

  function TrimEnd(s: string): (r: string)
    ensures |r| <= |s| && r == s[..|r|]
    ensures AllSpace(s[|r|..])
    ensures |r| > 0 ==> !IsSpace(r[|r| - 1])
  {
    if |s| > 0 && IsSpace(s[|s| - 1]) then TrimEnd(s[..|s| - 1]) else s
  }

  /** `s.trim()`: `r` is `s` with only white space around it, and starts and ends with none. */
  function Trim(s: string): (r: string)
    ensures exists i :: 0 <= i <= |s| - |r| && r == s[i..i + |r|]
                        && AllSpace(s[..i]) && AllSpace(s[i + |r|..])
    ensures |r| > 0 ==> !IsSpace(r[0]) && !IsSpace(r[|r| - 1])
  {
    var t := TrimStart(s);
    var r := TrimEnd(t);
    TrimWitness(s, t, r);
    r
  }

  lemma TrimWitness(s: string, t: string, r: string)
    requires |t| <= |s| && t == s[|s| - |t|..] && AllSpace(s[..|s| - |t|])
    requires |r| <= |t| && r == t[..|r|] && AllSpace(t[|r|..])
    ensures var i := |s| - |t|;
            r == s[i..i + |r|] && AllSpace(s[..i]) && AllSpace(s[i + |r|..])
  {
    var i := |s| - |t|;
    assert s[i + |r|..] == t[|r|..];
  }

  /** `s.includes(sub)`: `sub` occurs in `s` at some position. */
  predicate Contains(s: string, sub: string)
    decreases |s|
  {
    |sub| <= |s| && (s[..|sub|] == sub || Contains(s[1..], sub))
  }

  lemma {:induction false} ContainsEmpty(s: string)
    ensures Contains(s, "")
  {
  }

  /** `includes` means an occurrence at some index. */
  lemma {:induction false} ContainsAt(s: string, sub: string, i: nat)
    requires i + |sub| <= |s| && s[i..i + |sub|] == sub
    ensures Contains(s, sub)
    decreases i
  {
    if i > 0 {
      assert s[1..][i - 1..i - 1 + |sub|] == s[i..i + |sub|];
      ContainsAt(s[1..], sub, i - 1);
    }
  }

  /** `true` when a string is truthy in JavaScript: present and not empty. */
  predicate Truthy(o: Option<string>) {
    o.Some? && o.value != ""
  }

  /** `o || fallback` for a string that may be absent or empty. */
  function Or(o: Option<string>, fallback: string): (r: string)
    ensures Truthy(o) ==> r == o.value
    ensures !Truthy(o) ==> r == fallback
  {
    if Truthy(o) then o.value else fallback
  }

  /** `a || b` where both may be absent: `b` is returned as it is when `a` is falsy. */
  function OrElse(a: Option<string>, b: Option<string>): (r: Option<string>)
    ensures Truthy(a) ==> r == a
    ensures !Truthy(a) ==> r == b
  {
    if Truthy(a) then a else b
  }

  /** The text `${x}` produces for a string that may be `undefined`. */
  function Interpolate(o: Option<string>): string {
    match o
    case Some(s) => s
    case None => "undefined"
  }

  // ---------------------------------------------------------------- split / join

  predicate StartsWith(s: string, prefix: string) {
    |prefix| <= |s| && s[..|prefix|] == prefix
  }

  /** `split` scanning from the left; `cur` is the part collected so far. */
  function SplitFrom(s: string, sep: string, cur: string): (r: seq<string>)
    requires |sep| > 0
    ensures |r| >= 1
    decreases |s|
  {
    if |s| == 0 then [cur]
    else if StartsWith(s, sep) then [cur] + SplitFrom(s[|sep|..], sep, "")
    else SplitFrom(s[1..], sep, cur + [s[0]])
  }

  /** `s.split(sep)` for a non-empty separator: never an empty list. */
  function Split(s: string, sep: string): (r: seq<string>)
    requires |sep| > 0
    ensures |r| >= 1
  {
    SplitFrom(s, sep, "")
  }

  /** `parts.join(sep)`. */
  function Join(parts: seq<string>, sep: string): string
  {
    if |parts| == 0 then ""
    else if |parts| == 1 then parts[0]
    else parts[0] + sep + Join(parts[1..], sep)
  }

  lemma {:induction false} JoinSplitFrom(s: string, sep: string, cur: string)
    requires |sep| > 0
    ensures Join(SplitFrom(s, sep, cur), sep) == cur + s
    decreases |s|
  {
    if |s| == 0 {
    } else if StartsWith(s, sep) {
      var rest := SplitFrom(s[|sep|..], sep, "");
      JoinSplitFrom(s[|sep|..], sep, "");
      assert ([cur] + rest)[1..] == rest;
      assert s == sep + s[|sep|..];
    } else {
      JoinSplitFrom(s[1..], sep, cur + [s[0]]);
      assert cur + [s[0]] + s[1..] == cur + s;
    }
  }

  /** Joining the parts of a split gives back the original text. */
  lemma {:induction false} JoinSplit(s: string, sep: string)
    requires |sep| > 0
    ensures Join(Split(s, sep), sep) == s
  {
    JoinSplitFrom(s, sep, "");
  }

  /** `sep[k]` occurs nowhere else in `sep`. */
  predicate UniqueMark(sep: string, k: nat) {
    k < |sep| && forall j :: 0 <= j < |sep| && j != k ==> sep[j] != sep[k]
  }

  /** Scanning across a part that holds no occurrence of the separator only collects it. */
  lemma {:induction false} SplitAcross(x: string, y: string, sep: string, k: nat, cur: string)
    requires |sep| > 0 && UniqueMark(sep, k)
    requires forall i :: 0 <= i < |x| ==> x[i] != sep[k]
    requires y == "" || StartsWith(y, sep)
    ensures SplitFrom(x + y, sep, cur) == SplitFrom(y, sep, cur + x)
    decreases |x|
  {
    if |x| > 0 {
      var s := x + y;
      if k < |x| {
        assert s[k] == x[k] != sep[k];
      } else if |sep| <= |s| {
        assert y != "";
        assert s[k] == y[k - |x|] == sep[k - |x|] != sep[k];
      }
      assert !StartsWith(s, sep);
      assert s[1..] == x[1..] + y;
      SplitAcross(x[1..], y, sep, k, cur + [x[0]]);
      assert cur + [x[0]] + x[1..] == cur + x;
    } else {
      assert x + y == y;
      assert cur + x == cur;
    }
  }

  /**
   * Splitting a joined list gives back the list, provided the separator has a
   * character that appears once in it and in none of the parts.
   */
  lemma {:induction false} SplitJoin(parts: seq<string>, sep: string, k: nat)
    requires |sep| > 0 && UniqueMark(sep, k)
    requires |parts| >= 1
    requires forall p, i :: p in parts && 0 <= i < |p| ==> p[i] != sep[k]
    ensures Split(Join(parts, sep), sep) == parts
    decreases |parts|
  {
    if |parts| == 1 {
      SplitAcross(parts[0], "", sep, k, "");
      assert parts[0] + "" == parts[0];
      assert "" + parts[0] == parts[0];
    } else {
      var rest := Join(parts[1..], sep);
      assert Join(parts, sep) == parts[0] + (sep + rest);
      SplitAcross(parts[0], sep + rest, sep, k, "");
      assert StartsWith(sep + rest, sep);
      assert (sep + rest)[|sep|..] == rest;
      assert "" + parts[0] == parts[0];
      assert SplitFrom(sep + rest, sep, parts[0]) == [parts[0]] + Split(rest, sep);
      SplitJoin(parts[1..], sep, k);
      assert [parts[0]] + parts[1..] == parts;
    }
  }

  /** A character in none of the parts and not in the separator is not in the joined text. */
  lemma {:induction false} JoinAvoids(parts: seq<string>, sep: string, c: char)
    requires forall p :: p in parts ==> c !in p
    requires c !in sep
    ensures c !in Join(parts, sep)
    decreases |parts|
  {
    if |parts| > 1 {
      assert parts[0] in parts;
      forall p | p in parts[1..]
        ensures c !in p
      {
        var i :| 0 <= i < |parts[1..]| && parts[1..][i] == p;
        assert parts[i + 1] == p;
      }
      JoinAvoids(parts[1..], sep, c);
    } else if |parts| == 1 {
      assert parts[0] in parts;
    }
  }

  /** How many times `c` occurs in `s`. */
  function Occurrences(s: string, c: char): nat
    decreases |s|
  {
    if |s| == 0 then 0 else (if s[0] == c then 1 else 0) + Occurrences(s[1..], c)
  }

  /** Splitting on a one-character separator gives one part more than there are separators. */
  lemma {:induction false} SplitFromCount(s: string, c: char, cur: string)
    ensures |SplitFrom(s, [c], cur)| == Occurrences(s, c) + 1
    decreases |s|
  {
    if |s| > 0 {
      if s[0] == c {
        assert StartsWith(s, [c]);
        assert s[|[c]|..] == s[1..];
        SplitFromCount(s[1..], c, "");
      } else {
        assert !StartsWith(s, [c]);
        SplitFromCount(s[1..], c, cur + [s[0]]);
      }
    }
  }

  // ---------------------------------------------------------------- numbers as text

  function DigitChar(d: nat): (c: char)
    requires d < 10
    ensures IsDigit(c)
  {
    ('0' as int + d) as char
  }

  function DigitValue(c: char): nat
    requires IsDigit(c)
  {
    c as int - '0' as int
  }

  /** The value of a string of decimal digits. */
  function DecimalValue(s: string): nat
    requires AllDigits(s)
  {
    if |s| == 0 then 0 else DecimalValue(s[..|s| - 1]) * 10 + DigitValue(s[|s| - 1])
  }

  /** `String(n)` for a non-negative integer: digits, no leading zero. */
  function NatToString(n: nat): (r: string)
    ensures |r| > 0 && AllDigits(r)
    ensures r[0] == '0' ==> r == "0"
    decreases n
  {
    if n < 10 then [DigitChar(n)] else NatToString(n / 10) + [DigitChar(n % 10)]
  }

  /** Reading back the digits written by `NatToString` gives the number. */
  lemma {:induction false} NatToStringValue(n: nat)
    ensures DecimalValue(NatToString(n)) == n
    decreases n
  {
    if n >= 10 {
      var r := NatToString(n);
      assert r[..|r| - 1] == NatToString(n / 10);
      NatToStringValue(n / 10);
    }
  }

  /** `String(n)` for an integer. */
  function IntToString(n: int): (r: string)
    ensures |r| > 0
    ensures forall i :: 0 <= i < |r| ==> IsDigit(r[i]) || r[i] == '-'
  {
    if n < 0 then "-" + NatToString(-n) else NatToString(n)
  }

  /**
   * A property key that is an array index: the canonical decimal text of an
   * integer below 2^32 - 1.  Plain objects list such keys first.
   */
  predicate IsArrayIndex(key: string) {
    && |key| > 0
    && AllDigits(key)
    && (key[0] == '0' ==> key == "0")
    && DecimalValue(key) <= 0xFFFF_FFFE
  }

  /** Canonical decimal texts of different numbers differ, so array-index keys are ordered by value. */
  lemma {:induction false} ArrayIndexInjective(a: string, b: string)
    requires IsArrayIndex(a) && IsArrayIndex(b) && DecimalValue(a) == DecimalValue(b)
    ensures a == b
  {
    CanonicalDigits(a);
    CanonicalDigits(b);
  }

  lemma {:induction false} CanonicalDigits(s: string)
    requires |s| > 0 && AllDigits(s) && (s[0] == '0' ==> s == "0")
    ensures s == NatToString(DecimalValue(s))
    decreases |s|
  {
    var v := DecimalValue(s);
    if |s| == 1 {
      assert s[..0] == "" && s[|s| - 1] == s[0];
      assert v == DecimalValue(s[..0]) * 10 + DigitValue(s[0]);
      assert s == [DigitChar(v)];
    } else {
      var pre := s[..|s| - 1];
      assert pre[0] == s[0];
      CanonicalDigits(pre);
      PositiveWhenLeadingNonZero(pre);
      assert v / 10 == DecimalValue(pre) && v % 10 == DigitValue(s[|s| - 1]);
      assert s == pre + [DigitChar(v % 10)];
    }
  }

  lemma {:induction false} PositiveWhenLeadingNonZero(s: string)
    requires |s| > 0 && AllDigits(s) && s[0] != '0'
    ensures DecimalValue(s) > 0
    decreases |s|
  {
    if |s| > 1 {
      assert s[..|s| - 1][0] == s[0];
      PositiveWhenLeadingNonZero(s[..|s| - 1]);
    }
  }
}
