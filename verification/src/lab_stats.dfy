/**
 * The laboratory statistics route.  Every value of a record's extracted lab
 * table is free text ("120/80 mmHg", "7,2 %"); the route reads the first
 * number out of it and files that number under each configured lab whose
 * name occurs, ignoring case, in the value's key.  Each lab is then
 * summarised by its count, its mean and its first hundred values.
 *
 * Numbers are kept exact: a parsed number is the token the regular
 * expression `-?\d+(\.\d+)?` matched, and its value is a `real`.
 */
module LabStats {
  import opened Wrappers
  import opened Seqs
  import opened Records
  import JsText

  // ---------------------------------------------------------------- reading a number

  /** What `-?\d+(\.\d+)?` matched: the sign, the integer digits and the fraction digits (empty when absent). */
  datatype Token = Token(negative: bool, whole: string, fraction: string)

  predicate WellFormed(t: Token) {
    |t.whole| > 0 && JsText.AllDigits(t.whole) && JsText.AllDigits(t.fraction)
  }

  /** The text a token was read from. */
  function TokenText(t: Token): string {
    (if t.negative then "-" else "") + t.whole + (if |t.fraction| > 0 then "." + t.fraction else "")
  }

  function Pow10(n: nat): (r: nat)
    ensures r > 0
  {
    if n == 0 then 1 else 10 * Pow10(n - 1)
  }

  /** `parseFloat` of the token's text, without rounding. */
  function Value(t: Token): real
    requires WellFormed(t)
  {
    var magnitude := JsText.DecimalValue(t.whole) as real
                     + JsText.DecimalValue(t.fraction) as real / Pow10(|t.fraction|) as real;
    if t.negative then -magnitude else magnitude
  }

  /** One character after `.replace(/,/g, ".").replace(/[^\d.\-]/g, " ")`. */
  function CleanChar(c: char): char {
    if c == ',' then '.' else if JsText.IsDigit(c) || c == '.' || c == '-' then c else ' '
  }

  /** The text with every character cleaned. */
  function Clean(s: string): (r: string)
    ensures |r| == |s|
    ensures forall i :: 0 <= i < |s| ==> r[i] == CleanChar(s[i])
  {
    seq(|s|, i requires 0 <= i < |s| => CleanChar(s[i]))
  }

  /** Commas become points; digits, points and minus signs stay; everything else becomes a space. */
  lemma CleanFacts(s: string, i: nat)
    requires i < |s|
    ensures JsText.IsDigit(s[i]) || s[i] == '.' || s[i] == '-' ==> Clean(s)[i] == s[i]
    ensures s[i] == ',' ==> Clean(s)[i] == '.'
    ensures !(JsText.IsDigit(s[i]) || s[i] == '.' || s[i] == '-' || s[i] == ',') ==> Clean(s)[i] == ' '
    ensures JsText.IsDigit(Clean(s)[i]) <==> JsText.IsDigit(s[i])
  {
  }

  /** A match of the pattern can begin at `p`: a digit, or a minus sign followed by a digit. */
  predicate StartsNumber(c: string, p: nat)
    requires p < |c|
  {
    JsText.IsDigit(c[p]) || (c[p] == '-' && p + 1 < |c| && JsText.IsDigit(c[p + 1]))
  }

  /** `c` holds `w` from position `p` on. */
  predicate Spells(c: string, p: nat, w: string) {
    p + |w| <= |c| && forall i :: 0 <= i < |w| ==> c[p + i] == w[i]
  }

  /** Every position from `p` up to, not including, `e` holds a digit. */
  predicate DigitsBetween(c: string, p: nat, e: nat) {
    e <= |c| && forall i :: p <= i < e ==> JsText.IsDigit(c[i])
  }

  lemma SpellsAt(c: string, p: nat, w: string, i: nat)
    requires Spells(c, p, w) && i < |w|
    ensures p + i < |c| && c[p + i] == w[i]
  {
  }

  lemma SpellsSplit(c: string, p: nat, x: string, y: string)
    requires Spells(c, p, x + y)
    ensures Spells(c, p, x) && Spells(c, p + |x|, y)
  {
    forall i | 0 <= i < |x| ensures c[p + i] == x[i] {
      assert (x + y)[i] == x[i];
    }
    forall i | 0 <= i < |y| ensures c[p + |x| + i] == y[i] {
      assert c[p + (|x| + i)] == (x + y)[|x| + i];
    }
  }

  lemma SpellsConcat(c: string, p: nat, x: string, y: string)
    requires Spells(c, p, x) && Spells(c, p + |x|, y)
    ensures Spells(c, p, x + y)
  {
    forall i | 0 <= i < |x + y| ensures c[p + i] == (x + y)[i] {
      if i >= |x| {
        assert c[p + |x| + (i - |x|)] == y[i - |x|];
      }
    }
  }

  /** A slice spells itself, and a spelled text is the slice. */
  lemma SpellsSlice(c: string, p: nat, w: string)
    requires p + |w| <= |c|
    ensures Spells(c, p, w) <==> c[p..p + |w|] == w
  {
    if Spells(c, p, w) {
      forall i | 0 <= i < |w| ensures c[p..p + |w|][i] == w[i] {
        assert c[p..p + |w|][i] == c[p + i];
      }
    }
  }

  /** A spelled run of digits holds digits at every position it covers. */
  lemma SpellsDigits(c: string, p: nat, w: string)
    requires Spells(c, p, w) && JsText.AllDigits(w)
    ensures DigitsBetween(c, p, p + |w|)
  {
    forall i | p <= i < p + |w| ensures JsText.IsDigit(c[i]) {
      assert c[p + (i - p)] == w[i - p];
    }
  }

  /** The length of the run of digits starting at `p`. */
  function DigitRun(c: string, p: nat): (n: nat)
    requires p <= |c|
    ensures DigitsBetween(c, p, p + n)
    ensures p + n == |c| || !JsText.IsDigit(c[p + n])
    ensures p < |c| && JsText.IsDigit(c[p]) ==> n > 0
    decreases |c| - p
  {
    if p < |c| && JsText.IsDigit(c[p]) then 1 + DigitRun(c, p + 1) else 0
  }

  /** The run of digits at `p` is exactly the `n` digits there when a non-digit or the end follows them. */
  lemma {:induction false} DigitRunExact(c: string, p: nat, n: nat)
    requires DigitsBetween(c, p, p + n)
    requires p + n == |c| || !JsText.IsDigit(c[p + n])
    ensures DigitRun(c, p) == n
    decreases n
  {
    if n > 0 {
      DigitRunExact(c, p + 1, n - 1);
    }
  }

  /** `.\d` follows at `e`: the optional fraction group can match there. */
  predicate FractionAt(c: string, e: nat) {
    e + 1 < |c| && c[e] == '.' && JsText.IsDigit(c[e + 1])
  }

  /** `"." + fraction`, or nothing when there is no fraction. */
  function FractionText(fraction: string): string {
    if |fraction| > 0 then "." + fraction else ""
  }

  /** The fraction digits the optional group `(\.\d+)` matches at `e`, greedily. */
  function FractionFrom(c: string, e: nat): (f: string)
    requires e <= |c|
    ensures JsText.AllDigits(f)
    ensures Spells(c, e, FractionText(f))
    ensures var end := e + |FractionText(f)|; |f| > 0 ==> end == |c| || !JsText.IsDigit(c[end])
    ensures |f| == 0 <==> !FractionAt(c, e)
  {
    if FractionAt(c, e) then
      var n := DigitRun(c, e + 1);
      var f := c[e + 1..e + 1 + n];
      SpellsSlice(c, e + 1, f);
      assert Spells(c, e, ".") by {
        assert c[e] == "."[0];
      }
      SpellsConcat(c, e, ".", f);
      assert forall i :: 0 <= i < |f| ==> f[i] == c[e + 1 + i];
      f
    else ""
  }

  /** The token's text followed by nothing that continues it. */
  predicate EndsAt(c: string, end: nat, t: Token) {
    end <= |c| && (end == |c| || !JsText.IsDigit(c[end])) && (t.fraction == "" ==> !FractionAt(c, end))
  }

  /**
   * `r` is what the pattern matches greedily at `p`: a well-formed token
   * spelled from `p`, followed neither by a digit nor, when it has no
   * fraction, by a point and a digit; negative exactly when `p` holds a minus
   * sign.
   */
  predicate ReadsAt(c: string, p: nat, r: Token)
    requires p < |c|
  {
    && WellFormed(r)
    && Spells(c, p, TokenText(r))
    && EndsAt(c, p + |TokenText(r)|, r)
    && (r.negative <==> c[p] == '-')
  }

  /** The greedy match of the pattern at a position where one can begin. */
  function ReadAt(c: string, p: nat): Token
    requires p < |c| && StartsNumber(c, p)
  {
    TokenFrom(c, p, if c[p] == '-' then p + 1 else p)
  }

  /** The token whose sign is read at `p` and whose digits start at `s`. */
  function TokenFrom(c: string, p: nat, s: nat): Token
    requires p < |c| && s <= |c|
  {
    Token(c[p] == '-', c[s..s + DigitRun(c, s)], FractionFrom(c, s + DigitRun(c, s)))
  }

  /** What `ReadAt` reads is the greedy match there. */
  lemma ReadAtReads(c: string, p: nat)
    requires p < |c| && StartsNumber(c, p)
    ensures ReadsAt(c, p, ReadAt(c, p))
  {
    ReadAtFacts(c, p, if c[p] == '-' then p + 1 else p);
  }

  lemma ReadAtFacts(c: string, p: nat, s: nat)
    requires p < |c| && StartsNumber(c, p) && s == (if c[p] == '-' then p + 1 else p)
    ensures ReadsAt(c, p, TokenFrom(c, p, s))
  {
    var n := DigitRun(c, s);
    assert TokenFrom(c, p, s) == Token(c[p] == '-', c[s..s + n], FractionFrom(c, s + n));
    ReadsToken(c, p, s, n);
  }

  lemma {:induction false} ReadsToken(c: string, p: nat, s: nat, n: nat)
    requires p < |c| && StartsNumber(c, p) && s == (if c[p] == '-' then p + 1 else p) && n == DigitRun(c, s)
    ensures ReadsAt(c, p, Token(c[p] == '-', c[s..s + n], FractionFrom(c, s + n)))
  {
    var w := c[s..s + n];
    var f := FractionFrom(c, s + n);
    var r := Token(c[p] == '-', w, f);
    WholeRun(c, s, n);
    FractionEnds(c, s + n, r);
    ReadsFromPieces(c, p, s, s + n, r);
  }

  /** After a run of digits, the greedy fraction leaves nothing that continues the token. */
  lemma FractionEnds(c: string, e: nat, r: Token)
    requires e <= |c| && (e == |c| || !JsText.IsDigit(c[e])) && r.fraction == FractionFrom(c, e)
    ensures EndsAt(c, e + |FractionText(r.fraction)|, r)
  {
  }

  /** The run of digits at a digit is a non-empty run of digits spelled there. */
  lemma {:induction false} WholeRun(c: string, s: nat, n: nat)
    requires s < |c| && JsText.IsDigit(c[s]) && n == DigitRun(c, s)
    ensures s + n <= |c| && |c[s..s + n]| == n > 0
    ensures JsText.AllDigits(c[s..s + n]) && Spells(c, s, c[s..s + n])
  {
    var w := c[s..s + n];
    SpellsSlice(c, s, w);
    forall i | 0 <= i < |w| ensures JsText.IsDigit(w[i]) {
      assert w[i] == c[s + i];
    }
  }

  /**
   * A token whose sign, digits and fraction are spelled one after another, and
   * not continued, is read there; the step of `ReadsToken` behind the
   * `LabStats.ReadAtReads` row.
   */
  lemma ReadsFromPieces(c: string, p: nat, s: nat, e: nat, r: Token)
    requires p < |c| && (r.negative <==> c[p] == '-') && WellFormed(r)
    requires s == (if r.negative then p + 1 else p) && e == s + |r.whole|
    requires Spells(c, s, r.whole) && Spells(c, e, FractionText(r.fraction))
    requires EndsAt(c, e + |FractionText(r.fraction)|, r)
    ensures ReadsAt(c, p, r)
  {
    var sign := if r.negative then "-" else "";
    assert Spells(c, p, sign) by {
      if r.negative {
        assert c[p] == sign[0];
      }
    }
    SpellsConcat(c, p, sign, r.whole);
    SpellsConcat(c, p, sign + r.whole, FractionText(r.fraction));
    assert TokenText(r) == sign + r.whole + FractionText(r.fraction);
  }

  /** The first position at or after `p` where a match can begin. */
  function FirstStart(c: string, p: nat): (r: Option<nat>)
    requires p <= |c|
    ensures r.Some? ==> p <= r.value < |c| && StartsNumber(c, r.value)
    ensures r.Some? ==> forall q :: p <= q < r.value ==> !StartsNumber(c, q)
    ensures r.None? ==> forall q :: p <= q < |c| ==> !StartsNumber(c, q)
    decreases |c| - p
  {
    if p == |c| then None else if StartsNumber(c, p) then Some(p) else FirstStart(c, p + 1)
  }

  /** The token `t` was matched at `p` and no match begins earlier. */
  ghost predicate MatchedAt(c: string, p: nat, t: Token) {
    p < |c| && StartsNumber(c, p) && (forall q :: 0 <= q < p ==> !StartsNumber(c, q)) && ReadsAt(c, p, t)
  }

  /** `cleaned.match(/-?\d+(\.\d+)?/)`: the leftmost match, read greedily. */
  function Match(c: string): (r: Option<Token>)
    ensures r.None? <==> forall q :: 0 <= q < |c| ==> !StartsNumber(c, q)
    ensures r.Some? ==> exists p :: MatchedAt(c, p, r.value)
  {
    match FirstStart(c, 0)
    case None => None
    case Some(p) =>
      var t := ReadAt(c, p);
      ReadAtReads(c, p);
      assert MatchedAt(c, p, t);
      Some(t)
  }

  /** `parseFirstNumber`: nothing for an empty value, else the first number of the cleaned text. */
  function ParseFirstNumber(value: string): (r: Option<Token>)
    ensures value == "" ==> r.None?
    ensures value != "" ==> r == Match(Clean(value))
  {
    if value == "" then None else Match(Clean(value))
  }

  /** The fraction digits the text `"." + f` carries, followed by a non-digit, are read as the fraction. */
  lemma FractionFromExact(c: string, e: nat, f: string)
    requires JsText.AllDigits(f) && |f| > 0
    requires Spells(c, e, "." + f)
    requires e + 1 + |f| == |c| || !JsText.IsDigit(c[e + 1 + |f|])
    ensures FractionFrom(c, e) == f
  {
    SpellsAt(c, e, "." + f, 0);
    SpellsAt(c, e, "." + f, 1);
    assert FractionAt(c, e);
    SpellsSplit(c, e, ".", f);
    SpellsDigits(c, e + 1, f);
    DigitRunExact(c, e + 1, |f|);
    SpellsSlice(c, e + 1, f);
  }

  /** After the integer digits, the fraction text followed by nothing that continues it is read as the fraction. */
  lemma FractionRendered(c: string, e: nat, t: Token)
    requires WellFormed(t)
    requires Spells(c, e, FractionText(t.fraction))
    requires EndsAt(c, e + |FractionText(t.fraction)|, t)
    ensures FractionFrom(c, e) == t.fraction
    ensures e < |c| ==> !JsText.IsDigit(c[e])
  {
    if |t.fraction| > 0 {
      SpellsAt(c, e, FractionText(t.fraction), 0);
      FractionFromExact(c, e, t.fraction);
    }
  }

  /** The sign, the integer digits and the fraction of `t` stand one after another from `p`. */
  predicate Parts(c: string, p: nat, s: nat, t: Token) {
    && p < |c| && (c[p] == '-' <==> t.negative) && s == (if t.negative then p + 1 else p)
    && Spells(c, s, t.whole)
    && Spells(c, s + |t.whole|, FractionText(t.fraction))
  }

  /** Where the sign, the integer digits and the fraction of a token's text lie. */
  lemma TextParts(c: string, p: nat, t: Token)
    requires WellFormed(t) && Spells(c, p, TokenText(t))
    ensures Parts(c, p, if t.negative then p + 1 else p, t)
  {
    var sign := if t.negative then "-" else "";
    assert TokenText(t) == sign + t.whole + FractionText(t.fraction);
    SpellsSplit(c, p, sign + t.whole, FractionText(t.fraction));
    SpellsSplit(c, p, sign, t.whole);
    if t.negative {
      SpellsAt(c, p, sign, 0);
    } else {
      SpellsAt(c, p, t.whole, 0);
    }
  }

  /** The parts of a token's text, followed by nothing that continues it, are read back as the token. */
  lemma ReadFromParts(c: string, p: nat, s: nat, t: Token)
    requires WellFormed(t) && Parts(c, p, s, t)
    requires EndsAt(c, s + |t.whole| + |FractionText(t.fraction)|, t)
    ensures p < |c| && StartsNumber(c, p)
    ensures ReadAt(c, p) == t
  {
    var e := s + |t.whole|;
    SpellsAt(c, s, t.whole, 0);
    FractionRendered(c, e, t);
    WholeRead(c, s, t.whole);
    TokenFromParts(c, p, s, t);
  }

  /**
   * Integer digits spelled at `s` and not followed by another digit are
   * exactly the digit run there; a step of `ReadFromParts`, behind the
   * `LabStats.ReadRendered` row.
   */
  lemma {:induction false} WholeRead(c: string, s: nat, w: string)
    requires Spells(c, s, w) && JsText.AllDigits(w)
    requires s + |w| == |c| || !JsText.IsDigit(c[s + |w|])
    ensures DigitRun(c, s) == |w| && c[s..s + |w|] == w
  {
    SpellsDigits(c, s, w);
    DigitRunExact(c, s, |w|);
    SpellsSlice(c, s, w);
  }

  lemma {:induction false} TokenFromParts(c: string, p: nat, s: nat, t: Token)
    requires p < |c| && s + |t.whole| <= |c| && (c[p] == '-' <==> t.negative)
    requires DigitRun(c, s) == |t.whole| && c[s..s + |t.whole|] == t.whole
    requires FractionFrom(c, s + |t.whole|) == t.fraction
    ensures TokenFrom(c, p, s) == t
  {
  }

  /** Reading at the start of a token's text, when nothing continues it, gives back the token. */
  lemma ReadRendered(c: string, p: nat, t: Token)
    requires WellFormed(t) && Spells(c, p, TokenText(t)) && EndsAt(c, p + |TokenText(t)|, t)
    ensures p < |c| && StartsNumber(c, p)
    ensures ReadAt(c, p) == t
  {
    TextParts(c, p, t);
    ReadFromParts(c, p, if t.negative then p + 1 else p, t);
  }

  /** A token written between text without digits or minus signs and a character that cannot extend it is read back. */
  lemma MatchRendered(pre: string, t: Token, rest: string)
    requires WellFormed(t)
    requires forall i :: 0 <= i < |pre| ==> !JsText.IsDigit(pre[i]) && pre[i] != '-'
    requires |rest| == 0 || (!JsText.IsDigit(rest[0]) && rest[0] != '.')
    ensures Match(pre + TokenText(t) + rest) == Some(t)
  {
    var c := pre + TokenText(t) + rest;
    var p := |pre|;
    SpellsMiddle(pre, TokenText(t), rest);
    assert EndsAt(c, p + |TokenText(t)|, t) by {
      if p + |TokenText(t)| < |c| {
        assert c[p + |TokenText(t)|] == rest[0];
      }
    }
    forall q | 0 <= q < p ensures !StartsNumber(c, q) {
      assert c[q] == pre[q];
    }
    MatchAt(c, p, t);
  }

  /** A token spelled where the first match can begin, and not extended after it, is the match. */
  lemma MatchAt(c: string, p: nat, t: Token)
    requires WellFormed(t) && Spells(c, p, TokenText(t)) && EndsAt(c, p + |TokenText(t)|, t)
    requires forall q :: 0 <= q < p ==> !StartsNumber(c, q)
    ensures Match(c) == Some(t)
  {
    ReadRendered(c, p, t);
    assert FirstStart(c, 0) == Some(p);
  }

  /** Text put between two others is spelled where the first one ends. */
  lemma SpellsMiddle(pre: string, w: string, rest: string)
    ensures Spells(pre + w + rest, |pre|, w)
  {
    var c := pre + w + rest;
    forall i | 0 <= i < |w| ensures c[|pre| + i] == w[i] {
      assert (pre + w)[|pre| + i] == w[i];
    }
  }

  /** The text of a token, alone, is matched as that token. */
  lemma MatchText(t: Token)
    requires WellFormed(t)
    ensures Match(TokenText(t)) == Some(t)
  {
    var c := TokenText(t);
    SpellsSlice(c, 0, c);
    assert c[0..|c|] == c;
    MatchAt(c, 0, t);
  }

  /** A value that is exactly a number's text reads as that number. */
  lemma ReadingOf(t: Token)
    requires WellFormed(t)
    ensures Reading(TokenText(t)) == Some(Value(t))
  {
    CleanToken(t);
    MatchText(t);
  }

  lemma {:induction false} CleanConcat(a: string, b: string)
    ensures Clean(a + b) == Clean(a) + Clean(b)
  {
    assert forall i :: 0 <= i < |a + b| ==> Clean(a + b)[i] == (Clean(a) + Clean(b))[i];
  }

  /** Cleaning leaves the text of a token as it is. */
  lemma CleanToken(t: Token)
    requires WellFormed(t)
    ensures Clean(TokenText(t)) == TokenText(t)
  {
    var s := TokenText(t);
    forall i | 0 <= i < |s| ensures JsText.IsDigit(s[i]) || s[i] == '.' || s[i] == '-' {
      var sign := if t.negative then "-" else "";
      var frac := if |t.fraction| > 0 then "." + t.fraction else "";
      assert s == sign + t.whole + frac;
      if i < |sign| {
      } else if i < |sign| + |t.whole| {
        assert s[i] == t.whole[i - |sign|];
      } else if i > |sign| + |t.whole| {
        assert s[i] == t.fraction[i - |sign| - |t.whole| - 1];
      }
    }
  }

  /**
   * A number in running text is read back exactly: before it no digit or
   * minus sign, after it nothing that continues it.
   */
  lemma ParseRendered(pre: string, t: Token, rest: string)
    requires WellFormed(t)
    requires forall i :: 0 <= i < |pre| ==> !JsText.IsDigit(pre[i]) && pre[i] != '-'
    requires |rest| == 0 || (!JsText.IsDigit(rest[0]) && rest[0] != '.' && rest[0] != ',')
    ensures ParseFirstNumber(pre + TokenText(t) + rest) == Some(t)
  {
    CleanConcat(pre + TokenText(t), rest);
    CleanConcat(pre, TokenText(t));
    CleanToken(t);
    var cp := Clean(pre);
    var cr := Clean(rest);
    forall i | 0 <= i < |cp| ensures !JsText.IsDigit(cp[i]) && cp[i] != '-' {
    }
    if |rest| > 0 {
      assert !JsText.IsDigit(cr[0]) && cr[0] != '.';
    }
    assert |TokenText(t)| > 0;
    MatchRendered(cp, t, cr);
  }

  /** A decimal comma reads as a decimal point: "1,234" is one and 234 thousandths. */
  lemma DecimalComma(whole: string, fraction: string)
    requires |whole| > 0 && |fraction| > 0 && JsText.AllDigits(whole) && JsText.AllDigits(fraction)
    ensures ParseFirstNumber(whole + "," + fraction) == Some(Token(false, whole, fraction))
  {
    var t := Token(false, whole, fraction);
    CleanConcat(whole, "," + fraction);
    CleanConcat(",", fraction);
    CleanToken(Token(false, whole, ""));
    CleanToken(Token(false, fraction, ""));
    assert Clean(",") == ".";
    assert Clean(whole + "," + fraction) == TokenText(t);
    MatchText(t);
  }

  /** A blood-pressure reading gives its first number: "120/80 mmHg" reads as 120. */
  lemma ParseBloodPressure()
    ensures ParseFirstNumber("120/80 mmHg") == Some(Token(false, "120", ""))
  {
    assert "120/80 mmHg" == "" + TokenText(Token(false, "120", "")) + "/80 mmHg";
    ParseRendered("", Token(false, "120", ""), "/80 mmHg");
  }

  /** The tokens of the examples have the values their text denotes. */
  lemma ExampleValues()
    ensures Value(Token(false, "120", "")) == 120.0
    ensures Value(Token(false, "1", "234")) == 1.234
  {
    DecimalExamples();
    assert JsText.DecimalValue("1") == 1;
    assert Pow10(3) == 1000;
  }

  lemma DecimalExamples()
    ensures JsText.DecimalValue("120") == 120 && JsText.DecimalValue("234") == 234
  {
    assert JsText.DecimalValue("12") == 12 by {
      assert "12"[..1] == "1";
    }
    assert JsText.DecimalValue("120") == 120 by {
      assert "120"[..2] == "12";
    }
    assert JsText.DecimalValue("23") == 23 by {
      assert "23"[..1] == "2";
    }
    assert JsText.DecimalValue("234") == 234 by {
      assert "234"[..2] == "23";
    }
  }

  /** Text without digits gives nothing: "N/A" reads as no number. */
  lemma ParseNotAvailable()
    ensures ParseFirstNumber("N/A").None?
  {
    var c := Clean("N/A");
    assert forall q :: 0 <= q < |c| ==> c[q] == ' ';
  }

  /** "1,234" reads as one and 234 thousandths. */
  lemma ParseCommaExample()
    ensures ParseFirstNumber("1,234") == Some(Token(false, "1", "234"))
  {
    assert "1,234" == "1" + "," + "234";
    DecimalComma("1", "234");
  }

  // ---------------------------------------------------------------- collecting values per lab

  /** The labs the route reports, in this order. */
  const Labs: seq<string> := ["HbA1c", "Hemoglobin", "Cholesterol"]

  /** `key.toLowerCase().includes(lab.toLowerCase())`. */
  predicate KeyMatches(key: string, lab: string) {
    JsText.Contains(JsText.Lower(key), JsText.Lower(lab))
  }

  /** The number `parseFirstNumber` reads from a lab value, if any. */
  function Reading(value: string): (r: Option<real>)
    ensures r.None? <==> ParseFirstNumber(value).None?
    ensures r.Some? ==> r.value == Value(ParseFirstNumber(value).value)
  {
    match ParseFirstNumber(value)
    case None => None
    case Some(t) => Some(Value(t))
  }

  /** A field feeds a lab when its key names the lab and a number can be read from its value. */
  predicate Feeds(f: LabField, lab: string, read: string -> Option<real>) {
    KeyMatches(f.key, lab) && read(f.value).Some?
  }

  /** The numbers a record's lab table adds to a lab, in key order. */
  function FieldValues(fields: seq<LabField>, lab: string, read: string -> Option<real>): (r: seq<real>)
    ensures |r| <= |fields|
    decreases |fields|
  {
    if |fields| == 0 then []
    else
      var f := fields[|fields| - 1];
      FieldValues(fields[..|fields| - 1], lab, read) + (if Feeds(f, lab, read) then [read(f.value).value] else [])
  }

  /** `doc.extractedData?.values || {}`. */
  function DocFields(p: Prescription): seq<LabField> {
    match EdValues(p)
    case None => []
    case Some(v) => v
  }

  function RecordValues(lab: string, read: string -> Option<real>): Prescription -> seq<real> {
    (p: Prescription) => FieldValues(DocFields(p), lab, read)
  }

  /** Everything pushed onto `stats[lab].values`: records in query order, keys in property order. */
  function LabValues(ps: seq<Prescription>, lab: string): seq<real> {
    FlatMap(ps, RecordValues(lab, Reading))
  }

  /** A lab receives one number for each field that feeds it. */
  lemma {:induction false} FieldValuesCount(fields: seq<LabField>, lab: string, read: string -> Option<real>)
    ensures |FieldValues(fields, lab, read)| == Count(fields, (f: LabField) => Feeds(f, lab, read))
    decreases |fields|
  {
    if |fields| > 0 {
      var pre := fields[..|fields| - 1];
      var f := fields[|fields| - 1];
      FieldValuesCount(pre, lab, read);
      assert fields == pre + [f];
      CountConcat(pre, [f], (f: LabField) => Feeds(f, lab, read));
      assert [f][..0] == [];
    }
  }

  /** Each value filed under a lab is the number of a field that feeds it, and every such number is filed. */
  lemma {:induction false} FieldValuesMembers(fields: seq<LabField>, lab: string, read: string -> Option<real>, x: real)
    ensures x in FieldValues(fields, lab, read)
        <==> exists i :: 0 <= i < |fields| && Feeds(fields[i], lab, read) && x == read(fields[i].value).value
    decreases |fields|
  {
    if |fields| > 0 {
      var pre := fields[..|fields| - 1];
      FieldValuesMembers(pre, lab, read, x);
      if exists i :: 0 <= i < |pre| && Feeds(pre[i], lab, read) && x == read(pre[i].value).value {
        var i :| 0 <= i < |pre| && Feeds(pre[i], lab, read) && x == read(pre[i].value).value;
        assert fields[i] == pre[i];
      }
      if exists i :: 0 <= i < |fields| && Feeds(fields[i], lab, read) && x == read(fields[i].value).value {
        var i :| 0 <= i < |fields| && Feeds(fields[i], lab, read) && x == read(fields[i].value).value;
        if i < |pre| {
          assert pre[i] == fields[i];
        }
      }
    }
  }

  /** The values of a combined query are those of each part, in order. */
  lemma LabValuesConcat(a: seq<Prescription>, b: seq<Prescription>, lab: string)
    ensures LabValues(a + b, lab) == LabValues(a, lab) + LabValues(b, lab)
  {
    FlatMapConcat(a, b, RecordValues(lab, Reading));
  }

  /** The value "7" reads as 7. */
  lemma ReadingSeven()
    ensures Reading("7") == Some(7.0)
  {
    SevenToken();
    ReadingOf(Token(false, "7", ""));
  }

  lemma SevenToken()
    ensures var t := Token(false, "7", ""); WellFormed(t) && TokenText(t) == "7" && Value(t) == 7.0
  {
    var t := Token(false, "7", "");
    assert TokenText(t) == "7";
    assert JsText.DecimalValue("7") == 7;
  }

  lemma SharedKeyMatches()
    ensures KeyMatches("HbA1c/Hemoglobin", "HbA1c") && KeyMatches("HbA1c/Hemoglobin", "Hemoglobin")
  {
    SharedKeyLower();
    assert JsText.Lower("HbA1c") == "hba1c";
    JsText.ContainsAt("hba1c/hemoglobin", "hba1c", 0);
    assert JsText.Lower("Hemoglobin") == "hemoglobin";
    JsText.ContainsAt("hba1c/hemoglobin", "hemoglobin", 6);
  }

  lemma SharedKeyLower()
    ensures JsText.Lower("HbA1c/Hemoglobin") == "hba1c/hemoglobin"
  {
  }

  /** A single record adds the numbers of its own fields. */
  lemma {:induction false} OneRecord(p: Prescription, lab: string)
    ensures LabValues([p], lab) == FieldValues(DocFields(p), lab, Reading)
  {
    assert [p][..0] == [];
    assert RecordValues(lab, Reading)(p) == FieldValues(DocFields(p), lab, Reading);
    assert FlatMap([p], RecordValues(lab, Reading)) == FlatMap([], RecordValues(lab, Reading)) + RecordValues(lab, Reading)(p);
  }

  /** A single field adds its number exactly when it feeds the lab. */
  lemma {:induction false} OneField(f: LabField, lab: string, read: string -> Option<real>)
    ensures FieldValues([f], lab, read) == if Feeds(f, lab, read) then [read(f.value).value] else []
  {
    assert [f][..0] == [];
  }

  /** One field whose key names two labs feeds both. */
  lemma SharedKey(id: string)
    ensures var field := LabField("HbA1c/Hemoglobin", "7");
            var p := BareRecord(id).(extracted := Some(NoExtraction().(values := Some([field]))));
            LabValues([p], "HbA1c") == [7.0] && LabValues([p], "Hemoglobin") == [7.0]
  {
    var field := LabField("HbA1c/Hemoglobin", "7");
    var p := BareRecord(id).(extracted := Some(NoExtraction().(values := Some([field]))));
    SharedKeyMatches();
    ReadingSeven();
    assert DocFields(p) == [field];
    OneRecord(p, "HbA1c");
    OneRecord(p, "Hemoglobin");
    OneField(field, "HbA1c", Reading);
    OneField(field, "Hemoglobin", Reading);
  }

  // ---------------------------------------------------------------- summaries

  function Sum(s: seq<real>): real
    decreases |s|
  {
    if |s| == 0 then 0.0 else Sum(s[..|s| - 1]) + s[|s| - 1]
  }

  /** `{ count, mean, samples }` for one lab. */
  datatype LabSummary = LabSummary(lab: string, count: nat, mean: Option<real>, samples: seq<real>)

  /** The mean over all values, not only the samples; the samples are the first hundred values. */
  function Summarize(lab: string, values: seq<real>): (r: LabSummary)
    ensures r.lab == lab && r.count == |values|
    ensures r.mean.None? <==> |values| == 0
    ensures r.mean.Some? ==> r.mean.value * |values| as real == Sum(values)
    ensures |r.samples| == if |values| < 100 then |values| else 100
    ensures forall i :: 0 <= i < |r.samples| ==> r.samples[i] == values[i]
  {
    var mean := if |values| == 0 then None else Some(Sum(values) / |values| as real);
    LabSummary(lab, |values|, mean, if |values| <= 100 then values else values[..100])
  }

  /** A sum of `n` values lies between `n` times their lower and upper bounds. */
  lemma {:induction false} SumBetween(s: seq<real>, lo: real, hi: real)
    requires forall i :: 0 <= i < |s| ==> lo <= s[i] <= hi
    ensures |s| as real * lo <= Sum(s) <= |s| as real * hi
    decreases |s|
  {
    if |s| > 0 {
      var pre := s[..|s| - 1];
      assert forall i :: 0 <= i < |pre| ==> pre[i] == s[i];
      SumBetween(pre, lo, hi);
      assert Sum(s) == Sum(pre) + s[|s| - 1];
      assert lo <= s[|s| - 1] <= hi;
      OneMore(|s|, lo);
      OneMore(|s|, hi);
    }
  }

  lemma OneMore(n: nat, x: real)
    requires n > 0
    ensures n as real * x == (n - 1) as real * x + x
  {
  }

  /** The mean lies within the range of the values it averages. */
  lemma MeanBetween(lab: string, values: seq<real>, lo: real, hi: real)
    requires |values| > 0
    requires forall i :: 0 <= i < |values| ==> lo <= values[i] <= hi
    ensures lo <= Summarize(lab, values).mean.value <= hi
  {
    SumBetween(values, lo, hi);
    var n := |values| as real;
    var m := Sum(values) / n;
    assert m * n == Sum(values);
    if m < lo {
      assert m * n < lo * n;
    }
    if m > hi {
      assert m * n > hi * n;
    }
  }

  /** The `labs` object: every configured lab, in order, summarising what was filed under it. */
  function LabsReport(ps: seq<Prescription>): (r: seq<LabSummary>)
    ensures |r| == |Labs|
    ensures forall i :: 0 <= i < |Labs| ==> r[i].lab == Labs[i] && r[i].count == |LabValues(ps, Labs[i])|
  {
    Map(Labs, (lab: string) => Summarize(lab, LabValues(ps, lab)))
  }

  /** What a summary records about its numbers: their count, their mean, and the first hundred as samples. */
  predicate Summarizes(e: LabSummary, lab: string, values: seq<real>) {
    && e.lab == lab && e.count == |values|
    && (e.mean.None? <==> |values| == 0)
    && (e.mean.Some? ==> e.mean.value * |values| as real == Sum(values))
    && |e.samples| == (if |values| < 100 then |values| else 100)
    && e.samples == values[..|e.samples|]
  }

  /** `Summarize` meets that description. */
  lemma SummarizeMeets(lab: string, values: seq<real>)
    ensures Summarizes(Summarize(lab, values), lab, values)
  {
    var r := Summarize(lab, values);
    assert forall k :: 0 <= k < |r.samples| ==> r.samples[k] == values[..|r.samples|][k];
  }

  /** Entry `i` of the report summarises exactly the numbers collected for `Labs[i]`. */
  lemma LabsReportEntry(ps: seq<Prescription>, i: nat)
    requires i < |Labs|
    ensures Summarizes(LabsReport(ps)[i], Labs[i], LabValues(ps, Labs[i]))
  {
    SummarizeMeets(Labs[i], LabValues(ps, Labs[i]));
  }

  /** Without records every lab is still reported, with no values and no mean. */
  lemma EmptyReport()
    ensures forall i :: 0 <= i < |Labs| ==> LabsReport([])[i] == LabSummary(Labs[i], 0, None, [])
  {
  }
}
