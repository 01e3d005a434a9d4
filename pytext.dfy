/**
 The few Python string and integer built-ins the menu controller relies on,
 restricted to ASCII text: `str.strip()`, `str.isdigit()`, `int(s)` for a
 string in base 10, and `str(n)` for a non-negative integer.
 */
module PyText {
  import opened Options

  /** `c.isspace()` on ASCII, the characters `str.strip()` removes: space,
      tab, line feed, vertical tab, form feed, carriage return and the four
      separators 0x1C through 0x1F. */
  predicate IsSpace(c: char) {
    c == ' ' || (9 <= c as int <= 13) || (28 <= c as int <= 31)
  }

  /** The C-locale whitespace that `int()` skips around a number: space and
      tab through carriage return, but not the separators 0x1C through 0x1F. */
  predicate IsIntSpace(c: char) {
    c == ' ' || (9 <= c as int <= 13)
  }

  /** Which whitespace a trim removes: that of `str.strip()` or that of `int()`. */
  datatype Blanks = StrBlanks | IntBlanks

  predicate IsBlank(b: Blanks, c: char) {
    if b == StrBlanks then IsSpace(c) else IsIntSpace(c)
  }

  predicate AllBlank(b: Blanks, s: string) {
    forall i :: 0 <= i < |s| ==> IsBlank(b, s[i])
  }

  /** Neither the first nor the last character is whitespace of kind b. */
  predicate IsTrimmed(b: Blanks, s: string) {
    s == [] || (!IsBlank(b, s[0]) && !IsBlank(b, s[|s| - 1]))
  }

  predicate AllSpace(s: string) {
    AllBlank(StrBlanks, s)
  }

  predicate IsStripped(s: string) {
    IsTrimmed(StrBlanks, s)
  }

  /** Drops the leading whitespace. */
  function TrimStart(b: Blanks, s: string): string
  {
    if |s| > 0 && IsBlank(b, s[0]) then TrimStart(b, s[1..]) else s
  }

  /** Drops the trailing whitespace. */
  function TrimEnd(b: Blanks, s: string): string
  {
    if |s| > 0 && IsBlank(b, s[|s| - 1]) then TrimEnd(b, s[..|s| - 1]) else s
  }

  /** TrimStart keeps the longest suffix that does not start with whitespace. */
  lemma {:induction false} TrimStartSpec(b: Blanks, s: string)
    ensures var r := TrimStart(b, s);
      && |r| <= |s| && r == s[|s| - |r|..]
      && AllBlank(b, s[..|s| - |r|])
      && (r == [] || !IsBlank(b, r[0]))
    decreases |s|
  {
    if |s| > 0 && IsBlank(b, s[0]) {
      var p := s[1..];
      TrimStartSpec(b, p);
      var r := TrimStart(b, s);
      assert r == TrimStart(b, p) && r == p[|p| - |r|..] && p[|p| - |r|..] == s[|s| - |r|..];
      forall i | 0 <= i < |s| - |r| ensures IsBlank(b, s[i]) {
        if i > 0 {
          assert s[i] == p[..|p| - |r|][i - 1];
        }
      }
    }
  }

  /** TrimEnd keeps the longest prefix that does not end with whitespace. */
  lemma {:induction false} TrimEndSpec(b: Blanks, s: string)
    ensures var r := TrimEnd(b, s);
      && |r| <= |s| && r == s[..|r|]
      && AllBlank(b, s[|r|..])
      && (r == [] || !IsBlank(b, r[|r| - 1]))
    decreases |s|
  {
    if |s| > 0 && IsBlank(b, s[|s| - 1]) {
      var p := s[..|s| - 1];
      TrimEndSpec(b, p);
      var r := TrimEnd(b, s);
      assert r == TrimEnd(b, p) && r == p[..|r|] && p[..|r|] == s[..|r|];
      forall i | |r| <= i < |s| ensures IsBlank(b, s[i]) {
        if i < |s| - 1 {
          assert s[i] == p[|r|..][i - |r|];
        }
      }
    }
  }

  /** Drops the whitespace of kind b at both ends. */
  function Trim(b: Blanks, s: string): (r: string)
    ensures IsTrimmed(b, r)
    ensures |r| <= |s|
  {
    TrimStartSpec(b, s);
    TrimEndSpec(b, TrimStart(b, s));
    TrimEnd(b, TrimStart(b, s))
  }

  /** `s.strip()`. */
  function Strip(s: string): (r: string)
    ensures IsStripped(r)
    ensures |r| <= |s|
  {
    Trim(StrBlanks, s)
  }

  lemma {:induction false} TrimStartOfPadded(b: Blanks, w: string, u: string)
    requires AllBlank(b, w)
    requires u == [] || !IsBlank(b, u[0])
    ensures TrimStart(b, w + u) == u
    decreases |w|
  {
    if w != [] {
      assert (w + u)[1..] == w[1..] + u;
      TrimStartOfPadded(b, w[1..], u);
    } else {
      assert w + u == u;
    }
  }

  lemma {:induction false} TrimEndOfPadded(b: Blanks, u: string, w: string)
    requires AllBlank(b, w)
    requires u == [] || !IsBlank(b, u[|u| - 1])
    ensures TrimEnd(b, u + w) == u
    decreases |w|
  {
    if w != [] {
      assert (u + w)[..|u + w| - 1] == u + w[..|w| - 1];
      TrimEndOfPadded(b, u, w[..|w| - 1]);
    } else {
      assert u + w == u;
    }
  }

  /** Trimming removes exactly the whitespace padding around a text that
      neither starts nor ends with whitespace. */
  lemma TrimPadded(b: Blanks, lead: string, t: string, trail: string)
    requires AllBlank(b, lead) && AllBlank(b, trail) && IsTrimmed(b, t)
    ensures Trim(b, lead + t + trail) == t
  {
    if t == [] {
      assert lead + t + trail == lead + trail;
      TrimStartOfPadded(b, lead + trail, []);
      assert lead + trail + [] == lead + trail;
    } else {
      assert lead + t + trail == lead + (t + trail);
      TrimStartOfPadded(b, lead, t + trail);
      TrimEndOfPadded(b, t, trail);
    }
  }

  /** A trimmed text is a fixed point of Trim. */
  lemma TrimTrimmed(b: Blanks, t: string)
    requires IsTrimmed(b, t)
    ensures Trim(b, t) == t
  {
    TrimPadded(b, [], t, []);
    assert [] + t + [] == t;
  }

  /** `strip` removes exactly the whitespace padding around a stripped text. */
  lemma StripPadded(lead: string, t: string, trail: string)
    requires AllSpace(lead) && AllSpace(trail) && IsStripped(t)
    ensures Strip(lead + t + trail) == t
  {
    TrimPadded(StrBlanks, lead, t, trail);
  }

  /** A stripped text is a fixed point of `strip`, so `strip` is idempotent. */
  lemma StripStripped(t: string)
    requires IsStripped(t)
    ensures Strip(t) == t
  {
    TrimTrimmed(StrBlanks, t);
  }

  predicate IsDigitChar(c: char) {
    '0' <= c <= '9'
  }

  predicate AllDigits(s: string) {
    forall i :: 0 <= i < |s| ==> IsDigitChar(s[i])
  }

  /** `s.isdigit()` on ASCII: non-empty and made only of decimal digits. */
  predicate IsDigits(s: string) {
    |s| > 0 && AllDigits(s)
  }

  /** A digit string as `str(n)` writes it: no leading zero except "0" itself. */
  predicate IsCanonical(s: string) {
    IsDigits(s) && (s[0] == '0' ==> |s| == 1)
  }

  function DigitValue(c: char): (d: nat)
    requires IsDigitChar(c)
    ensures d < 10
  {
    c as int - '0' as int
  }

  function DigitChar(d: nat): (c: char)
    requires d < 10
    ensures IsDigitChar(c) && DigitValue(c) == d
  {
    ('0' as int + d) as char
  }

  /** The value of a string of decimal digits, leading zeros allowed. */
  function Decimal(s: string): nat
    requires AllDigits(s)
    decreases |s|
  {
    if s == [] then 0 else 10 * Decimal(s[..|s| - 1]) + DigitValue(s[|s| - 1])
  }

  /** `str(n)` for a non-negative integer. */
  function Str(n: nat): (s: string)
    ensures IsCanonical(s)
    ensures s[0] == '0' <==> n == 0
  {
    if n < 10 then [DigitChar(n)] else Str(n / 10) + [DigitChar(n % 10)]
  }

  lemma {:induction false} DecimalOfStr(n: nat)
    ensures Decimal(Str(n)) == n
  {
    if n >= 10 {
      var p := Str(n / 10);
      assert (p + [DigitChar(n % 10)])[..|p|] == p;
      DecimalOfStr(n / 10);
    }
  }

  lemma {:induction false} DecimalPositive(s: string)
    requires IsDigits(s) && s[0] != '0'
    ensures Decimal(s) > 0
    decreases |s|
  {
    if |s| > 1 {
      DecimalPositive(s[..|s| - 1]);
    }
  }

  /** Every canonical digit string is `str` of its value. */
  lemma {:induction false} StrOfDecimal(s: string)
    requires IsCanonical(s)
    ensures Str(Decimal(s)) == s
    decreases |s|
  {
    if |s| == 1 {
      assert Str(Decimal(s)) == [s[0]];
    } else {
      var p := s[..|s| - 1];
      DecimalPositive(p);
      StrOfDecimal(p);
      assert s == p + [s[|s| - 1]];
    }
  }

  /** Python's grammar for the digits of a base-10 literal: a digit, then
      digits each optionally preceded by a single underscore. */
  predicate IsDigitGroups(b: string)
    decreases |b|
  {
    |b| > 0 && IsDigitChar(b[0]) && IsDigitTail(b[1..])
  }

  predicate IsDigitTail(r: string)
    decreases |r|
  {
    || r == []
    || (IsDigitChar(r[0]) && IsDigitTail(r[1..]))
    || (|r| > 1 && r[0] == '_' && IsDigitChar(r[1]) && IsDigitTail(r[2..]))
  }

  function RemoveUnderscores(b: string): string
  {
    if b == [] then []
    else (if b[0] == '_' then [] else [b[0]]) + RemoveUnderscores(b[1..])
  }

  /** Removing the underscores of digit groups leaves only digits. */
  lemma {:induction false} DigitTailDigits(r: string)
    requires IsDigitTail(r)
    ensures AllDigits(RemoveUnderscores(r))
    decreases |r|
  {
    if r != [] {
      if IsDigitChar(r[0]) && IsDigitTail(r[1..]) {
        DigitTailDigits(r[1..]);
      } else {
        DigitTailDigits(r[2..]);
        assert r[1..][1..] == r[2..];
      }
    }
  }

  /** A plain digit string is its own digit groups, with nothing removed. */
  lemma {:induction false} DigitsAreGroups(s: string)
    requires AllDigits(s)
    ensures IsDigitTail(s) && RemoveUnderscores(s) == s
    decreases |s|
  {
    if s != [] {
      DigitsAreGroups(s[1..]);
      assert [s[0]] + s[1..] == s;
    }
  }

  /** `int(s)` in base 10: surrounding C-locale whitespace, an optional
      sign, then digit groups; None stands for the ValueError raised
      otherwise. */
  function PyInt(s: string): Option<int>
  {
    var t := Trim(IntBlanks, s);
    var negative := |t| > 0 && t[0] == '-';
    var body := if |t| > 0 && (t[0] == '+' || t[0] == '-') then t[1..] else t;
    if IsDigitGroups(body) then
      DigitTailDigits(body[1..]);
      var r := RemoveUnderscores(body);
      assert r == [body[0]] + RemoveUnderscores(body[1..]);
      var v: int := Decimal(r);
      Some(if negative then -v else v)
    else
      None
  }

  /** On a string of digits, `int` agrees with the digit value that the
      exit-number computation uses. */
  lemma PyIntOfDigits(s: string)
    requires IsDigits(s)
    ensures PyInt(s) == Some(Decimal(s))
  {
    TrimTrimmed(IntBlanks, s);
    DigitsAreGroups(s);
    DigitsAreGroups(s[1..]);
  }

  /** `int` rejects empty and blank text, blank in the sense of `strip`:
      what `int` does not skip there is a separator, which is no digit. */
  lemma PyIntOfBlank(s: string)
    requires AllSpace(s)
    ensures PyInt(s) == None
  {
    var u := TrimStart(IntBlanks, s);
    TrimStartSpec(IntBlanks, s);
    TrimEndSpec(IntBlanks, u);
    var t := Trim(IntBlanks, s);
    if t != [] {
      assert t[0] == u[0] == s[|s| - |u|];
      assert IsSpace(t[0]) && !IsDigitChar(t[0]) && t[0] != '+' && t[0] != '-';
    }
  }

  /** `int` ignores the C-locale whitespace around the text it converts. */
  lemma PyIntOfPadded(lead: string, t: string, trail: string)
    requires AllBlank(IntBlanks, lead) && AllBlank(IntBlanks, trail) && IsTrimmed(IntBlanks, t)
    ensures PyInt(lead + t + trail) == PyInt(t)
  {
    TrimPadded(IntBlanks, lead, t, trail);
    TrimTrimmed(IntBlanks, t);
  }

  /** The separators 0x1C through 0x1F are whitespace to `strip` but not to
      `int`: a key "\x1c1" is chosen by typing "1", yet `int` rejects it. */
  lemma PyIntKeepsSeparators(c: char, s: string)
    requires 28 <= c as int <= 31 && IsDigits(s)
    ensures Strip([c] + s) == s
    ensures PyInt([c] + s) == None
  {
    StripPadded([c], s, []);
    assert [c] + s + [] == [c] + s;
    var t := [c] + s;
    TrimTrimmed(IntBlanks, t);
  }

  /** `int` reads a leading '-' as a negative sign and a leading '+' as no
      sign at all. */
  lemma PyIntOfSigned(s: string)
    requires IsDigits(s)
    ensures PyInt("-" + s) == Some(-(Decimal(s) as int))
    ensures PyInt("+" + s) == Some(Decimal(s))
  {
    PyIntOfDigits(s);
    TrimTrimmed(IntBlanks, "-" + s);
    TrimTrimmed(IntBlanks, "+" + s);
    assert ("-" + s)[1..] == s;
    assert ("+" + s)[1..] == s;
  }

  /** `int(str(n)) == n`. */
  lemma PyIntOfStr(n: nat)
    ensures PyInt(Str(n)) == Some(n)
  {
    PyIntOfDigits(Str(n));
    DecimalOfStr(n);
  }
}
