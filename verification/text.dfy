/** Character classes and small string functions with Python's meaning:
    decimal formatting (`str(int)`), integer parsing (`int(token)`), prefix,
    suffix and substring tests, ASCII lower-casing. */
module Text {
  import opened Wrappers

  predicate IsDigit(c: char) {
    '0' <= c <= '9'
  }

  /** The regex class `\w`, restricted to ASCII: letters, digits and '_'. */
  predicate IsWordChar(c: char) {
    IsDigit(c) || ('a' <= c <= 'z') || ('A' <= c <= 'Z') || c == '_'
  }

  /** The characters Python's `str.split()` (no separator) treats as whitespace. */
  predicate IsSpace(c: char) {
    var n := c as int;
    (9 <= n <= 13) || (28 <= n <= 32) || n == 0x85 || n == 0xA0 || n == 0x1680
    || (0x2000 <= n <= 0x200A) || n == 0x2028 || n == 0x2029 || n == 0x202F
    || n == 0x205F || n == 0x3000
  }

  predicate AllDigits(s: string) {
    forall i :: 0 <= i < |s| ==> IsDigit(s[i])
  }

  predicate NoSpace(s: string) {
    forall i :: 0 <= i < |s| ==> !IsSpace(s[i])
  }

  function DigitValue(c: char): nat
    requires IsDigit(c)
  {
    (c as int) - ('0' as int)
  }

  function DigitChar(d: nat): (c: char)
    requires d < 10
    ensures IsDigit(c) && DigitValue(c) == d
  {
    (('0' as int) + d) as char
  }

  /** The value of a string of decimal digits, most significant first. */
  function DigitsValue(s: string): nat
    requires AllDigits(s)
  {
    if |s| == 0 then 0 else DigitsValue(s[..|s| - 1]) * 10 + DigitValue(s[|s| - 1])
  }

  /** `str(n)` for a natural number: decimal digits without leading zeros. */
  function NatToString(n: nat): (s: string)
    ensures |s| > 0 && AllDigits(s)
    ensures |s| > 1 ==> s[0] != '0'
  {
    (if n < 10 then "" else NatToString(n / 10)) + [DigitChar(n % 10)]
  }

  /** `str(n)` for any integer: a '-' sign in front of the digits of a negative number. */
  function IntToString(n: int): string {
    if n < 0 then "-" + NatToString(-n) else NatToString(n)
  }

  lemma {:induction false} NatToStringRoundTrip(n: nat)
    ensures DigitsValue(NatToString(n)) == n
  {
    var s := NatToString(n);
    if n >= 10 {
      NatToStringRoundTrip(n / 10);
      assert s[..|s| - 1] == NatToString(n / 10);
    } else {
      assert s[..|s| - 1] == "";
    }
  }

  /** Decimal formatting is injective: two numbers with the same text are equal. */
  lemma NatToStringInjective(m: nat, n: nat)
    requires NatToString(m) == NatToString(n)
    ensures m == n
  {
    NatToStringRoundTrip(m);
    NatToStringRoundTrip(n);
  }

  /** The digit part `int()` accepts: ASCII digits, single underscores only between digits. */
  predicate ValidDigitGroup(s: string) {
    && |s| > 0 && IsDigit(s[0]) && IsDigit(s[|s| - 1])
    && (forall i :: 0 <= i < |s| ==> IsDigit(s[i]) || s[i] == '_')
    && (forall i :: 0 <= i < |s| - 1 ==> !(s[i] == '_' && s[i + 1] == '_'))
  }

  function StripUnderscores(s: string): (r: string)
    requires forall i :: 0 <= i < |s| ==> IsDigit(s[i]) || s[i] == '_'
    ensures AllDigits(r)
    ensures AllDigits(s) ==> r == s
  {
    if |s| == 0 then ""
    else (if s[0] == '_' then "" else [s[0]]) + StripUnderscores(s[1..])
  }

  /** The unsigned part of `int(token)`: None where Python raises ValueError. */
  function ParseUnsigned(body: string): Option<nat> {
    if ValidDigitGroup(body) then Some(DigitsValue(StripUnderscores(body))) else None
  }

  /** Python's `int(token)` for a token without surrounding whitespace:
      an optional sign, then the unsigned part. */
  function ParseInt(tok: string): Option<int> {
    if |tok| > 0 && (tok[0] == '-' || tok[0] == '+') then
      match ParseUnsigned(tok[1..])
      case None => None
      case Some(v) => Some(if tok[0] == '-' then -(v as int) else v as int)
    else
      match ParseUnsigned(tok)
      case None => None
      case Some(v) => Some(v)
  }

  lemma DigitsAreValidGroup(s: string)
    requires |s| > 0 && AllDigits(s)
    ensures ParseUnsigned(s) == Some(DigitsValue(s))
  {
    assert IsDigit(s[0]);
    assert ValidDigitGroup(s);
  }

  lemma DigitsNoSpace(s: string)
    requires AllDigits(s)
    ensures NoSpace(s)
  {
  }

  lemma NegativeDigits(d: string)
    requires |d| > 0 && AllDigits(d)
    ensures ParseInt("-" + d) == Some(-(DigitsValue(d) as int))
  {
    var t := "-" + d;
    assert t[0] == '-' && t[1..] == d;
    DigitsAreValidGroup(d);
    MinusSign(t, DigitsValue(d));
  }

  /** A leading '-' negates the value of the unsigned part. */
  lemma MinusSign(t: string, v: nat)
    requires |t| > 0 && t[0] == '-' && ParseUnsigned(t[1..]) == Some(v)
    ensures ParseInt(t) == Some(-(v as int))
  {
  }

  lemma NegativeDigitsNoSpace(d: string)
    requires AllDigits(d)
    ensures NoSpace("-" + d)
  {
    var t := "-" + d;
    forall i | 0 <= i < |t| ensures !IsSpace(t[i]) {
      if i > 0 { assert t[i] == d[i - 1]; }
    }
  }

  lemma NonNegativeDigits(d: string)
    requires |d| > 0 && AllDigits(d)
    ensures ParseInt(d) == Some(DigitsValue(d) as int)
  {
    assert IsDigit(d[0]);
    DigitsAreValidGroup(d);
  }

  /** The integer the label writer prints is read back unchanged. */
  lemma IntToStringRoundTrip(n: int)
    ensures ParseInt(IntToString(n)) == Some(n)
    ensures |IntToString(n)| > 0 && NoSpace(IntToString(n))
  {
    if n < 0 {
      NegativeTokenRoundTrip(n);
    } else {
      NaturalTokenRoundTrip(n);
    }
  }

  lemma NaturalTokenRoundTrip(n: int)
    requires n >= 0
    ensures ParseInt(IntToString(n)) == Some(n)
    ensures |IntToString(n)| > 0 && NoSpace(IntToString(n))
  {
    var d := NatToString(n);
    assert IntToString(n) == d;
    NatToStringRoundTrip(n);
    NonNegativeDigits(d);
    DigitsNoSpace(d);
  }

  lemma NegativeTokenRoundTrip(n: int)
    requires n < 0
    ensures ParseInt(IntToString(n)) == Some(n)
    ensures |IntToString(n)| > 0 && NoSpace(IntToString(n))
  {
    var d := NatToString(-n);
    assert IntToString(n) == "-" + d;
    assert DigitsValue(d) == -n by {
      NatToStringRoundTrip(-n);
    }
    assert ParseInt("-" + d) == Some(n) by {
      NegativeDigits(d);
    }
    assert NoSpace("-" + d) by {
      NegativeDigitsNoSpace(d);
    }
  }

  lemma ParseIntExamples()
    ensures ParseInt("1_000") == Some(1000)
    ensures ParseInt("+7") == Some(7)
    ensures ParseInt("1__0") == None
    ensures ParseInt("_1") == None
    ensures ParseInt("-") == None
    ensures ParseInt("12a") == None
  {
    UnderscoreGroups();
    SignedExamples();
    assert ParseInt("12a") == None by {
      assert !ValidDigitGroup("12a") by { assert "12a"[2] == 'a'; }
    }
  }

  /** Single underscores between digits are dropped; a doubled or a leading one is refused. */
  lemma UnderscoreGroups()
    ensures ParseInt("1_000") == Some(1000)
    ensures ParseInt("1__0") == None
    ensures ParseInt("_1") == None
  {
    ThousandsSeparator();
    assert ParseInt("1__0") == None by {
      assert !ValidDigitGroup("1__0") by { assert "1__0"[1] == '_' && "1__0"[2] == '_'; }
    }
    assert ParseInt("_1") == None by {
      assert !ValidDigitGroup("_1");
    }
  }

  lemma ThousandsSeparator()
    ensures ParseInt("1_000") == Some(1000)
  {
    assert ValidDigitGroup("1_000");
    StripThousands();
    ThousandValue();
  }

  lemma StripThousands()
    ensures StripUnderscores("1_000") == "1000"
  {
    var s := "1_000";
    assert s[1..] == "_000" && s[1..][1..] == "000";
    assert StripUnderscores("000") == "000";
  }

  lemma ThousandValue()
    ensures DigitsValue("1000") == 1000
  {
    assert "1000"[..3] == "100";
    assert "100"[..2] == "10";
    assert "10"[..1] == "1";
    assert "1"[..0] == "";
  }

  /** A leading '+' is accepted; a sign alone is refused. */
  lemma SignedExamples()
    ensures ParseInt("+7") == Some(7)
    ensures ParseInt("-") == None
  {
    assert ParseInt("+7") == Some(7) by {
      assert "+7"[1..] == "7";
      assert "7"[..0] == "";
      assert ValidDigitGroup("7");
    }
    assert ParseInt("-") == None by {
      assert "-"[1..] == "";
    }
  }

  predicate StartsWith(s: string, prefix: string) {
    |prefix| <= |s| && s[..|prefix|] == prefix
  }

  predicate EndsWith(s: string, suffix: string) {
    |suffix| <= |s| && s[|s| - |suffix|..] == suffix
  }

  predicate OccursAt(s: string, sub: string, i: int) {
    0 <= i && i + |sub| <= |s| && s[i..i + |sub|] == sub
  }

  /** Python's `sub in s`. */
  function Contains(s: string, sub: string): (r: bool)
    ensures r <==> exists i :: OccursAt(s, sub, i)
  {
    if StartsWith(s, sub) then
      assert OccursAt(s, sub, 0);
      true
    else if |s| == 0 then
      assert forall i :: !OccursAt(s, sub, i);
      false
    else
      var r := Contains(s[1..], sub);
      assert forall i :: OccursAt(s[1..], sub, i) <==> OccursAt(s, sub, i + 1) by {
        forall i ensures OccursAt(s[1..], sub, i) <==> OccursAt(s, sub, i + 1) {
          if 0 <= i && i + |sub| <= |s| - 1 {
            assert s[1..][i..i + |sub|] == s[i + 1..i + 1 + |sub|];
          }
        }
      }
      assert forall i :: OccursAt(s, sub, i) ==> i == 0 || OccursAt(s[1..], sub, i - 1);
      r
  }

  function LowerChar(c: char): char {
    if 'A' <= c <= 'Z' then (c as int + 32) as char else c
  }

  /** `str.lower()` restricted to ASCII letters. */
  function Lower(s: string): (r: string)
    ensures |r| == |s|
    ensures forall i :: 0 <= i < |s| ==> r[i] == LowerChar(s[i])
  {
    seq(|s|, i requires 0 <= i < |s| => LowerChar(s[i]))
  }
}
