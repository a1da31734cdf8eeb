/** Numbers of picojson built with PICOJSON_USE_INT64: what the parser collects, the integers it keeps and prints. */
module JsonNumbers {
  import opened Outcomes

  const INT64_MIN := -0x8000_0000_0000_0000
  const INT64_MAX := 0x7FFF_FFFF_FFFF_FFFF

  type int64 = i: int | INT64_MIN <= i <= INT64_MAX

  /** A double as its 64 bits (IEEE 754 binary64). */
  type bits64 = b: int | 0 <= b < 0x1_0000_0000_0000_0000

  predicate IsFinite(d: bits64) {
    d / 0x10_0000_0000_0000 % 0x800 != 0x7ff
  }

  /**
   * The C library calls the codec makes: the locale's decimal point, strtod (None when it does not
   * use up the text it is given) and the printing of a double.
   */
  datatype Platform = Platform(decimalPoint: string, strtod: string -> Option<bits64>, printDouble: bits64 -> string)

  predicate IsDigit(c: char) {
    '0' <= c <= '9'
  }

  predicate IsNumberChar(c: char) {
    IsDigit(c) || c == '+' || c == '-' || c == 'e' || c == 'E' || c == '.'
  }

  /** _parse_number: the text collected, with '.' replaced by the decimal point, and what follows it. */
  function NumberRun(decimalPoint: string, s: string): (r: (string, string))
    ensures |r.1| <= |s|
    ensures s != "" && IsNumberChar(s[0]) ==> |r.1| < |s|
  {
    if s == "" || !IsNumberChar(s[0]) then ("", s)
    else
      var more := NumberRun(decimalPoint, s[1..]);
      ((if s[0] == '.' then decimalPoint else [s[0]]) + more.0, more.1)
  }

  predicate AllDigits(s: string) {
    forall c <- s :: IsDigit(c)
  }

  function Numeral(s: string): (n: int)
    requires AllDigits(s)
    ensures n >= 0
  {
    if s == "" then 0
    else
      var front, last := s[..|s| - 1], s[|s| - 1];
      assert last in s;
      Numeral(front) * 10 + (last as int - '0' as int)
  }

  /** strtoimax in base 10: the integer, if the whole text is a signed numeral in range. */
  function StrToIMax(s: string): Option<int64> {
    var body := if s != "" && (s[0] == '-' || s[0] == '+') then s[1..] else s;
    if body == "" || !AllDigits(body) then None
    else
      var v: int := if s[0] == '-' then -Numeral(body) else Numeral(body);
      if INT64_MIN <= v <= INT64_MAX then Some(v) else None
  }

  function Digits(n: nat): (s: string)
    ensures s != "" && AllDigits(s) && Numeral(s) == n
  {
    if n < 10 then
      [(n + '0' as int) as char]
    else
      var last := (n % 10 + '0' as int) as char;
      var s := Digits(n / 10) + [last];
      assert s[..|s| - 1] == Digits(n / 10);
      s
  }

  /** What "%lld" prints. */
  function Decimal(i: int64): string {
    var n: int := i;
    if n < 0 then "-" + Digits(-n) else Digits(n)
  }

  /** No zero in front: the printed numeral is the shortest. */
  lemma {:induction false} NoLeadingZero(n: nat)
    ensures |Digits(n)| > 1 ==> Digits(n)[0] != '0'
  {
    if n >= 10 {
      NoLeadingZero(n / 10);
      assert Digits(n)[0] == Digits(n / 10)[0];
    }
  }

  lemma {:induction false} SignedNumeral(s: string, i: int64)
    requires s != "" && AllDigits(s) && Numeral(s) == i
    ensures StrToIMax(s) == Some(i)
  {
    assert s[0] in s;
  }

  lemma {:induction false} NegatedNumeral(s: string, i: int64)
    requires s != "" && AllDigits(s) && -Numeral(s) == i
    ensures StrToIMax("-" + s) == Some(i)
  {
    assert ("-" + s)[1..] == s;
  }

  /** Every int64, both extremes included, is read back from its decimal text. */
  lemma {:induction false} DecimalRead(i: int64)
    ensures StrToIMax(Decimal(i)) == Some(i)
    ensures Decimal(i) != "" && (IsDigit(Decimal(i)[0]) || Decimal(i)[0] == '-')
    ensures forall c <- Decimal(i) :: IsDigit(c) || c == '-'
  {
    var n: int := i;
    if n < 0 {
      NegatedNumeral(Digits(-n), i);
    } else {
      SignedNumeral(Digits(n), i);
      assert Digits(n)[0] in Digits(n);
    }
  }

  /** Number characters as the parser collects them: the locale's decimal point for each '.'. */
  function Localized(dp: string, t: string): string {
    if t == "" then "" else (if t[0] == '.' then dp else [t[0]]) + Localized(dp, t[1..])
  }

  /** Number characters are all collected, whatever follows; what is unread is what is unread of that. */
  lemma {:induction false} NumberRunOf(dp: string, t: string, r: string)
    requires forall c <- t :: IsNumberChar(c)
    ensures NumberRun(dp, t + r) == (Localized(dp, t) + NumberRun(dp, r).0, NumberRun(dp, r).1)
  {
    if t == "" {
      assert t + r == r && "" + NumberRun(dp, r).0 == NumberRun(dp, r).0;
    } else {
      assert t[0] in t;
      assert (t + r)[1..] == t[1..] + r;
      NumberRunOf(dp, t[1..], r);
      var first := if t[0] == '.' then dp else [t[0]];
      assert NumberRun(dp, t + r).0 == first + (Localized(dp, t[1..]) + NumberRun(dp, r).0);
      assert first + (Localized(dp, t[1..]) + NumberRun(dp, r).0) == first + Localized(dp, t[1..]) + NumberRun(dp, r).0;
    }
  }

  lemma {:induction false} WithoutPoint(dp: string, t: string)
    requires '.' !in t
    ensures Localized(dp, t) == t
  {
    if t != "" {
      WithoutPoint(dp, t[1..]);
      assert t[0] in t && [t[0]] + t[1..] == t;
    }
  }
}
