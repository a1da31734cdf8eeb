/**
 * String literals of picojson: escapes, UTF-16 escapes and their UTF-8 encoding.
 * The functions say what the parser makes of the text in front of it; the lemmas tie
 * them to RFC 8259 (section 7) and RFC 3629 (section 3).
 */
module JsonStrings {
  import opened Outcomes
  import opened HexDigits
  import opened JsonGrammar

  function HexValue(c: char): int {
    if '0' <= c <= '9' then c as int - '0' as int
    else if 'A' <= c <= 'F' then c as int - ('A' as int - 0xa)
    else if 'a' <= c <= 'f' then c as int - ('a' as int - 0xa)
    else -1
  }

  /** _parse_quadhex with `digits` digits still to come. */
  function QuadHex(s: string, digits: nat, acc: nat): (o: Outcome<nat>)
    decreases |s|
    ensures |o.rest| <= |s| && !o.Threw?
    ensures o.Ok? ==> |o.rest| + digits == |s|
  {
    if digits == 0 then Ok(acc, s)
    else if s == "" || HexValue(s[0]) < 0 then Bad(s)
    else QuadHex(s[1..], digits - 1, acc * 16 + HexValue(s[0]))
  }

  /** The bytes pushed for a code point: shifts and masks written as division and remainder. */
  function Utf8(u: nat): (bs: string)
    requires u <= MAX_SCALAR
    ensures 1 <= |bs| <= 4
  {
    if u < 0x80 then [u as char]
    else if u < 0x800 then
      [(0xc0 + u / 64) as char, (0x80 + u % 64) as char]
    else if u < 0x10000 then
      [(0xe0 + u / 4096) as char, (0x80 + u / 64 % 64) as char, (0x80 + u % 64) as char]
    else
      [(0xf0 + u / 262144) as char, (0x80 + u / 4096 % 64) as char,
       (0x80 + u / 64 % 64) as char, (0x80 + u % 64) as char]
  }

  /** _parse_codepoint: the bytes one \u escape appends; `s` follows the 'u'. */
  function CodePoint(s: string): (o: Outcome<string>)
    ensures |o.rest| <= |s| && !o.Threw?
    ensures o.Ok? ==> |o.val| + |o.rest| <= |s|
  {
    var first := QuadHex(s, 4, 0);
    if first.Bad? then Bad(first.rest)
    else
      assert first.val <= 0xffff by { QuadHexValue(s); }
      if 0xd800 <= first.val <= 0xdfff then
        var t := first.rest;
        if 0xdc00 <= first.val then Bad(t)
        else if t == "" || t[0] != '\\' then Bad(t)
        else if |t| == 1 || t[1] != 'u' then Bad(t[1..])
        else
          var second := QuadHex(t[2..], 4, 0);
          if second.Ok? && 0xdc00 <= second.val <= 0xdfff then
            Ok(Utf8((first.val - 0xd800) * 1024 + (second.val - 0xdc00) + 0x10000), second.rest)
          else Bad(second.rest)
      else Ok(Utf8(first.val), first.rest)
  }

  /** The byte a one-letter escape stands for. */
  function ShortEscape(c: char): Option<char> {
    match c
    case '"' => Some('"')
    case '\\' => Some('\\')
    case '/' => Some('/')
    case 'b' => Some(8 as char)
    case 'f' => Some(12 as char)
    case 'n' => Some('\n')
    case 'r' => Some('\r')
    case 't' => Some('\t')
    case _ => None
  }

  function Prepend(bs: string, o: Outcome<string>): (p: Outcome<string>)
    ensures p.rest == o.rest && p.Ok? == o.Ok? && p.Threw? == o.Threw?
    ensures o.Ok? ==> |p.val| == |bs| + |o.val|
  {
    match o
    case Ok(val, rest) => Ok(bs + val, rest)
    case Bad(rest) => Bad(rest)
    case Threw(rest) => Threw(rest)
  }

  /** The bytes appended by one escape; `s` follows the backslash. */
  function EscapeStep(s: string): (o: Outcome<string>)
    ensures |o.rest| <= |s| && !o.Threw?
    ensures o.Ok? ==> |o.val| + |o.rest| <= |s| && |o.rest| < |s|
  {
    if s == "" then Bad("")
    else if s[0] == 'u' then CodePoint(s[1..])
    else
      match ShortEscape(s[0])
      case Some(c) => Ok([c], s[1..])
      case None => Bad(s[1..])
  }

  /** _parse_string: the literal's contents; `s` follows the opening quote. */
  function StringBody(s: string): (o: Outcome<string>)
    decreases |s|
    ensures |o.rest| <= |s| && !o.Threw?
    ensures o.Ok? ==> |o.rest| < |s|
  {
    if s == "" || s[0] < ' ' then Bad(s)
    else if s[0] == '"' then Ok("", s[1..])
    else if s[0] == '\\' then
      var step := EscapeStep(s[1..]);
      if step.Ok? then Prepend(step.val, StringBody(step.rest)) else step
    else Prepend([s[0]], StringBody(s[1..]))
  }

  /** A decoded string is never longer than the bytes it took. */
  lemma {:induction false} DecodedNotLonger(s: string)
    ensures StringBody(s).Ok? ==> |StringBody(s).val| + |StringBody(s).rest| < |s|
    decreases |s|
  {
    if s != "" && s[0] >= ' ' && s[0] != '"' {
      if s[0] == '\\' {
        var step := EscapeStep(s[1..]);
        if step.Ok? {
          DecodedNotLonger(step.rest);
        }
      } else {
        DecodedNotLonger(s[1..]);
      }
    }
  }

  // The standards

  /** A digit has the value of its place in the table of its case. */
  lemma {:induction false} HexValueIs(c: char, n: nat)
    ensures HexValue(c) == n <==> IsHexDigitOf(c, n)
  {
    assert LOWER == ['0', '1', '2', '3', '4', '5', '6', '7', '8', '9', 'a', 'b', 'c', 'd', 'e', 'f'];
    assert UPPER == ['0', '1', '2', '3', '4', '5', '6', '7', '8', '9', 'A', 'B', 'C', 'D', 'E', 'F'];
  }

  ghost predicate IsHex4(s: string) {
    |s| >= 4 && HexValue(s[0]) >= 0 && HexValue(s[1]) >= 0 && HexValue(s[2]) >= 0 && HexValue(s[3]) >= 0
  }

  ghost function Hex4(s: string): (u: int)
    requires IsHex4(s)
    ensures 0 <= u <= 0xffff
  {
    4096 * HexValue(s[0]) + 256 * HexValue(s[1]) + 16 * HexValue(s[2]) + HexValue(s[3])
  }

  /** Section 7 of RFC 8259: the scalar value an escape denotes and the characters it takes after "\u". */
  ghost function EscapedScalar(s: string): Option<(nat, nat)> {
    if !IsHex4(s) then None
    else
      var u := Hex4(s);
      if !(0xd800 <= u <= 0xdfff) then Some((u, 4))
      else if u <= 0xdbff && |s| >= 10 && s[4] == '\\' && s[5] == 'u' && IsHex4(s[6..]) && 0xdc00 <= Hex4(s[6..]) <= 0xdfff then
        Some((0x10000 + (u - 0xd800) * 0x400 + (Hex4(s[6..]) - 0xdc00), 10))
      else None
  }

  ghost function DropHex(s: string): string {
    if s == "" then s else s[1..]
  }

  /** The four-digit loop reads exactly the four-digit numerals. */
  lemma {:induction false} QuadHexValue(s: string)
    ensures QuadHex(s, 4, 0).Ok? <==> IsHex4(s)
    ensures IsHex4(s) ==> QuadHex(s, 4, 0) == Ok(Hex4(s), s[4..])
  {
    var a, b, c, d := DropHex(s), DropHex(DropHex(s)), DropHex(DropHex(DropHex(s))), QuadHex(s, 4, 0);
    if |s| >= 4 && HexValue(s[0]) >= 0 && HexValue(s[1]) >= 0 {
      assert a == s[1..] && b == s[2..] && c == s[3..];
      var u := HexValue(s[0]) * 16 + HexValue(s[1]);
      assert QuadHex(a, 3, HexValue(s[0])) == d;
      assert QuadHex(b, 2, u) == d;
      if HexValue(s[2]) >= 0 {
        assert QuadHex(c, 1, u * 16 + HexValue(s[2])) == d;
        if HexValue(s[3]) >= 0 {
          assert c[1..] == s[4..];
          assert QuadHex(s[4..], 0, Hex4(s)) == d;
        }
      }
    } else if |s| >= 1 && HexValue(s[0]) >= 0 {
      assert QuadHex(a, 3, HexValue(s[0])) == d;
      if |s| >= 2 && HexValue(s[1]) >= 0 {
        assert QuadHex(b, 2, HexValue(s[0]) * 16 + HexValue(s[1])) == d;
      }
    }
  }

  lemma {:induction false} DigitsRead(h: string, a: int, b: int, c: int, d: int)
    requires HasDigits(h, a, b, c, d)
    ensures HexValue(h[0]) == a && HexValue(h[1]) == b && HexValue(h[2]) == c && HexValue(h[3]) == d
  {
    HexValueIs(h[0], a);
    HexValueIs(h[1], b);
    HexValueIs(h[2], c);
    HexValueIs(h[3], d);
  }

  lemma {:induction false} UnitRead(h: string, u: int)
    requires IsUnit(h, u)
    ensures IsHex4(h) && Hex4(h) == u
  {
    var a, b, c, d :| HasDigits(h, a, b, c, d) && u == 0x1000 * a + 0x100 * b + 0x10 * c + d;
    DigitsRead(h, a, b, c, d);
  }

  lemma {:induction false} UnitWritten(h: string)
    requires |h| == 4 && IsHex4(h)
    ensures IsUnit(h, Hex4(h))
  {
    var a, b, c, d := HexValue(h[0]), HexValue(h[1]), HexValue(h[2]), HexValue(h[3]);
    HexValueIs(h[0], a);
    HexValueIs(h[1], b);
    HexValueIs(h[2], c);
    HexValueIs(h[3], d);
    assert HasDigits(h, a, b, c, d) && Hex4(h) == 0x1000 * a + 0x100 * b + 0x10 * c + d;
  }

  /** Four characters are such a numeral if and only if they are digits of either case, with the value of their places. */
  lemma {:induction false} UnitIs(s: string, u: int)
    requires |s| >= 4
    ensures IsHex4(s) && Hex4(s) == u <==> IsUnit(s[..4], u)
  {
    var h := s[..4];
    assert h[0] == s[0] && h[1] == s[1] && h[2] == s[2] && h[3] == s[3];
    if IsHex4(s) {
      UnitWritten(h);
    }
    if IsUnit(h, u) {
      UnitRead(h, u);
    }
  }

  lemma {:induction false} Utf8Correct(u: nat)
    requires u <= MAX_SCALAR && !(0xd800 <= u <= 0xdfff)
    ensures IsUtf8Of(Utf8(u), u)
  {
    assert u / 64 / 64 == u / 4096;
    assert u / 4096 / 64 == u / 262144;
  }

  /** The second half of a surrogate pair. */
  lemma {:induction false} SurrogatePairDecodes(s: string)
    requires IsHex4(s) && 0xd800 <= Hex4(s) <= 0xdbff
    ensures CodePoint(s).Ok? <==> EscapedScalar(s).Some?
    ensures EscapedScalar(s).Some? ==>
              var (u, n) := EscapedScalar(s).value;
              IsUtf8Of(CodePoint(s).val, u) && CodePoint(s).rest == s[n..]
  {
    QuadHexValue(s);
    var u, t := Hex4(s), s[4..];
    if |t| >= 2 && t[0] == '\\' && t[1] == 'u' {
      var h := t[2..];
      assert h == s[6..];
      QuadHexValue(h);
      if IsHex4(h) && 0xdc00 <= Hex4(h) <= 0xdfff {
        assert h[4..] == s[10..];
        Utf8Correct(0x10000 + (u - 0xd800) * 0x400 + (Hex4(h) - 0xdc00));
      }
    }
  }

  /**
   * A \u escape is accepted exactly when section 7 of RFC 8259 gives it a scalar value, so lone
   * surrogates are refused, and what it appends is the UTF-8 encoding of that value.
   */
  lemma {:induction false} CodePointDecodes(s: string)
    ensures CodePoint(s).Ok? <==> EscapedScalar(s).Some?
    ensures EscapedScalar(s).Some? ==>
              var (u, n) := EscapedScalar(s).value;
              IsUtf8Of(CodePoint(s).val, u) && CodePoint(s).rest == s[n..]
  {
    QuadHexValue(s);
    if IsHex4(s) {
      var u := Hex4(s);
      if 0xd800 <= u <= 0xdbff {
        SurrogatePairDecodes(s);
      } else if !(0xdc00 <= u <= 0xdfff) {
        Utf8Correct(u);
      }
    }
  }

  // Printing

  /** serialize_str_char for one byte. */
  function EscapeChar(c: char): string {
    match c
    case '"' => "\\\""
    case '\\' => "\\\\"
    case '/' => "\\/"
    case '\n' => "\\n"
    case '\r' => "\\r"
    case '\t' => "\\t"
    case _ =>
      if c == 8 as char then "\\b"
      else if c == 12 as char then "\\f"
      else if c < ' ' || c == 0x7f as char then
        "\\" + ("u00" + [LOWER[c as int / 16], LOWER[c as int % 16]])
      else [c]
  }

  function Escape(s: string): string {
    if s == "" then "" else EscapeChar(s[0]) + Escape(s[1..])
  }

  function Quote(s: string): string {
    "\"" + Escape(s) + "\""
  }
}
