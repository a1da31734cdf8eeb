/** String literals: what is accepted is what the grammar says, and what is printed is of the grammar. */
module JsonLiterals {
  import opened Outcomes
  import opened HexDigits
  import opened JsonGrammar
  import opened JsonStrings

  lemma SextetsUnique(x: int, y: int, v: int, w: int)
    requires 64 * x + y == 64 * v + w && 0 <= y < 64 && 0 <= w < 64
    ensures x == v && y == w
  {
  }

  /** A scalar value has one encoding. */
  lemma {:induction false} Utf8Unique(a: string, b: string, u: int)
    requires IsUtf8Of(a, u) && IsUtf8Of(b, u)
    ensures a == b
  {
    assert |a| == |b|;
    if |a| == 2 {
      SextetsUnique(a[0] as int, a[1] as int - 0x80, b[0] as int, b[1] as int - 0x80);
    } else if |a| == 3 {
      var v, w := 64 * a[0] as int + a[1] as int - 0x80, 64 * b[0] as int + b[1] as int - 0x80;
      SextetsUnique(v, a[2] as int - 0x80, w, b[2] as int - 0x80);
      SextetsUnique(a[0] as int, a[1] as int - 0x80, b[0] as int, b[1] as int - 0x80);
    } else if |a| == 4 {
      var v, w := 64 * a[0] as int + a[1] as int - 0x80, 64 * b[0] as int + b[1] as int - 0x80;
      SextetsUnique(64 * v + a[2] as int - 0x80, a[3] as int - 0x80, 64 * w + b[2] as int - 0x80, b[3] as int - 0x80);
      SextetsUnique(v, a[2] as int - 0x80, w, b[2] as int - 0x80);
      SextetsUnique(a[0] as int, a[1] as int - 0x80, b[0] as int, b[1] as int - 0x80);
    }
  }

  lemma PrependAfter(bs: string, s: string, rest: string)
    requires s != "" && s[0] == '\\' && EscapeStep(s[1..]) == Ok(bs, rest)
    ensures StringBody(s) == Prepend(bs, StringBody(rest))
  {
  }

  // Reading what the grammar writes

  lemma {:induction false} UnitReads(hex: string, u: int, bs: string, t: string)
    requires IsUnit(hex, u) && IsUtf8Of(bs, u)
    ensures CodePoint(hex + t) == Ok(bs, t)
  {
    var s := hex + t;
    assert s[..4] == hex && s[4..] == t;
    UnitIs(s, u);
    QuadHexValue(s);
    Utf8Correct(u);
    Utf8Unique(bs, Utf8(u), u);
  }

  lemma {:induction false} UnitRest(hex: string, u: int, t: string)
    requires IsUnit(hex, u)
    ensures QuadHex(hex + t, 4, 0) == Ok(u, t)
  {
    var s := hex + t;
    assert s[..4] == hex && s[4..] == t;
    UnitIs(s, u);
    QuadHexValue(s);
  }

  lemma BackslashU(v: string)
    ensures var m := "\\" + ("u" + v); |m| > 1 && m[0] == '\\' && m[1] == 'u' && m[2..] == v
  {
  }

  lemma SurrogatesRead(s: string, h: int, m: string, l: int, t: string)
    requires QuadHex(s, 4, 0) == Ok(h, m) && 0xd800 <= h <= 0xdbff
    requires |m| > 1 && m[0] == '\\' && m[1] == 'u' && QuadHex(m[2..], 4, 0) == Ok(l, t) && 0xdc00 <= l <= 0xdfff
    ensures CodePoint(s) == Ok(Utf8((h - 0xd800) * 1024 + (l - 0xdc00) + 0x10000), t)
  {
  }

  lemma {:induction false} PairReads(high: string, low: string, u: int, bs: string, t: string)
    requires IsPair(high, low, u) && IsUtf8Of(bs, u)
    ensures CodePoint(high + ("\\" + ("u" + (low + t)))) == Ok(bs, t)
  {
    var h, l :| AreSurrogates(high, low, h, l) && u == 0x10000 + (h - 0xd800) * 0x400 + (l - 0xdc00);
    var m := "\\" + ("u" + (low + t));
    BackslashU(low + t);
    UnitRest(high, h, m);
    UnitRest(low, l, t);
    SurrogatesRead(high + m, h, m, l, t);
    Utf8Correct(u);
    Utf8Unique(bs, Utf8(u), u);
  }

  lemma {:induction false} PieceReads(p: Piece, bs: string, t: string)
    requires PieceMeans(p, bs)
    ensures StringBody(PieceThen(p, t)) == Prepend(bs, StringBody(t))
  {
    var s := PieceThen(p, t);
    match p
    case Plain(c) => assert s[1..] == t;
    case Short(letter) =>
      assert s[1..] == [letter] + t && s[1..][1..] == t;
      PrependAfter(bs, s, t);
    case Unit(hex) =>
      var u :| IsUnit(hex, u) && IsUtf8Of(bs, u);
      assert s[1..] == "u" + (hex + t) && s[1..][1..] == hex + t;
      UnitReads(hex, u, bs, t);
      PrependAfter(bs, s, t);
    case Pair(high, low) =>
      var u :| IsPair(high, low, u) && IsUtf8Of(bs, u);
      var more := high + ("\\" + ("u" + (low + t)));
      assert s[1..] == "u" + more && s[1..][1..] == more;
      PairReads(high, low, u, bs, t);
      PrependAfter(bs, s, t);
  }

  lemma {:induction false} LiteralReads(ps: Pieces, s: string, r: string)
    requires PiecesMean(ps, s)
    ensures StringBody(PiecesThen(ps, "\"" + r)) == Ok(s, r)
  {
    match ps
    case End => assert ("\"" + r)[1..] == r;
    case More(p, rest) =>
      var bs, t :| PieceMeans(p, bs) && PiecesMean(rest, t) && s == bs + t;
      PieceReads(p, bs, PiecesThen(rest, "\"" + r));
      LiteralReads(rest, t, r);
  }

  // Finding the grammar in what was read

  lemma {:induction false} UnitFound(s: string) returns (hex: string, t: string)
    requires CodePoint(s).Ok? && QuadHex(s, 4, 0).Ok? && !(0xd800 <= QuadHex(s, 4, 0).val <= 0xdfff)
    ensures s == hex + t && PieceMeans(Unit(hex), CodePoint(s).val) && CodePoint(s).rest == t
  {
    hex, t := UnitTaken(s);
    Utf8Correct(QuadHex(s, 4, 0).val);
  }

  lemma {:induction false} UnitTaken(s: string) returns (hex: string, t: string)
    requires QuadHex(s, 4, 0).Ok?
    ensures var o := QuadHex(s, 4, 0); s == hex + t && IsUnit(hex, o.val) && t == o.rest
  {
    QuadHexValue(s);
    hex, t := s[..4], s[4..];
    UnitIs(s, Hex4(s));
  }

  lemma SurrogatesTaken(s: string)
    requires CodePoint(s).Ok? && QuadHex(s, 4, 0).Ok? && 0xd800 <= QuadHex(s, 4, 0).val <= 0xdfff
    ensures var h, m := QuadHex(s, 4, 0).val, QuadHex(s, 4, 0).rest;
            && |m| > 1 && m[0] == '\\' && m[1] == 'u' && h <= 0xdbff
            && var low := QuadHex(m[2..], 4, 0);
               && low.Ok? && 0xdc00 <= low.val <= 0xdfff
               && CodePoint(s) == Ok(Utf8((h - 0xd800) * 1024 + (low.val - 0xdc00) + 0x10000), low.rest)
  {
  }

  lemma Rebuilt(m: string)
    requires |m| > 1 && m[0] == '\\' && m[1] == 'u'
    ensures m == "\\" + ("u" + m[2..])
  {
  }

  lemma {:induction false} PairText(s: string, high: string, m: string, low: string, t: string)
    requires s == high + m && |m| > 1 && m[0] == '\\' && m[1] == 'u' && m[2..] == low + t
    ensures s == high + ("\\" + ("u" + (low + t)))
  {
    Rebuilt(m);
  }

  lemma {:induction false} PairFound(s: string, h: int, m: string, l: int, t: string) returns (high: string, low: string)
    requires QuadHex(s, 4, 0) == Ok(h, m) && 0xd800 <= h <= 0xdbff
    requires |m| > 1 && m[0] == '\\' && m[1] == 'u' && QuadHex(m[2..], 4, 0) == Ok(l, t) && 0xdc00 <= l <= 0xdfff
    ensures s == high + ("\\" + ("u" + (low + t))) && AreSurrogates(high, low, h, l)
  {
    var more, rest;
    high, more := UnitTaken(s);
    low, rest := UnitTaken(m[2..]);
    PairText(s, high, m, low, t);
  }

  lemma {:induction false} PairMeans(high: string, low: string, h: int, l: int, bs: string)
    requires AreSurrogates(high, low, h, l) && bs == Utf8((h - 0xd800) * 1024 + (l - 0xdc00) + 0x10000)
    ensures PieceMeans(Pair(high, low), bs)
  {
    var u := 0x10000 + (h - 0xd800) * 0x400 + (l - 0xdc00);
    assert IsPair(high, low, u);
    Utf8Correct(u);
  }

  lemma {:induction false} PairEscapeFound(c: string) returns (p: Piece)
    requires CodePoint(c).Ok? && QuadHex(c, 4, 0).Ok? && 0xd800 <= QuadHex(c, 4, 0).val <= 0xdfff
    ensures PieceMeans(p, CodePoint(c).val) && "\\" + ("u" + c) == PieceThen(p, CodePoint(c).rest)
  {
    SurrogatesTaken(c);
    var h, m := QuadHex(c, 4, 0).val, QuadHex(c, 4, 0).rest;
    var l := QuadHex(m[2..], 4, 0).val;
    var high, low := PairFound(c, h, m, l, CodePoint(c).rest);
    PairMeans(high, low, h, l, CodePoint(c).val);
    p := Pair(high, low);
  }

  lemma {:induction false} UnicodeFound(c: string) returns (p: Piece)
    requires CodePoint(c).Ok?
    ensures PieceMeans(p, CodePoint(c).val) && "\\" + ("u" + c) == PieceThen(p, CodePoint(c).rest)
  {
    if 0xd800 <= QuadHex(c, 4, 0).val <= 0xdfff {
      p := PairEscapeFound(c);
    } else {
      var hex, t := UnitFound(c);
      p := Unit(hex);
    }
  }

  lemma {:induction false} EscapeFound(u: string) returns (p: Piece)
    requires EscapeStep(u).Ok?
    ensures PieceMeans(p, EscapeStep(u).val) && "\\" + u == PieceThen(p, EscapeStep(u).rest)
  {
    assert u == [u[0]] + u[1..];
    if u[0] == 'u' {
      p := UnicodeFound(u[1..]);
    } else {
      p := Short(u[0]);
    }
  }

  lemma {:induction false} PieceFound(s: string) returns (p: Piece, bs: string, t: string)
    requires StringBody(s).Ok? && s[0] != '"'
    ensures PieceMeans(p, bs) && s == PieceThen(p, t) && StringBody(s) == Prepend(bs, StringBody(t)) && |t| < |s|
  {
    assert s == [s[0]] + s[1..];
    if s[0] == '\\' {
      bs, t := EscapeStep(s[1..]).val, EscapeStep(s[1..]).rest;
      PrependAfter(bs, s, t);
      p := EscapeFound(s[1..]);
    } else {
      p, bs, t := Plain(s[0]), [s[0]], s[1..];
    }
  }

  lemma {:induction false} LiteralFound(s: string) returns (ps: Pieces)
    requires StringBody(s).Ok?
    ensures PiecesMean(ps, StringBody(s).val) && s == PiecesThen(ps, "\"" + StringBody(s).rest)
    decreases |s|
  {
    if s[0] == '"' {
      ps := End;
      assert s == "\"" + s[1..];
    } else {
      var p, bs, t := PieceFound(s);
      var rest := LiteralFound(t);
      ps := More(p, rest);
    }
  }

  /** A literal is accepted, with a value and a place to stop, if and only if the grammar writes it so. */
  lemma {:induction false} LiteralExactly(s: string, v: string, r: string)
    ensures StringBody(s) == Ok(v, r) <==> exists ps :: PiecesMean(ps, v) && s == PiecesThen(ps, "\"" + r)
  {
    if StringBody(s) == Ok(v, r) {
      var ps := LiteralFound(s);
    }
    forall ps | PiecesMean(ps, v) && s == PiecesThen(ps, "\"" + r) ensures StringBody(s) == Ok(v, r) {
      LiteralReads(ps, v, r);
    }
  }

  // Printing

  /** The letter of a one-letter escape. */
  const LETTERS := map['"' := '"', '\\' := '\\', '/' := '/', 8 as char := 'b', 12 as char := 'f',
                       10 as char := 'n', 13 as char := 'r', 9 as char := 't']

  /** How a byte is printed: escaped if it has a letter, or is a control character; '/' has one. */
  function PieceOf(c: char): Piece {
    if c in LETTERS then Short(LETTERS[c])
    else if c < 0x20 as char || c == 0x7f as char then Unit(['0', '0', LOWER[c as int / 16], LOWER[c as int % 16]])
    else Plain(c)
  }

  function PiecesOf(s: string): Pieces {
    if s == "" then End else More(PieceOf(s[0]), PiecesOf(s[1..]))
  }

  lemma {:induction false} ControlMeans(c: char)
    requires c < 0x80 as char
    ensures PieceMeans(Unit(['0', '0', LOWER[c as int / 16], LOWER[c as int % 16]]), [c])
  {
    var n := c as int;
    var hex := ['0', '0', LOWER[n / 16], LOWER[n % 16]];
    assert LOWER[0] == '0';
    assert IsHexDigitOf(hex[0], 0) && IsHexDigitOf(hex[1], 0) && IsHexDigitOf(hex[2], n / 16) && IsHexDigitOf(hex[3], n % 16);
    assert HasDigits(hex, 0, 0, n / 16, n % 16) && n == 0x1000 * 0 + 0x100 * 0 + 0x10 * (n / 16) + n % 16;
    assert IsUnit(hex, n) && IsUtf8Of([c], n);
  }

  lemma LetterText(c: char)
    requires c in LETTERS
    ensures EscapeChar(c) == ['\\', LETTERS[c]] && LETTERS[c] in SHORTS && SHORTS[LETTERS[c]] == c
  {
  }

  lemma {:induction false} OtherText(c: char)
    requires c !in LETTERS
    ensures EscapeChar(c) ==
            if c < 0x20 as char || c == 0x7f as char then "\\" + ("u" + ['0', '0', LOWER[c as int / 16], LOWER[c as int % 16]])
            else [c]
  {
    assert c !in {'"', '\\', '/', '\n', '\r', '\t'} && c != 8 as char && c != 12 as char;
  }

  lemma BackslashThen(a: string, r: string)
    ensures ("\\" + a) + r == "\\" + (a + r) && ("u" + a) + r == "u" + (a + r)
  {
  }

  /** What is printed for one byte is that piece. */
  lemma {:induction false} EscapedPiece(c: char, r: string)
    ensures EscapeChar(c) + r == PieceThen(PieceOf(c), r)
  {
    if c in LETTERS {
      LetterText(c);
      assert ['\\', LETTERS[c]] == "\\" + [LETTERS[c]];
      BackslashThen([LETTERS[c]], r);
    } else {
      OtherText(c);
      if c < 0x20 as char || c == 0x7f as char {
        var hex := ['0', '0', LOWER[c as int / 16], LOWER[c as int % 16]];
        BackslashThen("u" + hex, r);
        BackslashThen(hex, r);
      }
    }
  }

  lemma {:induction false} PieceOfMeans(c: char)
    ensures PieceMeans(PieceOf(c), [c])
  {
    if c in LETTERS {
      LetterText(c);
    } else {
      OtherText(c);
      if c < 0x20 as char || c == 0x7f as char {
        ControlMeans(c);
      }
    }
  }

  lemma Reassociate(a: string, b: string, r: string)
    ensures (a + b) + r == a + (b + r)
  {
  }

  lemma {:induction false} EscapedText(s: string, r: string)
    ensures Escape(s) + r == PiecesThen(PiecesOf(s), r)
  {
    if s == "" {
      assert Escape(s) + r == r;
    } else {
      var more := Escape(s[1..]) + r;
      EscapedText(s[1..], r);
      EscapedPiece(s[0], more);
      Reassociate(EscapeChar(s[0]), Escape(s[1..]), r);
    }
  }

  lemma {:induction false} EscapedMeans(s: string)
    ensures PiecesMean(PiecesOf(s), s)
  {
    if s != "" {
      PieceOfMeans(s[0]);
      EscapedMeans(s[1..]);
      assert s == [s[0]] + s[1..];
    }
  }

  /** Reading a printed string literal gives the string back, whatever its bytes, and stops behind the closing quote. */
  lemma {:induction false} StringRoundTrip(s: string, r: string)
    ensures StringBody(Escape(s) + ("\"" + r)) == Ok(s, r)
  {
    EscapedText(s, "\"" + r);
    EscapedMeans(s);
    LiteralReads(PiecesOf(s), s, r);
  }
}
