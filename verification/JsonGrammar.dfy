/**
 * JSON texts as the library understands them, told without a parser: syntax trees, the text of a tree, and
 * the value it denotes. White space may stand before every token and behind every element and entry.
 */
module JsonGrammar {
  import opened Outcomes
  import opened HexDigits
  import opened JsonNumbers
  import opened JsonValues

  // Strings

  /** One character of a string literal: itself, a one-letter escape, a UTF-16 unit, or a surrogate pair. */
  datatype Piece = Plain(c: char) | Short(letter: char) | Unit(hex: string) | Pair(high: string, low: string)

  datatype Pieces = End | More(first: Piece, rest: Pieces)

  /** The text of a piece with `r` behind it. */
  function PieceThen(p: Piece, r: string): string {
    match p
    case Plain(c) => [c] + r
    case Short(letter) => "\\" + ([letter] + r)
    case Unit(hex) => "\\" + ("u" + (hex + r))
    case Pair(high, low) => "\\" + ("u" + (high + ("\\" + ("u" + (low + r)))))
  }

  function PiecesThen(ps: Pieces, r: string): string {
    match ps case End => r case More(p, rest) => PieceThen(p, PiecesThen(rest, r))
  }

  /** The escapes of section 7 of RFC 8259 and what they stand for. */
  const SHORTS := map['"' := '"', '\\' := '\\', '/' := '/', 'b' := 8 as char, 'f' := 12 as char,
                      'n' := 10 as char, 'r' := 13 as char, 't' := 9 as char]

  /** `u` is the number four hexadecimal digits write. */
  ghost predicate IsUnit(hex: string, u: int) {
    exists a, b, c, d :: HasDigits(hex, a, b, c, d) && u == 0x1000 * a + 0x100 * b + 0x10 * c + d
  }

  ghost predicate HasDigits(hex: string, a: int, b: int, c: int, d: int) {
    |hex| == 4 && IsHexDigitOf(hex[0], a) && IsHexDigitOf(hex[1], b) && IsHexDigitOf(hex[2], c) && IsHexDigitOf(hex[3], d)
  }

  /** A high and a low surrogate, and the scalar value they stand for. */
  ghost predicate IsPair(high: string, low: string, u: int) {
    exists h, l :: AreSurrogates(high, low, h, l) && u == 0x10000 + (h - 0xd800) * 0x400 + (l - 0xdc00)
  }

  ghost predicate AreSurrogates(high: string, low: string, h: int, l: int) {
    IsUnit(high, h) && 0xd800 <= h <= 0xdbff && IsUnit(low, l) && 0xdc00 <= l <= 0xdfff
  }

  ghost predicate Octet(c: char, lo: int, hi: int) {
    lo <= c as int <= hi
  }

  const MAX_SCALAR := 0x10FFFF

  /** Section 3 of RFC 3629: `bs` is the (shortest) octet sequence of the scalar value `u`. */
  ghost predicate IsUtf8Of(bs: string, u: int) {
    && !(0xd800 <= u <= 0xdfff)
    && match |bs|
       case 1 => 0 <= u <= 0x7f && bs[0] as int == u
       case 2 =>
         && 0x80 <= u <= 0x7ff && Octet(bs[0], 0xc0, 0xdf) && Octet(bs[1], 0x80, 0xbf)
         && u == (bs[0] as int - 0xc0) * 0x40 + (bs[1] as int - 0x80)
       case 3 =>
         && 0x800 <= u <= 0xffff && Octet(bs[0], 0xe0, 0xef) && Octet(bs[1], 0x80, 0xbf) && Octet(bs[2], 0x80, 0xbf)
         && u == (bs[0] as int - 0xe0) * 0x1000 + (bs[1] as int - 0x80) * 0x40 + (bs[2] as int - 0x80)
       case 4 =>
         && 0x10000 <= u <= MAX_SCALAR && Octet(bs[0], 0xf0, 0xf7)
         && Octet(bs[1], 0x80, 0xbf) && Octet(bs[2], 0x80, 0xbf) && Octet(bs[3], 0x80, 0xbf)
         && u == (bs[0] as int - 0xf0) * 0x40000 + (bs[1] as int - 0x80) * 0x1000
              + (bs[2] as int - 0x80) * 0x40 + (bs[3] as int - 0x80)
       case _ => false
  }

  /** The piece may stand in a literal, and stands for the bytes `bs`. */
  ghost predicate PieceMeans(p: Piece, bs: string) {
    match p
    case Plain(c) => c >= 0x20 as char && c != '"' && c != '\\' && bs == [c]
    case Short(letter) => letter in SHORTS && bs == [SHORTS[letter]]
    case Unit(hex) => exists u :: IsUnit(hex, u) && IsUtf8Of(bs, u)
    case Pair(high, low) => exists u :: IsPair(high, low, u) && IsUtf8Of(bs, u)
  }

  ghost predicate PiecesMean(ps: Pieces, s: string) {
    match ps
    case End => s == ""
    case More(p, rest) => exists bs, t :: PieceMeans(p, bs) && PiecesMean(rest, t) && s == bs + t
  }

  // Numbers

  /** The number a string of decimal digits writes. */
  function Positional(ds: string): int {
    if ds == "" then 0 else (ds[0] as int - '0' as int) * Power10(|ds| - 1) + Positional(ds[1..])
  }

  function Power10(n: nat): int {
    if n == 0 then 1 else 10 * Power10(n - 1)
  }

  ghost predicate Decimals(ds: string) {
    ds != "" && forall i :: 0 <= i < |ds| ==> '0' <= ds[i] <= '9'
  }

  /** A numeral without fraction and exponent, whose value is `i`; the sign may be a plus. */
  ghost predicate IsInteger(text: string, i: int) {
    || (Decimals(text) && i == Positional(text))
    || (text != "" && text[0] == '+' && Decimals(text[1..]) && i == Positional(text[1..]))
    || (text != "" && text[0] == '-' && Decimals(text[1..]) && i == -Positional(text[1..]))
  }

  /** The exponent of a double that is no number is all ones. */
  ghost predicate Finite(d: bits64) {
    d / 0x10_0000_0000_0000 % 0x800 != 0x7ff
  }

  const NUMBER_CHARS := "0123456789+-eE."

  /**
   * What a run of number characters denotes: an integer if it is one and fits 64 bits, else what strtod makes
   * of it, which must be finite. strtod takes more forms than section 6 of RFC 8259, and so does the library.
   */
  ghost predicate NumberMeans(pf: Platform, text: string, v: Value) {
    && text != "" && (text[0] == '-' || '0' <= text[0] <= '9')
    && (forall i :: 0 <= i < |text| ==> text[i] in NUMBER_CHARS)
    && var local := Localized(pf.decimalPoint, text);
       match v
       case Int(i) => IsInteger(local, i)
       case Double(d) => (forall i: int64 :: !IsInteger(local, i)) && pf.strtod(local) == Some(d) && Finite(d)
       case _ => false
  }

  // Values

  datatype Tree =
    | NullWord | TrueWord | FalseWord
    | Number(text: string, v: Value)
    | Quoted(pieces: Pieces, s: string)
    | EmptyArray(gap: string)
    | ArrayTree(elements: Elements)
    | EmptyObject(gap: string)
    | ObjectTree(entries: Entries)

  datatype Elements = LastElement(before: string, t: Tree, after: string) | NextElement(before: string, t: Tree, after: string, more: Elements)

  datatype Entries = LastEntry(m: Entry, after: string) | NextEntry(m: Entry, after: string, more: Entries)

  /** An entry with the white space before its key, its colon and its value. */
  datatype Entry = Entry(before: string, pieces: Pieces, key: string, colon: string, gap: string, t: Tree)

  ghost predicate White(w: string) {
    forall i :: 0 <= i < |w| ==> w[i] in " \t\n\r"
  }

  /** The text of a tree with `r` behind it. */
  function TextThen(t: Tree, r: string): string
    decreases t, 0
  {
    match t
    case NullWord => "null" + r
    case TrueWord => "true" + r
    case FalseWord => "false" + r
    case Number(text, _) => text + r
    case Quoted(pieces, _) => "\"" + PiecesThen(pieces, "\"" + r)
    case EmptyArray(gap) => "[" + (gap + ("]" + r))
    case ArrayTree(elements) => "[" + ElementsThen(elements, "]" + r)
    case EmptyObject(gap) => "{" + (gap + ("}" + r))
    case ObjectTree(entries) => "{" + EntriesThen(entries, "}" + r)
  }

  function ElementsThen(elements: Elements, r: string): string
    decreases elements, 1
  {
    elements.before + TextThen(elements.t, elements.after + MoreElements(elements, r))
  }

  function MoreElements(elements: Elements, r: string): string
    decreases elements, 0
  {
    if elements.NextElement? then "," + ElementsThen(elements.more, r) else r
  }

  function EntryThen(m: Entry, r: string): string
    decreases m, 1
  {
    m.before + ("\"" + PiecesThen(m.pieces, "\"" + (m.colon + (":" + (m.gap + TextThen(m.t, r))))))
  }

  function EntriesThen(entries: Entries, r: string): string
    decreases entries, 1
  {
    EntryThen(entries.m, entries.after + MoreEntries(entries, r))
  }

  function MoreEntries(entries: Entries, r: string): string
    decreases entries, 0
  {
    if entries.NextEntry? then "," + EntriesThen(entries.more, r) else r
  }

  /** The tree follows the grammar, and the contents it is labelled with are those of its text. */
  ghost predicate Valid(pf: Platform, t: Tree)
    decreases t, 0
  {
    match t
    case Number(text, v) => NumberMeans(pf, text, v)
    case Quoted(pieces, s) => PiecesMean(pieces, s)
    case EmptyArray(gap) => White(gap)
    case ArrayTree(elements) => ValidElements(pf, elements)
    case EmptyObject(gap) => White(gap)
    case ObjectTree(entries) => ValidEntries(pf, entries)
    case _ => true
  }

  ghost predicate ValidElements(pf: Platform, elements: Elements)
    decreases elements, 0
  {
    && White(elements.before) && Valid(pf, elements.t) && White(elements.after)
    && (elements.NextElement? ==> ValidElements(pf, elements.more))
  }

  ghost predicate ValidEntry(pf: Platform, m: Entry)
    decreases m, 0
  {
    White(m.before) && PiecesMean(m.pieces, m.key) && White(m.colon) && White(m.gap) && Valid(pf, m.t)
  }

  ghost predicate ValidEntries(pf: Platform, entries: Entries)
    decreases entries, 0
  {
    ValidEntry(pf, entries.m) && White(entries.after) && (entries.NextEntry? ==> ValidEntries(pf, entries.more))
  }

  /** The value of a tree; of entries with one key the last decides. */
  function ValueOf(t: Tree): Value
    decreases t, 0
  {
    match t
    case NullWord => Null
    case TrueWord => Bool(true)
    case FalseWord => Bool(false)
    case Number(_, v) => v
    case Quoted(_, s) => Str(s)
    case EmptyArray(_) => Arr([])
    case ArrayTree(elements) => Arr(ValuesOf(elements))
    case EmptyObject(_) => Obj([])
    case ObjectTree(entries) => Obj(PutAll([], FieldsOf(entries)))
  }

  function ValuesOf(elements: Elements): seq<Value>
    decreases elements, 0
  {
    [ValueOf(elements.t)] + if elements.NextElement? then ValuesOf(elements.more) else []
  }

  function FieldsOf(entries: Entries): seq<Field>
    decreases entries, 0
  {
    [Field(entries.m.key, ValueOf(entries.m.t))] + if entries.NextEntry? then FieldsOf(entries.more) else []
  }

  /** A number ends where no number character follows. */
  ghost predicate Ends(t: Tree, r: string) {
    t.Number? ==> r == "" || r[0] !in NUMBER_CHARS
  }

  /** `s` is white space, the text of a value `v`, and `r`. */
  ghost predicate Writes(pf: Platform, s: string, w: string, t: Tree, v: Value, r: string) {
    White(w) && Valid(pf, t) && s == w + TextThen(t, r) && ValueOf(t) == v && Ends(t, r)
  }
}
