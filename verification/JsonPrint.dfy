/** The serializer of picojson: compact (indent -1) and pretty (indent 0 at the top) texts of a value. */
module JsonPrint {
  import opened JsonNumbers
  import opened JsonStrings
  import opened JsonValues

  const INDENT_WIDTH := 2

  type Depth = d: int | -1 <= d

  function Spaces(n: nat): string {
    if n == 0 then "" else " " + Spaces(n - 1)
  }

  /** Line break and indentation, in pretty mode. */
  function Gap(d: Depth): string {
    if d == -1 then "" else "\n" + Spaces(d * INDENT_WIDTH)
  }

  /** The blank behind a colon, in pretty mode. */
  function Space(d: Depth): string {
    if d == -1 then "" else " "
  }

  function Deeper(d: Depth): Depth {
    if d == -1 then -1 else d + 1
  }

  /** to_str for the values that are printed by it. */
  function Scalar(pf: Platform, v: Value): string {
    match v
    case Null => "null"
    case Bool(b) => if b then "true" else "false"
    case Int(i) => Decimal(i)
    case Double(bits) => pf.printDouble(bits)
    case Str(s) => s
    case Arr(_) => "array"
    case Obj(_) => "object"
  }

  /** The value itself, without the line break that ends a pretty text. */
  function Body(pf: Platform, v: Value, d: Depth): string
    decreases v, 0
  {
    match v
    case Str(s) => Quote(s)
    case Arr(items) =>
      "[" + Items(pf, items, Deeper(d), true) + (if items == [] then "" else Gap(d)) + "]"
    case Obj(fields) =>
      "{" + Members(pf, fields, Deeper(d), true) + (if fields == [] then "" else Gap(d)) + "}"
    case _ => Scalar(pf, v)
  }

  function Serialize(pf: Platform, v: Value, d: Depth): string
    decreases v, 1
  {
    Body(pf, v, d) + if d == 0 then "\n" else ""
  }

  function Comma(first: bool): string {
    if first then "" else ","
  }

  function Items(pf: Platform, items: seq<Value>, d: Depth, first: bool): string
    decreases items, 0
  {
    if items == [] then ""
    else Comma(first) + Gap(d) + Serialize(pf, items[0], d) + Items(pf, items[1..], d, false)
  }

  function Member(pf: Platform, f: Field, d: Depth): string
    decreases f, 0
  {
    Quote(f.key) + ":" + Space(d) + Serialize(pf, f.val, d)
  }

  function Members(pf: Platform, fields: seq<Field>, d: Depth, first: bool): string
    decreases fields, 0
  {
    if fields == [] then ""
    else Comma(first) + Gap(d) + Member(pf, fields[0], d) + Members(pf, fields[1..], d, false)
  }

  /** value::serialize */
  function Text(pf: Platform, v: Value, pretty: bool): string {
    Serialize(pf, v, if pretty then 0 else -1)
  }
}
