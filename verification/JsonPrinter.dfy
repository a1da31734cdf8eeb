/** The serializer as the library runs it: routines that write to an output iterator, byte by byte. */
module JsonPrinter {
  import opened JsonNumbers
  import opened JsonStrings
  import opened JsonValues
  import opened JsonPrint

  /** The string behind a back_inserter. */
  class Output {
    var text: string

    constructor ()
      ensures text == ""
    {
      text := "";
    }

    method Copy(s: string)
      modifies this
      ensures text == old(text) + s
    {
      text := text + s;
    }
  }

  lemma Grow(a: string, b: string, c: string)
    ensures a + b + c == a + (b + c)
  {
  }

  method PrintString(s: string, oi: Output)
    modifies oi
    ensures oi.text == old(oi.text) + Quote(s)
  {
    ghost var before := oi.text;
    oi.Copy("\"");
    PrintEscaped(s, oi);
    Grow(before, "\"", Escape(s));
    oi.Copy("\"");
    Grow(before, "\"" + Escape(s), "\"");
  }

  method PrintEscaped(s: string, oi: Output)
    modifies oi
    ensures oi.text == old(oi.text) + Escape(s)
  {
    ghost var before := oi.text;
    var i := 0;
    assert before + "" == before;
    while i < |s|
      invariant 0 <= i <= |s|
      invariant oi.text == before + Escape(s[..i])
    {
      oi.Copy(EscapeChar(s[i]));
      Grow(before, Escape(s[..i]), EscapeChar(s[i]));
      EscapeAppend(s[..i], s[i]);
      assert s[..i + 1] == s[..i] + [s[i]];
      i := i + 1;
    }
    assert s[..|s|] == s;
  }

  lemma {:induction false} EscapeAppend(s: string, c: char)
    ensures Escape(s + [c]) == Escape(s) + EscapeChar(c)
  {
    if s == "" {
      assert s + [c] == [c];
    } else {
      assert (s + [c])[1..] == s[1..] + [c];
      EscapeAppend(s[1..], c);
    }
  }

  method PrintIndent(oi: Output, indent: Depth)
    requires indent >= 0
    modifies oi
    ensures oi.text == old(oi.text) + Gap(indent)
  {
    ghost var before := oi.text;
    oi.Copy("\n");
    var i := 0;
    assert oi.text == before + ("\n" + Spaces(0));
    while i < indent * INDENT_WIDTH
      invariant 0 <= i <= indent * INDENT_WIDTH
      invariant oi.text == before + ("\n" + Spaces(i))
    {
      oi.Copy(" ");
      Grow(before, "\n" + Spaces(i), " ");
      Grow("\n", Spaces(i), " ");
      SpacesAppend(i);
      i := i + 1;
    }
  }

  lemma {:induction false} SpacesAppend(n: nat)
    ensures Spaces(n) + " " == Spaces(n + 1)
  {
    if n > 0 {
      SpacesAppend(n - 1);
      Grow(" ", Spaces(n - 1), " ");
    }
  }

  method PrintItems(pf: Platform, items: seq<Value>, indent: Depth, oi: Output)
    modifies oi
    ensures oi.text == old(oi.text) + Items(pf, items, indent, true)
    decreases items, 1
  {
    ghost var goal := oi.text + Items(pf, items, indent, true);
    var i := 0;
    assert items[0..] == items;
    while i < |items|
      invariant 0 <= i <= |items|
      invariant oi.text + Items(pf, items[i..], indent, i == 0) == goal
    {
      ghost var before := oi.text;
      assert items[i..][0] == items[i] && items[i..][1..] == items[i + 1..];
      PrintItem(pf, items[i], indent, i == 0, oi);
      Grow(before, Comma(i == 0) + Gap(indent) + Serialize(pf, items[i], indent), Items(pf, items[i + 1..], indent, false));
      i := i + 1;
    }
    assert oi.text + "" == oi.text;
  }

  /** One pass of the loop: the comma before all but the first, the indentation, the item. */
  method PrintItem(pf: Platform, v: Value, indent: Depth, first: bool, oi: Output)
    modifies oi
    ensures oi.text == old(oi.text) + (Comma(first) + Gap(indent) + Serialize(pf, v, indent))
    decreases v, 2
  {
    ghost var before := oi.text;
    if !first {
      oi.Copy(",");
    }
    assert oi.text == before + Comma(first);
    if indent != -1 {
      PrintIndent(oi, indent);
    }
    Grow(before, Comma(first), Gap(indent));
    assert oi.text == before + (Comma(first) + Gap(indent));
    PrintValue(pf, v, indent, oi);
    Grow(before, Comma(first) + Gap(indent), Serialize(pf, v, indent));
  }

  method PrintMembers(pf: Platform, fields: Object, indent: Depth, oi: Output)
    modifies oi
    ensures oi.text == old(oi.text) + Members(pf, fields, indent, true)
    decreases fields, 1
  {
    ghost var goal := oi.text + Members(pf, fields, indent, true);
    var i := 0;
    assert fields[0..] == fields;
    while i < |fields|
      invariant 0 <= i <= |fields|
      invariant oi.text + Members(pf, fields[i..], indent, i == 0) == goal
    {
      ghost var before := oi.text;
      assert fields[i..][0] == fields[i] && fields[i..][1..] == fields[i + 1..];
      PrintField(pf, fields[i], indent, i == 0, oi);
      Grow(before, Comma(i == 0) + Gap(indent) + Member(pf, fields[i], indent), Members(pf, fields[i + 1..], indent, false));
      i := i + 1;
    }
    assert oi.text + "" == oi.text;
  }

  /** One pass of the loop: the comma before all but the first, the indentation, the member. */
  method PrintField(pf: Platform, f: Field, indent: Depth, first: bool, oi: Output)
    modifies oi
    ensures oi.text == old(oi.text) + (Comma(first) + Gap(indent) + Member(pf, f, indent))
    decreases f, 1
  {
    ghost var before := oi.text;
    if !first {
      oi.Copy(",");
    }
    assert oi.text == before + Comma(first);
    if indent != -1 {
      PrintIndent(oi, indent);
    }
    Grow(before, Comma(first), Gap(indent));
    assert oi.text == before + (Comma(first) + Gap(indent));
    PrintMember(pf, f, indent, oi);
    Grow(before, Comma(first) + Gap(indent), Member(pf, f, indent));
  }

  method PrintMember(pf: Platform, f: Field, indent: Depth, oi: Output)
    modifies oi
    ensures oi.text == old(oi.text) + Member(pf, f, indent)
    decreases f, 0
  {
    ghost var before := oi.text;
    PrintString(f.key, oi);
    oi.Copy(":");
    Grow(before, Quote(f.key), ":");
    ghost var head := Quote(f.key) + ":";
    if indent != -1 {
      oi.Copy(" ");
    }
    assert oi.text == before + head + Space(indent);
    Grow(before, head, Space(indent));
    PrintValue(pf, f.val, indent, oi);
    Grow(before, head + Space(indent), Serialize(pf, f.val, indent));
  }

  /** The end of an array or object whose contents were printed at `indent`. */
  method PrintClosing(oi: Output, empty: bool, indent: Depth, close: string)
    requires indent != 0
    modifies oi
    ensures oi.text
         == old(oi.text) + ((if empty then "" else Gap(if indent == -1 then -1 else indent - 1)) + close)
  {
    ghost var before := oi.text;
    assert before + "" == before;
    if indent != -1 && !empty {
      PrintIndent(oi, indent - 1);
    }
    oi.Copy(close);
    Grow(before, if empty then "" else Gap(if indent == -1 then -1 else indent - 1), close);
  }

  method PrintArray(pf: Platform, items: seq<Value>, depth: Depth, oi: Output)
    modifies oi
    ensures oi.text == old(oi.text) + ("[" + Items(pf, items, Deeper(depth), true) + (if items == [] then "" else Gap(depth)) + "]")
    decreases items, 2
  {
    ghost var before := oi.text;
    var indent := depth;
    oi.Copy("[");
    if indent != -1 {
      indent := indent + 1;
    }
    PrintItems(pf, items, indent, oi);
    ghost var inner := "[" + Items(pf, items, indent, true);
    Grow(before, "[", Items(pf, items, indent, true));
    assert oi.text == before + inner;
    PrintClosing(oi, items == [], indent, "]");
    Grow(before, inner, (if items == [] then "" else Gap(depth)) + "]");
    Grow(inner, if items == [] then "" else Gap(depth), "]");
  }

  method PrintObject(pf: Platform, fields: Object, depth: Depth, oi: Output)
    modifies oi
    ensures oi.text == old(oi.text) + ("{" + Members(pf, fields, Deeper(depth), true) + (if fields == [] then "" else Gap(depth)) + "}")
    decreases fields, 2
  {
    ghost var before := oi.text;
    var indent := depth;
    oi.Copy("{");
    if indent != -1 {
      indent := indent + 1;
    }
    PrintMembers(pf, fields, indent, oi);
    ghost var inner := "{" + Members(pf, fields, indent, true);
    Grow(before, "{", Members(pf, fields, indent, true));
    assert oi.text == before + inner;
    PrintClosing(oi, fields == [], indent, "}");
    Grow(before, inner, (if fields == [] then "" else Gap(depth)) + "}");
    Grow(inner, if fields == [] then "" else Gap(depth), "}");
  }

  /** value::_serialize, every value kind and depth. */
  method PrintValue(pf: Platform, v: Value, indent: Depth, oi: Output)
    modifies oi
    ensures oi.text == old(oi.text) + Serialize(pf, v, indent)
    decreases v, 1
  {
    ghost var before := oi.text;
    match v {
      case Str(s) =>
        PrintString(s, oi);
      case Arr(items) =>
        PrintArray(pf, items, indent, oi);
      case Obj(fields) =>
        PrintObject(pf, fields, indent, oi);
      case _ =>
        oi.Copy(Scalar(pf, v));
    }
    assert oi.text == before + Body(pf, v, indent);
    if indent == 0 {
      oi.Copy("\n");
    }
    Grow(before, Body(pf, v, indent), if indent == 0 then "\n" else "");
  }

  /** value::serialize */
  method Print(pf: Platform, v: Value, prettify: bool) returns (text: string)
    ensures text == Text(pf, v, prettify)
  {
    var s := new Output();
    PrintValue(pf, v, if prettify then 0 else -1, s);
    text := s.text;
  }
}
