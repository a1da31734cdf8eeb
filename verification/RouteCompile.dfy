/** From a route to a regular expression: parse_route and build_route_regex, and what the result matches. */
module RouteCompile {
  import opened Searches
  import opened RouteRegex

  datatype Kind = Equals | MatchAll | Pattern

  /** route_match_info */
  datatype Part = Part(kind: Kind, name: string, text: string)

  // parse_route

  /** ttl::string::split at '/', empty pieces left out. */
  function Split(s: string, from: nat): seq<string>
    requires from <= |s|
    decreases |s| - from, 1
  {
    var i := Cut(s, '/', from);
    if i == from then SplitMore(s, i) else [s[from..i]] + SplitMore(s, i)
  }

  /** The pieces behind the '/' at `i`, if there is one. */
  function SplitMore(s: string, i: nat): seq<string>
    requires i <= |s|
    decreases |s| - i, 0
  {
    if i < |s| then Split(s, i + 1) else []
  }

  function ParsePart(part: string): Part
    requires part != ""
  {
    if part[0] == '{' && part[|part| - 1] == '}' then
      var inner := part[1..|part| - 1];
      var pos := Cut(inner, ':', 0);
      if pos == |inner| then Part(MatchAll, inner, "")
      else Part(Pattern, inner[..pos], inner[pos + 1..])
    else if part[0] == ':' then Part(MatchAll, part[1..], "")
    else Part(Equals, "", part)
  }

  predicate NoneEmpty(pieces: seq<string>) {
    forall i :: 0 <= i < |pieces| ==> pieces[i] != ""
  }

  function ParseParts(pieces: seq<string>): seq<Part>
    requires NoneEmpty(pieces)
  {
    seq(|pieces|, i requires 0 <= i < |pieces| => ParsePart(pieces[i]))
  }

  lemma {:induction false} PieceSlashless(s: string, from: nat)
    requires from <= |s|
    ensures Slashless(s[from..Cut(s, '/', from)])
  {
    CutFirst(s, '/', from);
  }

  lemma {:induction false} SplitPieces(s: string, from: nat)
    requires from <= |s|
    ensures NoneEmpty(Split(s, from)) && AllSlashless(Split(s, from))
    decreases |s| - from, 1
  {
    var i := Cut(s, '/', from);
    SplitMorePieces(s, i);
    PieceSlashless(s, from);
  }

  lemma {:induction false} SplitMorePieces(s: string, i: nat)
    requires i <= |s|
    ensures NoneEmpty(SplitMore(s, i)) && AllSlashless(SplitMore(s, i))
    decreases |s| - i, 0
  {
    if i < |s| {
      SplitPieces(s, i + 1);
    }
  }

  predicate AllSlashless(pieces: seq<string>) {
    forall i :: 0 <= i < |pieces| ==> Slashless(pieces[i])
  }

  /** The texts between runs of slashes, and no empty one. */
  ghost predicate Splits(s: string, pieces: seq<string>)
    decreases |s|
  {
    if s == "" then pieces == []
    else if s[0] == '/' then Splits(s[1..], pieces)
    else
      && pieces != [] && pieces[0] != "" && Lacks(pieces[0], '/') && pieces[0] <= s
      && (|pieces[0]| < |s| ==> s[|pieces[0]|] == '/')
      && Splits(s[|pieces[0]|..], pieces[1..])
  }

  lemma {:induction false} SplitIs(s: string, from: nat)
    requires from <= |s|
    ensures Splits(s[from..], Split(s, from))
    decreases |s| - from, 1
  {
    var i := Cut(s, '/', from);
    CutFirst(s, '/', from);
    SplitMoreIs(s, i);
    if from < i {
      var piece := s[from..i];
      assert s[from..][..|piece|] == piece && s[from..][|piece|..] == s[i..];
      assert Split(s, from)[1..] == SplitMore(s, i);
    }
  }

  lemma {:induction false} SplitMoreIs(s: string, i: nat)
    requires i <= |s| && (i < |s| ==> s[i] == '/')
    ensures Splits(s[i..], SplitMore(s, i))
    decreases |s| - i, 0
  {
    if i < |s| {
      SplitIs(s, i + 1);
      assert s[i..][1..] == s[i + 1..];
    }
  }

  /** The forms of a segment: {name}, :name, {name:expression}, and anything else for itself. */
  ghost predicate Spells(text: string, p: Part) {
    match p.kind
    case MatchAll => p.text == "" && ((text == "{" + p.name + "}" && Lacks(p.name, ':')) || text == ":" + p.name)
    case Pattern => text == "{" + p.name + ":" + p.text + "}" && Lacks(p.name, ':')
    case Equals =>
      text != "" && p.name == "" && p.text == text && text[..1] != ":" && !(text[..1] == "{" && text[|text| - 1..] == "}")
  }

  lemma {:induction false} BracedSplit(inner: string)
    ensures var pos := Cut(inner, ':', 0);
            if pos == |inner| then Lacks(inner, ':')
            else Lacks(inner[..pos], ':') && inner == inner[..pos] + ":" + inner[pos + 1..]
  {
    var pos := Cut(inner, ':', 0);
    CutFirst(inner, ':', 0);
    if pos < |inner| {
      SplitAt(inner, ':', pos);
      FrontLacks(inner, ':', pos);
    }
  }

  lemma FrontLacks(s: string, c: char, i: nat)
    requires i <= |s| && forall k :: 0 <= k < i ==> s[k] != c
    ensures Lacks(s[..i], c)
  {
  }

  lemma {:induction false} BracedRead(name: string, more: string)
    requires Lacks(name, ':')
    ensures Cut(name, ':', 0) == |name| && Cut(name + ":" + more, ':', 0) == |name|
  {
    var s := name + ":" + more;
    assert s[|name|] == ':' && forall k :: 0 <= k < |name| ==> s[k] == name[k];
    CutWhere(name, ':', 0, |name|);
    CutWhere(s, ':', 0, |name|);
  }

  lemma Unbraced(inner: string)
    ensures var text := "{" + inner + "}"; text[0] == '{' && text[|text| - 1] == '}' && text[1..|text| - 1] == inner
  {
  }

  lemma {:induction false} PartSpelled(text: string)
    requires text != ""
    ensures Spells(text, ParsePart(text))
  {
    if text[0] == '{' && text[|text| - 1] == '}' {
      var inner := text[1..|text| - 1];
      BracedSplit(inner);
      assert text == "{" + inner + "}";
    } else if text[0] == ':' {
      assert text == ":" + text[1..];
    }
  }

  lemma {:induction false} SpelledPart(text: string, p: Part)
    requires text != "" && Spells(text, p)
    ensures ParsePart(text) == p
  {
    match p.kind
    case MatchAll =>
      if text == ":" + p.name {
        assert text[1..] == p.name;
      } else {
        Unbraced(p.name);
        BracedRead(p.name, "");
      }
    case Pattern =>
      var inner := p.name + ":" + p.text;
      assert text == "{" + inner + "}";
      Unbraced(inner);
      BracedRead(p.name, p.text);
      assert inner[..|p.name|] == p.name && inner[|p.name| + 1..] == p.text;
    case Equals =>
      assert text[..1] == [text[0]] && text[|text| - 1..] == [text[|text| - 1]];
  }

  /** A segment is parsed as a part if and only if the part is spelled so. */
  lemma {:induction false} PartExactly(text: string, p: Part)
    requires text != ""
    ensures ParsePart(text) == p <==> Spells(text, p)
  {
    PartSpelled(text);
    if Spells(text, p) {
      SpelledPart(text, p);
    }
  }

  /** The parts of a route: one for each text between slashes, in order. */
  lemma {:induction false} RouteSpelled(uri: string)
    ensures NoneEmpty(Split(uri, 0)) && Splits(uri, Split(uri, 0))
    ensures var pieces, parts := Split(uri, 0), ParseParts(Split(uri, 0));
            |parts| == |pieces| && forall i :: 0 <= i < |parts| ==> Spells(pieces[i], parts[i])
  {
    SplitPieces(uri, 0);
    SplitIs(uri, 0);
    assert uri[0..] == uri;
    var pieces := Split(uri, 0);
    forall i | 0 <= i < |pieces| ensures Spells(pieces[i], ParsePart(pieces[i])) {
      PartSpelled(pieces[i]);
    }
  }

  method ParseRoute(uri: string) returns (res: seq<Part>)
    ensures NoneEmpty(Split(uri, 0))
    ensures res == ParseParts(Split(uri, 0))
  {
    SplitPieces(uri, 0);
    var parts := Split(uri, 0);
    res := [];
    var i := 0;
    while i < |parts|
      invariant 0 <= i <= |parts| && res == ParseParts(parts)[..i]
    {
      res := res + [ParsePart(parts[i])];
      i := i + 1;
    }
  }

  // Escaping

  /** ttl::string::replace of a single character: every occurrence, from left to right. */
  function Replace(s: string, c: char, with: string): string {
    if s == "" then "" else (if s[0] == c then with else [s[0]]) + Replace(s[1..], c, with)
  }

  /** Escaping the first n syntax characters only. */
  function EscapeChar(c: char, n: nat): string {
    if SyntaxIndex(c) < n then ['\\', c] else [c]
  }

  function Escape(s: string, n: nat): string {
    if s == "" then "" else EscapeChar(s[0], n) + Escape(s[1..], n)
  }

  lemma {:induction false} ReplaceAppend(a: string, b: string, c: char, with: string)
    ensures Replace(a + b, c, with) == Replace(a, c, with) + Replace(b, c, with)
  {
    if a == "" {
      assert a + b == b;
    } else {
      assert (a + b)[1..] == a[1..] + b;
      ReplaceAppend(a[1..], b, c, with);
    }
  }

  lemma {:induction false} ReplaceInChar(c: char, n: nat)
    requires n < |SYNTAX|
    ensures Replace(EscapeChar(c, n), SYNTAX[n], ['\\', SYNTAX[n]]) == EscapeChar(c, n + 1)
  {
    var d, with := SYNTAX[n], ['\\', SYNTAX[n]];
    SyntaxAt(c, n);
    if SyntaxIndex(c) < n {
      SyntaxAt('\\', n);
      assert ['\\', c][1..] == [c] && [c][1..] == "";
      assert Replace([c], d, with) == [c];
    } else {
      assert [c][1..] == "";
    }
  }

  /** One round of the escaping loop: the backslashes of earlier rounds are not escaped again. */
  lemma {:induction false} EscapeRound(s: string, n: nat)
    requires n < |SYNTAX|
    ensures Replace(Escape(s, n), SYNTAX[n], ['\\', SYNTAX[n]]) == Escape(s, n + 1)
  {
    if s != "" {
      ReplaceAppend(EscapeChar(s[0], n), Escape(s[1..], n), SYNTAX[n], ['\\', SYNTAX[n]]);
      ReplaceInChar(s[0], n);
      EscapeRound(s[1..], n);
    }
  }

  lemma {:induction false} EscapeNone(s: string)
    ensures Escape(s, 0) == s
  {
    if s != "" {
      EscapeNone(s[1..]);
    }
  }

  /** Replacing one syntax character after the other escapes each character of the text once. */
  method EscapeText(text: string) returns (str: string)
    ensures str == Escape(text, |SYNTAX|)
  {
    str := text;
    EscapeNone(text);
    var i := 0;
    while i < |SYNTAX|
      invariant 0 <= i <= |SYNTAX| && str == Escape(text, i)
    {
      EscapeRound(text, i);
      str := Replace(str, SYNTAX[i], ['\\', SYNTAX[i]]);
      i := i + 1;
    }
  }

  // build_route_regex

  function PartText(p: Part): string {
    match p.kind
    case Equals => Escape(p.text, |SYNTAX|)
    case MatchAll => if p.name == "" then PLAIN_SEGMENT else CAPTURED_SEGMENT
    case Pattern => if p.name == "" then "(?:" + p.text + "?)" else "(" + p.text + "?)"
  }

  function PartKey(p: Part): seq<string> {
    if p.kind.Equals? || p.name == "" then [] else [p.name]
  }

  function Texts(parts: seq<Part>): seq<string> {
    if parts == [] then [] else Texts(parts[..|parts| - 1]) + [PartText(parts[|parts| - 1])]
  }

  function Keys(parts: seq<Part>): seq<string> {
    if parts == [] then [] else PartKey(parts[0]) + Keys(parts[1..])
  }

  function Join(pieces: seq<string>, with: string): string {
    if pieces == [] then "" else if |pieces| == 1 then pieces[0] else pieces[0] + with + Join(pieces[1..], with)
  }

  function BuildText(parts: seq<Part>): string {
    "^\\/" + Join(Texts(parts), "\\/") + "$"
  }

  /** What the loop of build_route_regex pushes for one part. */
  method PartRegex(e: Part) returns (part: string, key: seq<string>)
    ensures part == PartText(e) && key == PartKey(e)
  {
    key := [];
    if e.kind.Equals? {
      part := EscapeText(e.text);
    } else if e.kind.MatchAll? {
      if e.name == "" {
        part := "(?:[^\\/]+?)";
      } else {
        part := "([^\\/]+?)";
        key := [e.name];
      }
    } else {
      if e.name == "" {
        part := "(?:" + e.text + "?)";
      } else {
        part := "(" + e.text + "?)";
        key := [e.name];
      }
    }
  }

  lemma {:induction false} OneMoreText(info: seq<Part>, i: nat)
    requires i < |info|
    ensures Texts(info[..i + 1]) == Texts(info[..i]) + [PartText(info[i])]
  {
    assert info[..i + 1][..i] == info[..i];
  }

  lemma {:induction false} OneMoreKey(info: seq<Part>, i: nat)
    requires i < |info|
    ensures Keys(info[i..]) == PartKey(info[i]) + Keys(info[i + 1..])
  {
    assert info[i..][1..] == info[i + 1..];
  }

  lemma Regrouped(a: seq<string>, b: seq<string>, c: seq<string>)
    ensures a + (b + c) == a + b + c
  {
  }

  method BuildRouteRegex(info: seq<Part>) returns (res: string, keys: seq<string>)
    ensures res == BuildText(info) && keys == Keys(info)
  {
    var parts: seq<string> := [];
    keys := [];
    var i := 0;
    while i < |info|
      invariant 0 <= i <= |info|
      invariant parts == Texts(info[..i]) && keys + Keys(info[i..]) == Keys(info)
    {
      var part, key := PartRegex(info[i]);
      OneMoreText(info, i);
      OneMoreKey(info, i);
      Regrouped(keys, key, Keys(info[i + 1..]));
      parts := parts + [part];
      keys := keys + key;
      i := i + 1;
    }
    assert info[..|info|] == info && keys + [] == keys;
    res := "^\\/" + Join(parts, "\\/") + "$";
  }
}
