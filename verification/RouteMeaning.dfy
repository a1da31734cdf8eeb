/** Compiling a route keeps its meaning: the regular expression matches the paths whose segments fit the route. */
module RouteMeaning {
  import opened Outcomes
  import opened RouteRegex
  import opened RouteCompile

  /** The parts whose meaning is modelled: user expressions only in the form .* that serve_dir uses. */
  predicate Supported(p: Part) {
    p.kind.Pattern? ==> p.text == ".*"
  }

  ghost predicate AllSupported(parts: seq<Part>) {
    forall i :: 0 <= i < |parts| ==> Supported(parts[i])
  }

  // The text read as a regular expression

  /** The literal text t, then k. */
  function Spelled(t: string, k: Regex): Regex {
    if t == "" then k else Then(Literal(t[0]), Spelled(t[1..], k))
  }

  function PartThen(p: Part, k: Regex): Regex {
    match p.kind
    case Equals => Spelled(p.text, k)
    case MatchAll => Then(Segment(p.name != ""), k)
    case Pattern => Then(Tail(p.name != ""), k)
  }

  /** The parts with a '/' between them. */
  function PartsThen(parts: seq<Part>): Regex {
    if parts == [] then Done
    else PartThen(parts[0], if |parts| == 1 then Done else Then(Literal('/'), PartsThen(parts[1..])))
  }

  function RouteRegexOf(parts: seq<Part>): Regex {
    Then(Literal('/'), PartsThen(parts))
  }

  /** An escaped text reads as the text itself, character for character. */
  lemma {:induction false} EscapedReads(t: string, rest: string, k: Regex)
    requires ReadBody(rest) == Some(k)
    ensures ReadBody(Escape(t, |SYNTAX|) + rest) == Some(Spelled(t, k))
  {
    if t == "" {
      assert Escape(t, |SYNTAX|) + rest == rest;
    } else {
      var more := Escape(t[1..], |SYNTAX|) + rest;
      EscapedReads(t[1..], rest, k);
      EscapedCharReads(t[0], more, Spelled(t[1..], k));
      assert Escape(t, |SYNTAX|) + rest == EscapeChar(t[0], |SYNTAX|) + more;
    }
  }

  lemma {:induction false} EscapedCharReads(c: char, more: string, k: Regex)
    requires ReadBody(more) == Some(k)
    ensures ReadBody(EscapeChar(c, |SYNTAX|) + more) == Some(Then(Literal(c), k))
  {
    if IsSyntax(c) {
      assert (['\\', c] + more)[2..] == more;
    } else {
      assert ([c] + more)[1..] == more;
    }
  }

  lemma {:induction false} PartReads(p: Part, rest: string, k: Regex)
    requires Supported(p) && ReadBody(rest) == Some(k)
    ensures ReadBody(PartText(p) + rest) == Some(PartThen(p, k))
  {
    match p.kind
    case Equals => EscapedReads(p.text, rest, k);
    case MatchAll => GroupReads(if p.name == "" then PLAIN_SEGMENT else CAPTURED_SEGMENT, rest, k);
    case Pattern =>
      assert "(?:" + p.text + "?)" == PLAIN_TAIL && "(" + p.text + "?)" == CAPTURED_TAIL;
      GroupReads(if p.name == "" then PLAIN_TAIL else CAPTURED_TAIL, rest, k);
  }

  lemma {:induction false} GroupReads(g: string, rest: string, k: Regex)
    requires g in {CAPTURED_SEGMENT, PLAIN_SEGMENT, CAPTURED_TAIL, PLAIN_TAIL} && ReadBody(rest) == Some(k)
    ensures ReadBody(g + rest) == Some(Then(
              if g == CAPTURED_SEGMENT then Segment(true) else if g == PLAIN_SEGMENT then Segment(false)
              else if g == CAPTURED_TAIL then Tail(true) else Tail(false), k))
  {
    var s := g + rest;
    assert s[..|g|] == g && s[|g|..] == rest;
    assert s[0] == g[0] == '(' && s[1] == g[1] && s[2] == g[2] && s[3] == g[3];
    assert !StartsWith(s, CAPTURED_SEGMENT) || s[1] == '[' by {
      assert StartsWith(s, CAPTURED_SEGMENT) ==> s[..|CAPTURED_SEGMENT|][1] == '[';
    }
    assert !StartsWith(s, PLAIN_SEGMENT) || s[3] == '[' by {
      assert StartsWith(s, PLAIN_SEGMENT) ==> s[..|PLAIN_SEGMENT|][3] == '[';
    }
    assert !StartsWith(s, CAPTURED_TAIL) || s[1] == '.' by {
      assert StartsWith(s, CAPTURED_TAIL) ==> s[..|CAPTURED_TAIL|][1] == '.';
    }
  }

  lemma {:induction false} SlashReads(rest: string, k: Regex)
    requires ReadBody(rest) == Some(k)
    ensures ReadBody("\\/" + rest) == Some(Then(Literal('/'), k))
  {
    assert ("\\/" + rest)[2..] == rest;
  }

  lemma {:induction false} TextsOf(parts: seq<Part>)
    ensures |Texts(parts)| == |parts| && forall i :: 0 <= i < |parts| ==> Texts(parts)[i] == PartText(parts[i])
  {
    if parts != [] {
      TextsOf(parts[..|parts| - 1]);
    }
  }

  lemma Regroup(a: string, b: string, c: string, d: string)
    ensures a + b + c + d == a + (b + (c + d))
  {
  }

  lemma {:induction false} JoinReads(parts: seq<Part>, texts: seq<string>)
    requires AllSupported(parts) && |texts| == |parts|
    requires forall i :: 0 <= i < |parts| ==> texts[i] == PartText(parts[i])
    ensures ReadBody(Join(texts, "\\/") + "$") == Some(PartsThen(parts))
  {
    if parts == [] {
      assert "" + "$" == "$";
    } else if |parts| == 1 {
      PartReads(parts[0], "$", Done);
    } else {
      var more := Join(texts[1..], "\\/") + "$";
      JoinReads(parts[1..], texts[1..]);
      SlashReads(more, PartsThen(parts[1..]));
      PartReads(parts[0], "\\/" + more, Then(Literal('/'), PartsThen(parts[1..])));
      Regroup(texts[0], "\\/", Join(texts[1..], "\\/"), "$");
    }
  }

  /** What is built for a route reads back as its parts, each literal spelled out and each parameter a group. */
  lemma {:induction false} BuiltReads(parts: seq<Part>)
    requires AllSupported(parts)
    ensures Read(BuildText(parts)) == Some(RouteRegexOf(parts))
  {
    TextsOf(parts);
    JoinReads(parts, Texts(parts));
    var body := Join(Texts(parts), "\\/") + "$";
    SlashReads(body, PartsThen(parts));
    assert BuildText(parts)[1..] == "\\/" + body;
  }

  /** One capture for each key: the size check of do_routing never fails. */
  lemma {:induction false} KeysCounted(parts: seq<Part>)
    ensures MarkCount(PartsThen(parts)) == |Keys(parts)|
  {
    if parts != [] {
      KeysCounted(parts[1..]);
      var k := if |parts| == 1 then Done else Then(Literal('/'), PartsThen(parts[1..]));
      if parts[0].kind.Equals? {
        SpelledCaptures(parts[0].text, k);
      }
      assert |parts| == 1 ==> parts[1..] == [];
    }
  }

  lemma {:induction false} SpelledCaptures(t: string, k: Regex)
    ensures MarkCount(Spelled(t, k)) == MarkCount(k)
  {
    if t != "" {
      SpelledCaptures(t[1..], k);
    }
  }

  // Segments

  predicate FitsPart(p: Part, text: string) {
    match p.kind
    case Equals => text == p.text
    case MatchAll => text != "" && Slashless(text)
    case Pattern => OneLine(text)
  }

  /** Each text fits the part in its place. */
  ghost predicate Fits(parts: seq<Part>, texts: seq<string>) {
    |texts| == |parts| && forall i :: 0 <= i < |parts| ==> FitsPart(parts[i], texts[i])
  }

  function CapturesOf(parts: seq<Part>, texts: seq<string>): seq<string>
    requires |texts| == |parts|
  {
    if parts == [] then []
    else (if PartKey(parts[0]) == [] then [] else [texts[0]]) + CapturesOf(parts[1..], texts[1..])
  }

  lemma {:induction false} SpelledMatches(t: string, k: Regex, s: string, caps: seq<string>)
    ensures Matches(Spelled(t, k), s, caps) <==> StartsWith(s, t) && Matches(k, s[|t|..], caps)
  {
    if t == "" {
      assert s[..0] == "" && s[0..] == s;
    } else if s != "" && s[0] == t[0] {
      SpelledMatches(t[1..], k, s[1..], caps);
      if |t| <= |s| {
        assert s[1..][|t| - 1..] == s[|t|..];
        assert s[..|t|] == [s[0]] + s[1..][..|t| - 1];
        assert t == [t[0]] + t[1..];
      }
    } else if |t| <= |s| {
      assert s[..|t|][0] == s[0];
    }
  }

  /** What one part does in a match: it takes a text that fits, and a parameter captures it. */
  lemma {:induction false} PartTakes(p: Part, k: Regex, s: string, caps: seq<string>) returns (text: string, rest: string, more: seq<string>)
    requires Matches(PartThen(p, k), s, caps)
    ensures FitsPart(p, text) && s == text + rest
    ensures caps == (if PartKey(p) == [] then [] else [text]) + more && Matches(k, rest, more)
  {
    if p.kind.Equals? {
      SpelledMatches(p.text, k, s, caps);
      text, rest, more := p.text, s[|p.text|..], caps;
      assert s == s[..|p.text|] + rest;
      assert caps == [] + more;
    } else {
      var token := if p.kind.MatchAll? then Segment(p.name != "") else Tail(p.name != "");
      var n: nat, m :| Takes(token, s, n, caps, m) && Matches(k, s[n..], m);
      text, rest, more := s[..n], s[n..], m;
    }
  }

  lemma {:induction false} PartGives(p: Part, k: Regex, text: string, rest: string, more: seq<string>)
    requires FitsPart(p, text) && Matches(k, rest, more)
    ensures Matches(PartThen(p, k), text + rest, (if PartKey(p) == [] then [] else [text]) + more)
  {
    var s := text + rest;
    assert s[..|text|] == text && s[|text|..] == rest;
    if p.kind.Equals? {
      SpelledMatches(p.text, k, s, more);
      assert [] + more == more;
    } else {
      var token := if p.kind.MatchAll? then Segment(p.name != "") else Tail(p.name != "");
      assert Takes(token, s, |text|, (if PartKey(p) == [] then [] else [text]) + more, more);
    }
  }

  lemma {:induction false} PartsTake(parts: seq<Part>, s: string, caps: seq<string>) returns (texts: seq<string>)
    requires Matches(PartsThen(parts), s, caps)
    ensures Fits(parts, texts) && s == Join(texts, "/") && caps == CapturesOf(parts, texts)
  {
    if parts == [] {
      texts := [];
    } else {
      var k := if |parts| == 1 then Done else Then(Literal('/'), PartsThen(parts[1..]));
      var text, rest, more := PartTakes(parts[0], k, s, caps);
      if |parts| == 1 {
        texts := [text];
        assert CapturesOf(parts[1..], texts[1..]) == [];
        assert s == text;
      } else {
        var others := PartsTake(parts[1..], rest[1..], more);
        texts := [text] + others;
        assert texts[1..] == others;
        assert rest == "/" + rest[1..];
        assert s == text + "/" + Join(others, "/");
      }
    }
  }

  lemma {:induction false} PartsGive(parts: seq<Part>, texts: seq<string>)
    requires Fits(parts, texts)
    ensures Matches(PartsThen(parts), Join(texts, "/"), CapturesOf(parts, texts))
  {
    if parts != [] {
      if |parts| == 1 {
        assert Matches(Done, "", []);
        PartGives(parts[0], Done, texts[0], "", []);
        assert texts[0] + "" == texts[0];
        assert CapturesOf(parts[1..], texts[1..]) == [];
      } else {
        var rest := Join(texts[1..], "/");
        PartsGive(parts[1..], texts[1..]);
        assert ("/" + rest)[1..] == rest;
        PartGives(parts[0], Then(Literal('/'), PartsThen(parts[1..])), texts[0], "/" + rest, CapturesOf(parts[1..], texts[1..]));
        assert texts[0] + ("/" + rest) == Join(texts, "/");
      }
    }
  }

  /** `s` is "/" and the texts with "/" between them, and each fits its part. */
  ghost predicate PathFits(parts: seq<Part>, s: string, texts: seq<string>) {
    Fits(parts, texts) && s == "/" + Join(texts, "/")
  }

  /**
   * Compilation keeps the meaning of a route: the regular expression built for it matches a path with
   * certain captures if and only if the path is made of segments that fit the parts, and the captures are
   * the segments of the named parameters.
   */
  lemma {:induction false} RouteMeans(parts: seq<Part>, s: string, caps: seq<string>)
    requires AllSupported(parts)
    ensures Read(BuildText(parts)).Some?
    ensures Matches(Read(BuildText(parts)).value, s, caps)
            <==> exists texts :: PathFits(parts, s, texts) && caps == CapturesOf(parts, texts)
  {
    BuiltReads(parts);
    if Matches(RouteRegexOf(parts), s, caps) {
      var texts := PartsTake(parts, s[1..], caps);
      assert s == "/" + s[1..];
      assert PathFits(parts, s, texts);
    }
    forall texts | PathFits(parts, s, texts) && caps == CapturesOf(parts, texts)
      ensures Matches(RouteRegexOf(parts), s, caps)
    {
      PartsGive(parts, texts);
      assert s[1..] == Join(texts, "/");
    }
  }

  // The captures are unique

  /** A route as parse_route makes it: literals contain no '/', and a user expression stands last. */
  ghost predicate TailLast(parts: seq<Part>) {
    forall i :: 0 <= i < |parts| ==>
      && (parts[i].kind.Equals? ==> Slashless(parts[i].text))
      && (parts[i].kind.Pattern? ==> i == |parts| - 1)
  }

  lemma {:induction false} SlashSplit(a: string, b: string, c: string, d: string)
    requires Slashless(a) && Slashless(c) && a + "/" + b == c + "/" + d
    ensures a == c && b == d
  {
    var s := a + "/" + b;
    assert s[|a|] == '/' && s[|c|] == '/';
    assert s[..|a|] == a && s[..|c|] == c && s[|a| + 1..] == b && s[|c| + 1..] == d;
  }

  /** The segments of a path are determined by the path. */
  lemma {:induction false} TextsUnique(parts: seq<Part>, t: seq<string>, u: seq<string>)
    requires TailLast(parts) && Fits(parts, t) && Fits(parts, u) && Join(t, "/") == Join(u, "/")
    ensures t == u
  {
    if |parts| > 1 {
      assert FitsPart(parts[0], t[0]) && FitsPart(parts[0], u[0]);
      SlashSplit(t[0], Join(t[1..], "/"), u[0], Join(u[1..], "/"));
      TextsUnique(parts[1..], t[1..], u[1..]);
      assert t == [t[0]] + t[1..] && u == [u[0]] + u[1..];
    } else if |parts| == 1 {
      assert t == [t[0]] && u == [u[0]];
    }
  }

  /** No two matches of a route on the same path differ in what they capture. */
  lemma {:induction false} CapturesUnique(parts: seq<Part>, s: string, a: seq<string>, b: seq<string>)
    requires AllSupported(parts) && TailLast(parts)
    requires Matches(RouteRegexOf(parts), s, a) && Matches(RouteRegexOf(parts), s, b)
    ensures a == b && |a| == |Keys(parts)|
  {
    var t := PartsTake(parts, s[1..], a);
    var u := PartsTake(parts, s[1..], b);
    TextsUnique(parts, t, u);
    CaptureCount(RouteRegexOf(parts), s, a);
    KeysCounted(parts);
  }

  // Keys and captures

  /** The place of part i, if it has a key, among the keys. */
  function KeyIndex(parts: seq<Part>, i: nat): nat
    requires i <= |parts|
  {
    if i == 0 then 0 else |PartKey(parts[0])| + KeyIndex(parts[1..], i - 1)
  }

  /** Key and capture at one place belong to one part. */
  lemma {:induction false} KeyHolds(parts: seq<Part>, texts: seq<string>, i: nat)
    requires i < |parts| == |texts| && PartKey(parts[i]) != []
    ensures var k := KeyIndex(parts, i);
            && k < |Keys(parts)| == |CapturesOf(parts, texts)|
            && Keys(parts)[k] == parts[i].name && CapturesOf(parts, texts)[k] == texts[i]
  {
    if i > 0 {
      KeyHolds(parts[1..], texts[1..], i - 1);
    } else {
      SameCount(parts[1..], texts[1..]);
    }
  }

  lemma {:induction false} SameCount(parts: seq<Part>, texts: seq<string>)
    requires |parts| == |texts|
    ensures |Keys(parts)| == |CapturesOf(parts, texts)|
  {
    if parts != [] {
      SameCount(parts[1..], texts[1..]);
    }
  }

  lemma {:induction false} KeyOwner(parts: seq<Part>, k: nat) returns (i: nat)
    requires k < |Keys(parts)|
    ensures i < |parts| && PartKey(parts[i]) != [] && KeyIndex(parts, i) == k
  {
    if k < |PartKey(parts[0])| {
      i := 0;
    } else {
      var j := KeyOwner(parts[1..], k - |PartKey(parts[0])|);
      i := j + 1;
    }
  }

  lemma {:induction false} KeyOrder(parts: seq<Part>, i: nat, j: nat)
    requires i <= j < |parts|
    ensures KeyIndex(parts, i) <= KeyIndex(parts, j)
    ensures i < j && PartKey(parts[i]) != [] ==> KeyIndex(parts, i) < KeyIndex(parts, j)
  {
    if i > 0 {
      KeyOrder(parts[1..], i - 1, j - 1);
    }
  }

  /** Part i has a name, and no part behind it has the same. */
  ghost predicate LastNamed(parts: seq<Part>, i: nat) {
    i < |parts| && PartKey(parts[i]) != [] && forall j :: i < j < |parts| ==> PartKey(parts[j]) != PartKey(parts[i])
  }

  /** Its key is the last of that name. */
  lemma {:induction false} LastKey(parts: seq<Part>, i: nat)
    requires LastNamed(parts, i)
    ensures KeyIndex(parts, i) < |Keys(parts)|
    ensures forall k :: KeyIndex(parts, i) < k < |Keys(parts)| ==> Keys(parts)[k] != parts[i].name
  {
    var texts := seq(|parts|, n requires 0 <= n < |parts| => "");
    KeyHolds(parts, texts, i);
    forall k | KeyIndex(parts, i) < k < |Keys(parts)| ensures Keys(parts)[k] != parts[i].name {
      var j := KeyOwner(parts, k);
      KeyHolds(parts, texts, j);
      if j <= i {
        KeyOrder(parts, j, i);
      }
    }
  }
}
