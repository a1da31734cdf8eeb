/**
 * The regular expressions the router builds: an ECMAScript subset, what its text means, which texts a
 * regular expression matches, and a backtracking matcher that finds exactly those matches.
 */
module RouteRegex {
  import opened Outcomes

  /** `Segment` is [^\/]+? and `Tail` is .*?, in a capturing or a plain group. */
  datatype Token = Literal(c: char) | Segment(capture: bool) | Tail(capture: bool)

  datatype Regex = Done | Then(token: Token, rest: Regex)

  const SYNTAX := "\\.*+?^${}()|[]"

  const CAPTURED_SEGMENT := "([^\\/]+?)"
  const PLAIN_SEGMENT := "(?:[^\\/]+?)"
  const CAPTURED_TAIL := "(.*?)"
  const PLAIN_TAIL := "(?:.*?)"

  /** The place of a syntax character in SYNTAX; any other character has none. */
  function SyntaxIndex(c: char): (i: nat)
    ensures i <= |SYNTAX|
  {
    match c
    case '\\' => 0
    case '.' => 1
    case '*' => 2
    case '+' => 3
    case '?' => 4
    case '^' => 5
    case '$' => 6
    case '{' => 7
    case '}' => 8
    case '(' => 9
    case ')' => 10
    case '|' => 11
    case '[' => 12
    case ']' => 13
    case _ => 14
  }

  predicate IsSyntax(c: char) {
    SyntaxIndex(c) < |SYNTAX|
  }

  lemma {:induction false} SyntaxAt(c: char, n: nat)
    requires n < |SYNTAX|
    ensures SyntaxIndex(c) == n <==> c == SYNTAX[n]
  {
    assert SYNTAX == ['\\', '.', '*', '+', '?', '^', '$', '{', '}', '(', ')', '|', '[', ']'];
  }

  function Prefix(token: Token, r: Option<Regex>): Option<Regex> {
    match r case Some(rest) => Some(Then(token, rest)) case None => None
  }

  predicate StartsWith(s: string, p: string) {
    |p| <= |s| && s[..|p|] == p
  }

  /** The regular expression a text up to its closing '$' denotes; None outside the subset. */
  function ReadBody(s: string): Option<Regex>
    decreases |s|
  {
    if s == "" then None
    else if s[0] == '(' then
      if StartsWith(s, CAPTURED_SEGMENT) then Prefix(Segment(true), ReadBody(s[|CAPTURED_SEGMENT|..]))
      else if StartsWith(s, PLAIN_SEGMENT) then Prefix(Segment(false), ReadBody(s[|PLAIN_SEGMENT|..]))
      else if StartsWith(s, CAPTURED_TAIL) then Prefix(Tail(true), ReadBody(s[|CAPTURED_TAIL|..]))
      else if StartsWith(s, PLAIN_TAIL) then Prefix(Tail(false), ReadBody(s[|PLAIN_TAIL|..]))
      else None
    else if s[0] == '\\' then
      // an escaped punctuation character stands for itself
      if |s| > 1 && (IsSyntax(s[1]) || s[1] == '/') then Prefix(Literal(s[1]), ReadBody(s[2..])) else None
    else if s == "$" then Some(Done)
    else if IsSyntax(s[0]) then None
    else Prefix(Literal(s[0]), ReadBody(s[1..]))
  }

  function Read(text: string): Option<Regex> {
    if text != "" && text[0] == '^' then ReadBody(text[1..]) else None
  }

  // Which texts match

  predicate Slashless(s: string) {
    '/' !in s
  }

  /** What '.' does not match. */
  predicate OneLine(s: string) {
    '\n' !in s && '\r' !in s
  }

  /** The texts a group matches. */
  predicate Groups(token: Token, s: string)
    requires !token.Literal?
  {
    if token.Segment? then s != "" && Slashless(s) else OneLine(s)
  }

  function Captured(token: Token, s: string): seq<string>
    requires !token.Literal?
  {
    if token.capture then [s] else []
  }

  /** The group takes the first k bytes of `s`; the groups after it capture `more`. */
  predicate Takes(token: Token, s: string, k: nat, caps: seq<string>, more: seq<string>)
    requires !token.Literal?
  {
    k <= |s| && Groups(token, s[..k]) && caps == Captured(token, s[..k]) + more
  }

  /** `r` matches all of `s`, and its capturing groups take the texts `caps`. */
  ghost predicate Matches(r: Regex, s: string, caps: seq<string>) {
    match r
    case Done => s == "" && caps == []
    case Then(Literal(c), rest) => s != "" && s[0] == c && Matches(rest, s[1..], caps)
    case Then(token, rest) =>
      exists k: nat, more :: Takes(token, s, k, caps, more) && Matches(rest, s[k..], more)
  }

  /** How many captures a match reports. */
  function MarkCount(r: Regex): nat {
    match r
    case Done => 0
    case Then(token, rest) => MarkCount(rest) + if !token.Literal? && token.capture then 1 else 0
  }

  /** A backtracking matcher; groups take as little as they can. */
  function Match(r: Regex, s: string): Option<seq<string>>
    decreases r, 1, 0
  {
    match r
    case Done => if s == "" then Some([]) else None
    case Then(Literal(c), rest) => if s != "" && s[0] == c then Match(rest, s[1..]) else None
    case Then(token, rest) => MatchGroup(token, rest, s, 0)
  }

  /** The group takes k bytes, or failing that more. */
  function MatchGroup(token: Token, rest: Regex, s: string, k: nat): Option<seq<string>>
    requires !token.Literal? && k <= |s|
    decreases rest, 2, |s| - k
  {
    var more := if Groups(token, s[..k]) then Match(rest, s[k..]) else None;
    if more.Some? then Some(Captured(token, s[..k]) + more.value)
    else if k == |s| then None
    else MatchGroup(token, rest, s, k + 1)
  }

  lemma {:induction false} MatchSound(r: Regex, s: string)
    ensures Match(r, s).Some? ==> Matches(r, s, Match(r, s).value)
    decreases r, 1, 0
  {
    match r
    case Done =>
    case Then(Literal(c), rest) =>
      if s != "" {
        MatchSound(rest, s[1..]);
      }
    case Then(token, rest) =>
      MatchGroupSound(token, rest, s, 0);
  }

  lemma {:induction false} MatchGroupSound(token: Token, rest: Regex, s: string, k: nat)
    requires !token.Literal? && k <= |s|
    ensures MatchGroup(token, rest, s, k).Some? ==> Matches(Then(token, rest), s, MatchGroup(token, rest, s, k).value)
    decreases rest, 2, |s| - k
  {
    var more := if Groups(token, s[..k]) then Match(rest, s[k..]) else None;
    if more.Some? {
      MatchSound(rest, s[k..]);
      assert Takes(token, s, k, MatchGroup(token, rest, s, k).value, more.value);
    } else if k < |s| {
      MatchGroupSound(token, rest, s, k + 1);
    }
  }

  lemma {:induction false} MatchComplete(r: Regex, s: string, caps: seq<string>)
    requires Matches(r, s, caps)
    ensures Match(r, s).Some?
    decreases r, 1, 0
  {
    match r
    case Done =>
    case Then(Literal(c), rest) => MatchComplete(rest, s[1..], caps);
    case Then(token, rest) =>
      var k: nat, more :| Takes(token, s, k, caps, more) && Matches(rest, s[k..], more);
      MatchComplete(rest, s[k..], more);
      MatchGroupComplete(token, rest, s, 0, k);
  }

  lemma {:induction false} MatchGroupComplete(token: Token, rest: Regex, s: string, j: nat, k: nat)
    requires !token.Literal? && j <= k <= |s| && Groups(token, s[..k]) && Match(rest, s[k..]).Some?
    ensures MatchGroup(token, rest, s, j).Some?
    decreases k - j
  {
    if j < k {
      MatchGroupComplete(token, rest, s, j + 1, k);
    }
  }

  /** The matcher finds a match exactly when there is one, and what it finds is one. */
  lemma {:induction false} MatchExact(r: Regex, s: string)
    ensures Match(r, s).Some? <==> exists caps :: Matches(r, s, caps)
    ensures Match(r, s).Some? ==> Matches(r, s, Match(r, s).value)
  {
    MatchSound(r, s);
    if Match(r, s).Some? {
      var caps := Match(r, s).value;
      assert Matches(r, s, caps);
    } else {
      forall caps | Matches(r, s, caps) ensures false {
        MatchComplete(r, s, caps);
      }
    }
  }

  /** Every match reports as many captures as there are capturing groups. */
  lemma {:induction false} CaptureCount(r: Regex, s: string, caps: seq<string>)
    requires Matches(r, s, caps)
    ensures |caps| == MarkCount(r)
  {
    match r
    case Done =>
    case Then(Literal(c), rest) => CaptureCount(rest, s[1..], caps);
    case Then(token, rest) =>
      var k: nat, more :| Takes(token, s, k, caps, more) && Matches(rest, s[k..], more);
      CaptureCount(rest, s[k..], more);
  }
}
