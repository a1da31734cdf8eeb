/** The router: an immutable routing snapshot that updates replace, first-match dispatch on it, and the middleware chain. */
module Router {
  import opened Outcomes
  import opened RouteRegex
  import opened RouteCompile
  import opened RouteMeaning

  /** Handlers and middleware are known by number. */
  type Id = nat

  /** route_entry */
  datatype Entry = Entry(regex: Regex, keys: seq<string>, middleware: seq<Id>, handler: Id, uri: string)

  /** The multimap from position to middleware, in iteration order. */
  datatype Chain = End | Link(pos: int, mw: Id, rest: Chain)

  /** routing_info */
  datatype Routing = Routing(
    middleware: Chain, routes: map<string, seq<Entry>>, debugMode: bool, notfound: Option<Id>, error: Option<Id>)

  const EMPTY := Routing(End, map[], false, None, None)

  // Updates

  datatype Update =
    | AddRoute(methods: seq<string>, uris: seq<string>, middleware: seq<Id>, handler: Id)
    | Use(mw: Id, pos: int)
    | SetDebugMode(b: bool)
    | SetNotFound(fn: Id)
    | SetError(fn: Id)

  /** multimap::insert: behind the entries of the same position. */
  function Inserted(chain: Chain, pos: int, mw: Id): Chain {
    match chain
    case End => Link(pos, mw, End)
    case Link(p, m, rest) => if pos < p then Link(pos, mw, chain) else Link(p, m, Inserted(rest, pos, mw))
  }

  function Parts(uri: string): seq<Part> {
    SplitPieces(uri, 0);
    ParseParts(Split(uri, 0))
  }

  ghost predicate SupportedUri(uri: string) {
    AllSupported(Parts(uri))
  }

  function Compiled(uri: string, middleware: seq<Id>, handler: Id): Entry
    requires SupportedUri(uri)
  {
    BuiltReads(Parts(uri));
    Entry(Read(BuildText(Parts(uri))).value, Keys(Parts(uri)), middleware, handler, uri)
  }

  /** The entries a handler's routes compile to. */
  function Entries(u: Update): seq<Entry>
    requires u.AddRoute? && SupportedUpdate(u)
  {
    seq(|u.uris|, i requires 0 <= i < |u.uris| => Compiled(u.uris[i], u.middleware, u.handler))
  }

  /** info->routes[method].push_back */
  function PushBack(routes: map<string, seq<Entry>>, verb: string, e: Entry): map<string, seq<Entry>> {
    routes[verb := (if verb in routes then routes[verb] else []) + [e]]
  }

  /** push_back for each entry. */
  function Pushed(routes: map<string, seq<Entry>>, verb: string, entries: seq<Entry>): map<string, seq<Entry>> {
    if entries == [] then routes
    else routes[verb := (if verb in routes then routes[verb] else []) + entries]
  }

  function PushedAll(routes: map<string, seq<Entry>>, verbs: seq<string>, entries: seq<Entry>): map<string, seq<Entry>> {
    if verbs == [] then routes
    else Pushed(PushedAll(routes, verbs[..|verbs| - 1], entries), verbs[|verbs| - 1], entries)
  }

  ghost predicate SupportedUpdate(u: Update) {
    u.AddRoute? ==> forall i :: 0 <= i < |u.uris| ==> SupportedUri(u.uris[i])
  }

  /** The copy of a snapshot with an update applied. */
  function Apply(info: Routing, u: Update): Routing
    requires SupportedUpdate(u)
  {
    match u
    case AddRoute(methods, _, _, _) => info.(routes := PushedAll(info.routes, methods, Entries(u)))
    case Use(mw, pos) => info.(middleware := Inserted(info.middleware, pos, mw))
    case SetDebugMode(b) => info.(debugMode := b)
    case SetNotFound(fn) => info.(notfound := Some(fn))
    case SetError(fn) => info.(error := Some(fn))
  }

  lemma {:induction false} PushedOneMore(routes: map<string, seq<Entry>>, verb: string, es: seq<Entry>, e: Entry)
    ensures Pushed(routes, verb, es + [e]) == PushBack(Pushed(routes, verb, es), verb, e)
  {
    var before := if verb in routes then routes[verb] else [];
    assert before + es + [e] == before + (es + [e]);
    if es == [] {
      assert es + [e] == [e];
    }
  }

  // Dispatch

  /** What a request meets: the not-found handler, the failed size check, or an entry with its parameters. */
  datatype Dispatch = NotFound | BadSize | Routed(entry: Entry, params: map<string, string>)

  /** The parameters a connection has, and the first n captures added. */
  function Params(had: map<string, string>, keys: seq<string>, caps: seq<string>, n: nat): map<string, string>
    requires n <= |keys| && n <= |caps|
  {
    if n == 0 then had else Params(had, keys, caps, n - 1)[keys[n - 1] := caps[n - 1]]
  }

  /** What the search does with an entry that matches. */
  function Chosen(e: Entry, caps: seq<string>, had: map<string, string>): Dispatch {
    if |caps| != |e.keys| then BadSize else Routed(e, Params(had, e.keys, caps, |e.keys|))
  }

  function FirstMatch(entries: seq<Entry>, path: string, had: map<string, string>, i: nat): Dispatch
    requires i <= |entries|
    decreases |entries| - i
  {
    if i == |entries| then NotFound
    else
      var e := entries[i];
      match Match(e.regex, path)
      case None => FirstMatch(entries, path, had, i + 1)
      case Some(caps) => Chosen(e, caps, had)
  }

  /** `had` are the parameters the connection has already. */
  function Dispatched(info: Routing, verb: string, path: string, had: map<string, string>): Dispatch {
    if verb in info.routes then FirstMatch(info.routes[verb], path, had, 0) else NotFound
  }

  /** The search of do_routing. */
  method DoRouting(info: Routing, verb: string, path: string, had: map<string, string>) returns (d: Dispatch)
    ensures d == Dispatched(info, verb, path, had)
  {
    if verb !in info.routes {
      return NotFound;
    }
    var entries := info.routes[verb];
    var i := 0;
    while i < |entries|
      invariant 0 <= i <= |entries| && FirstMatch(entries, path, had, i) == FirstMatch(entries, path, had, 0)
    {
      var e := entries[i];
      var matches := Match(e.regex, path);
      if matches.Some? {
        var caps := matches.value;
        if |caps| + 1 != |e.keys| + 1 {
          return BadSize;
        }
        var params := had;
        var k := 0;
        while k < |e.keys|
          invariant 0 <= k <= |e.keys| && params == Params(had, e.keys, caps, k)
        {
          params := params[e.keys[k] := caps[k]];
          k := k + 1;
        }
        return Routed(e, params);
      }
      i := i + 1;
    }
    return NotFound;
  }

  class RouterObject {
    var routing: Routing

    constructor ()
      ensures routing == EMPTY
    {
      routing := EMPTY;
    }

    method CompileRoute(uri: string, middleware: seq<Id>, handler: Id) returns (entry: Entry)
      requires SupportedUri(uri)
      ensures entry == Compiled(uri, middleware, handler)
    {
      var parts := ParseRoute(uri);
      var text, keys := BuildRouteRegex(parts);
      BuiltReads(parts);
      entry := Entry(Read(text).value, keys, middleware, handler, uri);
    }

    /** The inner loop: the routes of one handler under one verb. */
    method RouteVerb(routes: map<string, seq<Entry>>, verb: string, ghost u: Update, ghost entries: seq<Entry>,
                     uris: seq<string>, middleware: seq<Id>, handler: Id)
      returns (r: map<string, seq<Entry>>)
      requires u.AddRoute? && u == AddRoute(u.methods, uris, middleware, handler) && SupportedUpdate(u)
      requires entries == Entries(u)
      ensures r == Pushed(routes, verb, entries)
    {
      r := routes;
      var j := 0;
      while j < |uris|
        invariant 0 <= j <= |uris| == |entries| && r == Pushed(routes, verb, entries[..j])
      {
        var entry := CompileNext(u, j, uris[j], middleware, handler);
        PushedOneMore(routes, verb, entries[..j], entry);
        assert entries[..j + 1] == entries[..j] + [entry];
        r := PushBack(r, verb, entry);
        j := j + 1;
      }
      assert entries[..|uris|] == entries;
    }

    method CompileNext(ghost u: Update, ghost j: nat, uri: string, middleware: seq<Id>, handler: Id) returns (entry: Entry)
      requires u.AddRoute? && j < |u.uris| && uri == u.uris[j] && middleware == u.middleware && handler == u.handler
      requires SupportedUpdate(u)
      ensures entry == Entries(u)[j]
    {
      entry := CompileRoute(uri, middleware, handler);
    }

    method Route(methods: seq<string>, uris: seq<string>, middleware: seq<Id>, handler: Id)
      requires SupportedUpdate(AddRoute(methods, uris, middleware, handler))
      modifies this
      ensures routing == Apply(old(routing), AddRoute(methods, uris, middleware, handler))
    {
      ghost var u := AddRoute(methods, uris, middleware, handler);
      ghost var entries := Entries(u);
      var info := routing;
      var routes := info.routes;
      var i := 0;
      while i < |methods|
        invariant 0 <= i <= |methods| && routes == PushedAll(info.routes, methods[..i], entries)
      {
        assert methods[..i + 1][..i] == methods[..i];
        routes := RouteVerb(routes, methods[i], u, entries, uris, middleware, handler);
        i := i + 1;
      }
      assert methods[..|methods|] == methods;
      routing := info.(routes := routes);
    }

    method UseMiddleware(m: Id, p: int)
      modifies this
      ensures routing == Apply(old(routing), Use(m, p))
    {
      var info := routing;
      info := info.(middleware := Inserted(info.middleware, p, m));
      routing := info;
    }

    method DebugMode(b: bool)
      modifies this
      ensures routing == Apply(old(routing), SetDebugMode(b))
    {
      routing := routing.(debugMode := b);
    }
  }

  // What dispatch means

  /** The path fits the segments of a route. */
  ghost predicate FitsRoute(uri: string, path: string) {
    exists texts :: PathFits(Parts(uri), path, texts)
  }

  /** An entry that was compiled from its own route. */
  ghost predicate IsCompiled(e: Entry) {
    SupportedUri(e.uri) && e == Compiled(e.uri, e.middleware, e.handler)
  }

  /** A compiled entry matches exactly the paths that fit its route. */
  lemma {:induction false} EntryMatches(e: Entry, path: string)
    requires IsCompiled(e)
    ensures Match(e.regex, path).Some? <==> FitsRoute(e.uri, path)
    ensures Match(e.regex, path).Some? ==>
              |Match(e.regex, path).value| == |e.keys|
              && exists texts :: PathFits(Parts(e.uri), path, texts) && Match(e.regex, path).value == CapturesOf(Parts(e.uri), texts)
  {
    var parts := Parts(e.uri);
    BuiltReads(parts);
    MatchExact(e.regex, path);
    if Match(e.regex, path).Some? {
      var caps := Match(e.regex, path).value;
      RouteMeans(parts, path, caps);
      CaptureCount(e.regex, path, caps);
      KeysCounted(parts);
      var texts :| PathFits(parts, path, texts) && caps == CapturesOf(parts, texts);
    }
    forall texts | PathFits(parts, path, texts) ensures Match(e.regex, path).Some? {
      RouteMeans(parts, path, CapturesOf(parts, texts));
      assert Matches(e.regex, path, CapturesOf(parts, texts));
    }
  }

  lemma {:induction false} EntryFits(e: Entry, path: string)
    requires IsCompiled(e)
    ensures Match(e.regex, path).Some? <==> FitsRoute(e.uri, path)
    ensures Match(e.regex, path).Some? ==> |Match(e.regex, path).value| == |e.keys|
  {
    EntryMatches(e, path);
  }

  lemma {:induction false} SearchStops(entries: seq<Entry>, path: string, had: map<string, string>, i: nat) returns (k: nat)
    requires i <= |entries|
    ensures i <= k <= |entries|
    ensures forall j :: i <= j < k ==> Match(entries[j].regex, path).None?
    ensures k == |entries| ==> FirstMatch(entries, path, had, i) == NotFound
    ensures k < |entries| ==>
              var m := Match(entries[k].regex, path);
              m.Some? && FirstMatch(entries, path, had, i) == Chosen(entries[k], m.value, had)
    decreases |entries| - i
  {
    if i == |entries| || Match(entries[i].regex, path).Some? {
      return i;
    }
    k := SearchStops(entries, path, had, i + 1);
  }

  ghost predicate AllCompiled(entries: seq<Entry>) {
    forall j :: 0 <= j < |entries| ==> IsCompiled(entries[j])
  }

  /**
   * The path is made of segments that fit the route, each parameter holds the segment of the last part of
   * its name, and parameters the route does not name are what they were.
   */
  ghost predicate Holds(parts: seq<Part>, path: string, texts: seq<string>, had: map<string, string>, params: map<string, string>) {
    && PathFits(parts, path, texts)
    && (forall i: nat :: LastNamed(parts, i) ==> parts[i].name in params && params[parts[i].name] == texts[i])
    && forall name :: name !in Keys(parts) ==> (name in params <==> name in had) && (name in params ==> params[name] == had[name])
  }

  /** A parameter without a key is what it was. */
  lemma {:induction false} ParamKept(had: map<string, string>, keys: seq<string>, caps: seq<string>, n: nat, key: string)
    requires n <= |keys| && n <= |caps| && key !in keys[..n]
    ensures var params := Params(had, keys, caps, n);
            (key in params <==> key in had) && (key in params ==> params[key] == had[key])
  {
    if n > 0 {
      assert keys[..n] == keys[..n - 1] + [keys[n - 1]];
      ParamKept(had, keys, caps, n - 1, key);
    }
  }

  /** A parameter has what the last key of its name captured. */
  lemma {:induction false} ParamsAre(had: map<string, string>, keys: seq<string>, caps: seq<string>, n: nat, k: nat)
    requires k < n <= |keys| && n <= |caps| && forall j :: k < j < n ==> keys[j] != keys[k]
    ensures var params := Params(had, keys, caps, n);
            keys[k] in params && params[keys[k]] == caps[k]
  {
    if k < n - 1 {
      ParamsAre(had, keys, caps, n - 1, k);
    }
  }

  lemma {:induction false} CapturesHold(parts: seq<Part>, path: string, texts: seq<string>, had: map<string, string>)
    requires PathFits(parts, path, texts)
    ensures var keys, caps := Keys(parts), CapturesOf(parts, texts);
            |caps| == |keys| && Holds(parts, path, texts, had, Params(had, keys, caps, |keys|))
  {
    var keys, caps := Keys(parts), CapturesOf(parts, texts);
    SameCount(parts, texts);
    var params := Params(had, keys, caps, |keys|);
    forall i: nat | LastNamed(parts, i) ensures parts[i].name in params && params[parts[i].name] == texts[i] {
      KeyHolds(parts, texts, i);
      LastKey(parts, i);
      ParamsAre(had, keys, caps, |keys|, KeyIndex(parts, i));
    }
    forall name | name !in keys
      ensures (name in params <==> name in had) && (name in params ==> params[name] == had[name])
    {
      assert keys[..|keys|] == keys;
      ParamKept(had, keys, caps, |keys|, name);
    }
  }

  /**
   * do_routing picks the first entry whose route the path fits, if there is one; its size check never
   * fails, and the parameters hold the segments of the path.
   */
  lemma {:induction false} FirstFit(entries: seq<Entry>, path: string, had: map<string, string>) returns (k: nat)
    requires AllCompiled(entries)
    ensures k <= |entries|
    ensures forall j :: 0 <= j < k ==> !FitsRoute(entries[j].uri, path)
    ensures var d := FirstMatch(entries, path, had, 0);
            if k == |entries| then d == NotFound
            else d.Routed? && d.entry == entries[k] && exists texts :: Holds(Parts(entries[k].uri), path, texts, had, d.params)
  {
    k := SearchStops(entries, path, had, 0);
    forall j | 0 <= j < k ensures !FitsRoute(entries[j].uri, path) {
      EntryFits(entries[j], path);
    }
    if k < |entries| {
      var e := entries[k];
      EntryMatches(e, path);
      var texts :| PathFits(Parts(e.uri), path, texts) && Match(e.regex, path).value == CapturesOf(Parts(e.uri), texts);
      CapturesHold(Parts(e.uri), path, texts, had);
    }
  }

  /** A route with a user expression nowhere but at its end leaves one way only to take a path apart. */
  lemma {:induction false} SegmentsUnique(uri: string, path: string, t: seq<string>, u: seq<string>)
    requires forall i :: 0 <= i < |Parts(uri)| - 1 ==> !Parts(uri)[i].kind.Pattern?
    requires PathFits(Parts(uri), path, t) && PathFits(Parts(uri), path, u)
    ensures t == u
  {
    ParsedTailLast(uri);
    assert path[1..] == Join(t, "/") && path[1..] == Join(u, "/");
    TextsUnique(Parts(uri), t, u);
  }

  /** Every entry of a snapshot was compiled from its own route. */
  ghost predicate Built(info: Routing) {
    BuiltRoutes(info.routes)
  }

  ghost predicate BuiltRoutes(routes: map<string, seq<Entry>>) {
    forall verb :: verb in routes ==> AllCompiled(routes[verb])
  }

  lemma EntriesCompiled(u: Update)
    requires u.AddRoute? && SupportedUpdate(u)
    ensures AllCompiled(Entries(u))
  {
  }

  lemma AppendCompiled(a: seq<Entry>, b: seq<Entry>)
    requires AllCompiled(a) && AllCompiled(b)
    ensures AllCompiled(a + b)
  {
  }

  lemma {:induction false} PushOneBuilt(routes: map<string, seq<Entry>>, verb: string, entries: seq<Entry>)
    requires AllCompiled(entries) && BuiltRoutes(routes)
    ensures BuiltRoutes(Pushed(routes, verb, entries))
  {
    AppendCompiled(if verb in routes then routes[verb] else [], entries);
  }

  lemma {:induction false} PushedBuilt(routes: map<string, seq<Entry>>, verbs: seq<string>, entries: seq<Entry>)
    requires AllCompiled(entries) && BuiltRoutes(routes)
    ensures BuiltRoutes(PushedAll(routes, verbs, entries))
  {
    if verbs != [] {
      PushedBuilt(routes, verbs[..|verbs| - 1], entries);
      PushOneBuilt(PushedAll(routes, verbs[..|verbs| - 1], entries), verbs[|verbs| - 1], entries);
    }
  }

  lemma {:induction false} ApplyBuilt(info: Routing, u: Update)
    requires Built(info) && SupportedUpdate(u)
    ensures Built(Apply(info, u))
  {
    if u.AddRoute? {
      EntriesCompiled(u);
      PushedBuilt(info.routes, u.methods, Entries(u));
    }
  }

  /** Literal segments contain no '/': a route without user expressions has one way only to match a path. */
  lemma {:induction false} ParsedTailLast(uri: string)
    requires forall i :: 0 <= i < |Parts(uri)| - 1 ==> !Parts(uri)[i].kind.Pattern?
    ensures TailLast(Parts(uri))
  {
    SplitPieces(uri, 0);
  }
}
