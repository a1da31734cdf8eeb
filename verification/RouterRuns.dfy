/** Requests against a router that is being reconfigured: snapshots, middleware order, and runs of all threads. */
module RouterRuns {
  import opened Outcomes
  import opened Router

  // Middleware order

  ghost predicate SortedChain(chain: Chain) {
    chain.Link? ==> SortedChain(chain.rest) && (chain.rest.Link? ==> chain.pos <= chain.rest.pos)
  }

  /** The middleware at one position, in iteration order. */
  function AtPos(chain: Chain, p: int): seq<Id> {
    match chain
    case End => []
    case Link(pos, mw, rest) => (if pos == p then [mw] else []) + AtPos(rest, p)
  }

  lemma {:induction false} NoneBelow(chain: Chain, p: int)
    requires SortedChain(chain) && (chain.Link? ==> p < chain.pos)
    ensures AtPos(chain, p) == []
  {
    if chain.Link? {
      NoneBelow(chain.rest, p);
    }
  }

  /** Insertion keeps the order of positions and puts the new one behind those of its own position. */
  lemma {:induction false} InsertedStable(chain: Chain, pos: int, mw: Id, p: int)
    requires SortedChain(chain)
    ensures SortedChain(Inserted(chain, pos, mw))
    ensures AtPos(Inserted(chain, pos, mw), p) == AtPos(chain, p) + if p == pos then [mw] else []
  {
    if chain.Link? {
      if pos < chain.pos {
        if p == pos {
          NoneBelow(chain, p);
        }
      } else {
        InsertedStable(chain.rest, pos, mw, p);
      }
    }
  }

  // A request

  /** The connection a middleware is given: the method and the path do_routing looks at. */
  datatype Con = Con(verb: string, path: string)

  /** What happens to a request, in order; a handler finds the parameters. */
  datatype Event = Entered(mw: Id) | Handled(entry: Entry, params: map<string, string>) | Missed | Broken

  /** The events so far, and the parameters on the connection. */
  datatype Track = Track(events: seq<Event>, params: map<string, string>)

  function Noted(t: Track, e: Event): Track {
    t.(events := t.events + [e])
  }

  /**
   * The connections a middleware passes to `next`, given the one it was called with: none, one, several, and
   * possibly others than its own (rewrite passes one with another path).
   */
  type Calls = (Id, Con) -> seq<Con>

  function RunGlobal(info: Routing, it: Chain, calls: Calls, con: Con, t: Track): Track
    decreases it, 0
  {
    match it
    case End => RouteOn(info, calls, con, t)
    case Link(_, mw, rest) => GlobalNexts(info, rest, calls, calls(mw, con), Noted(t, Entered(mw)))
  }

  function GlobalNexts(info: Routing, it: Chain, calls: Calls, cons: seq<Con>, t: Track): Track
    decreases it, 1, |cons|
  {
    if cons == [] then t
    else RunGlobal(info, it, calls, cons[|cons| - 1], GlobalNexts(info, it, calls, cons[..|cons| - 1], t))
  }

  function RouteOn(info: Routing, calls: Calls, con: Con, t: Track): Track {
    match Dispatched(info, con.verb, con.path, t.params)
    case NotFound => Noted(t, Missed)
    case BadSize => Noted(t, Broken)
    case Routed(e, params) => RunLocal(e, 0, calls, con, t.(params := params))
  }

  function RunLocal(e: Entry, it: nat, calls: Calls, con: Con, t: Track): Track
    requires it <= |e.middleware|
    decreases |e.middleware| - it, 0
  {
    if it == |e.middleware| then Noted(t, Handled(e, t.params))
    else LocalNexts(e, it + 1, calls, calls(e.middleware[it], con), Noted(t, Entered(e.middleware[it])))
  }

  function LocalNexts(e: Entry, it: nat, calls: Calls, cons: seq<Con>, t: Track): Track
    requires it <= |e.middleware|
    decreases |e.middleware| - it, 1, |cons|
  {
    if cons == [] then t
    else RunLocal(e, it, calls, cons[|cons| - 1], LocalNexts(e, it, calls, cons[..|cons| - 1], t))
  }

  /** on_request on the snapshot it loaded; the parameters start empty. */
  function Served(info: Routing, calls: Calls, con: Con): Track {
    RunGlobal(info, info.middleware, calls, con, Track([], map[]))
  }

  class Request {
    var events: seq<Event>
    var params: map<string, string>

    ghost function State(): Track
      reads this
    {
      Track(events, params)
    }

    constructor ()
      ensures State() == Track([], map[])
    {
      events, params := [], map[];
    }

    method Note(e: Event)
      modifies this`events
      ensures State() == Noted(old(State()), e)
    {
      events := events + [e];
    }

    /** mw_helper_global: each middleware is given the rest of the chain as `next`; do_routing ends it. */
    method MwHelperGlobal(info: Routing, con: Con, calls: Calls, it: Chain)
      modifies this
      ensures State() == RunGlobal(info, it, calls, con, old(State()))
      decreases it, 1
    {
      match it {
        case End =>
          DoRoute(info, con, calls);
        case Link(_, mw, rest) =>
          Note(Entered(mw));
          ghost var start := State();
          var cons, i := calls(mw, con), 0;
          while i < |cons|
            invariant 0 <= i <= |cons| && State() == GlobalNexts(info, rest, calls, cons[..i], start)
          {
            assert cons[..i + 1][..i] == cons[..i];
            MwHelperGlobal(info, cons[i], calls, rest);
            i := i + 1;
          }
          assert cons[..|cons|] == cons;
      }
    }

    method DoRoute(info: Routing, con: Con, calls: Calls)
      modifies this
      ensures State() == RouteOn(info, calls, con, old(State()))
    {
      var d := DoRouting(info, con.verb, con.path, params);
      match d {
        case NotFound => Note(Missed);
        case BadSize => Note(Broken);
        case Routed(e, found) =>
          params := found;
          MwHelperLocal(e, con, calls, 0);
      }
    }

    method MwHelperLocal(e: Entry, con: Con, calls: Calls, it: nat)
      requires it <= |e.middleware|
      modifies this
      ensures State() == RunLocal(e, it, calls, con, old(State()))
      decreases |e.middleware| - it
    {
      if it < |e.middleware| {
        var mw := e.middleware[it];
        Note(Entered(mw));
        ghost var start := State();
        var cons, i := calls(mw, con), 0;
        while i < |cons|
          invariant 0 <= i <= |cons| && State() == LocalNexts(e, it + 1, calls, cons[..i], start)
        {
          assert cons[..i + 1][..i] == cons[..i];
          MwHelperLocal(e, cons[i], calls, it + 1);
          i := i + 1;
        }
        assert cons[..|cons|] == cons;
      } else {
        Note(Handled(e, params));
      }
    }
  }

  // What a request meets

  /** Each middleware passes one connection on, or none. */
  ghost predicate CallNextAtMostOnce(calls: Calls) {
    forall mw, con :: |calls(mw, con)| <= 1
  }

  ghost predicate CallNextOnce(calls: Calls) {
    forall mw, con :: |calls(mw, con)| == 1
  }

  /** The middleware a request enters, up to one that passes nothing on, and the connection that comes out, if one does. */
  datatype Passage = Passage(entered: seq<Id>, out: Option<Con>)

  function Through(mws: seq<Id>, calls: Calls, con: Con): Passage {
    if mws == [] then Passage([], Some(con))
    else
      var cons := calls(mws[0], con);
      if cons == [] then Passage([mws[0]], None)
      else
        var more := Through(mws[1..], calls, cons[0]);
        Passage([mws[0]] + more.entered, more.out)
  }

  function Ids(chain: Chain): seq<Id> {
    match chain case End => [] case Link(_, mw, rest) => [mw] + Ids(rest)
  }

  function Entering(mws: seq<Id>): seq<Event> {
    seq(|mws|, i requires 0 <= i < |mws| => Entered(mws[i]))
  }

  lemma {:induction false} EnteringMore(t: seq<Event>, mw: Id, more: seq<Id>)
    ensures t + [Entered(mw)] + Entering(more) == t + Entering([mw] + more)
  {
    assert Entering([mw] + more) == [Entered(mw)] + Entering(more);
  }

  lemma {:induction false} GlobalPassage(info: Routing, chain: Chain, calls: Calls, con: Con, t: Track)
    requires CallNextAtMostOnce(calls)
    ensures var p := Through(Ids(chain), calls, con);
            var after := Track(t.events + Entering(p.entered), t.params);
            RunGlobal(info, chain, calls, con, t) == if p.out.Some? then RouteOn(info, calls, p.out.value, after) else after
  {
    match chain
    case End => assert t.events + [] == t.events;
    case Link(_, mw, rest) =>
      var cons, u := calls(mw, con), Noted(t, Entered(mw));
      assert Ids(chain)[1..] == Ids(rest);
      if cons == [] {
        EnteringMore(t.events, mw, []);
        assert t.events + [Entered(mw)] + [] == t.events + [Entered(mw)];
      } else {
        GlobalPassage(info, rest, calls, cons[0], u);
        assert GlobalNexts(info, rest, calls, cons[..0], u) == u;
        EnteringMore(t.events, mw, Through(Ids(rest), calls, cons[0]).entered);
      }
  }

  /** What a route's own chain and its handler add. */
  function Handling(e: Entry, it: nat, params: map<string, string>, calls: Calls, con: Con): seq<Event>
    requires it <= |e.middleware|
  {
    var p := Through(e.middleware[it..], calls, con);
    Entering(p.entered) + if p.out.Some? then [Handled(e, params)] else []
  }

  lemma {:induction false} LocalPassage(e: Entry, it: nat, calls: Calls, con: Con, t: Track)
    requires CallNextAtMostOnce(calls) && it <= |e.middleware|
    ensures RunLocal(e, it, calls, con, t).events == t.events + Handling(e, it, t.params, calls, con)
    decreases |e.middleware| - it
  {
    if it < |e.middleware| {
      var mw := e.middleware[it];
      var cons, u := calls(mw, con), Noted(t, Entered(mw));
      assert e.middleware[it..][1..] == e.middleware[it + 1..];
      if cons == [] {
        EnteringMore(t.events, mw, []);
        assert t.events + [Entered(mw)] + [] == t.events + [Entered(mw)];
      } else {
        LocalPassage(e, it + 1, calls, cons[0], u);
        assert LocalNexts(e, it + 1, calls, cons[..0], u) == u;
        var p := Through(e.middleware[it + 1..], calls, cons[0]);
        EnteringMore(t.events, mw, p.entered);
        var last := if p.out.Some? then [Handled(e, t.params)] else [];
        assert t.events + [Entered(mw)] + (Entering(p.entered) + last) == t.events + [Entered(mw)] + Entering(p.entered) + last;
      }
    }
  }

  /** What do_routing adds, given where it dispatches to. */
  function Outcome(d: Dispatch, calls: Calls, con: Con): seq<Event> {
    match d
    case NotFound => [Missed]
    case BadSize => [Broken]
    case Routed(e, params) => Handling(e, 0, params, calls, con)
  }

  lemma {:induction false} RoutedPassage(info: Routing, calls: Calls, con: Con, t: Track)
    requires CallNextAtMostOnce(calls)
    ensures RouteOn(info, calls, con, t).events
            == t.events + Outcome(Dispatched(info, con.verb, con.path, t.params), calls, con)
  {
    var d := Dispatched(info, con.verb, con.path, t.params);
    if d.Routed? {
      LocalPassage(d.entry, 0, calls, con, t.(params := d.params));
    }
  }

  // Registered routes

  /** A route as it was given to route(). */
  datatype Registration = Registration(uri: string, middleware: seq<Id>, handler: Id)

  function RegistrationOf(e: Entry): Registration {
    Registration(e.uri, e.middleware, e.handler)
  }

  function RegistrationsOf(entries: seq<Entry>): seq<Registration> {
    seq(|entries|, i requires 0 <= i < |entries| => RegistrationOf(entries[i]))
  }

  /** The routes of a table under one method, in the order of the search. */
  function RoutesFor(routes: map<string, seq<Entry>>, verb: string): seq<Registration> {
    if verb in routes then RegistrationsOf(routes[verb]) else []
  }

  /** A dispatch of a path: to the first route that fits it, with the segments in the parameters. */
  ghost predicate FitsFirst(regs: seq<Registration>, path: string, d: Dispatch) {
    match d
    case NotFound => forall j :: 0 <= j < |regs| ==> !FitsRoute(regs[j].uri, path)
    case BadSize => false
    case Routed(e, params) =>
      && (exists k :: 0 <= k < |regs| && RegistrationOf(e) == regs[k] && forall j :: 0 <= j < k ==> !FitsRoute(regs[j].uri, path))
      && exists texts :: Holds(Parts(e.uri), path, texts, map[], params)
  }

  lemma {:induction false} DispatchFits(info: Routing, con: Con)
    requires Built(info)
    ensures FitsFirst(RoutesFor(info.routes, con.verb), con.path, Dispatched(info, con.verb, con.path, map[]))
  {
    if con.verb in info.routes {
      var entries := info.routes[con.verb];
      var k := FirstFit(entries, con.path, map[]);
      var regs := RegistrationsOf(entries);
      assert forall j :: 0 <= j < |entries| ==> regs[j].uri == entries[j].uri;
      if k < |entries| {
        assert RegistrationOf(entries[k]) == regs[k];
      }
    }
  }

  /**
   * When no middleware calls `next` twice, a request enters the global middleware in order, up to one that
   * does not call it. Otherwise it is dispatched, with the path they leave, to the first route that fits;
   * enters that route's middleware in the same way; and reaches its handler, once, which finds the segments
   * of the path in the parameters.
   */
  lemma {:induction false} AtMostOnce(info: Routing, calls: Calls, con: Con)
    requires CallNextAtMostOnce(calls) && Built(info)
    ensures var p := Through(Ids(info.middleware), calls, con);
            if p.out.None? then Served(info, calls, con).events == Entering(p.entered)
            else
              var last := p.out.value;
              var d := Dispatched(info, last.verb, last.path, map[]);
              && FitsFirst(RoutesFor(info.routes, last.verb), last.path, d)
              && Served(info, calls, con).events == Entering(p.entered) + Outcome(d, calls, last)
  {
    var p := Through(Ids(info.middleware), calls, con);
    GlobalPassage(info, info.middleware, calls, con, Track([], map[]));
    assert [] + Entering(p.entered) == Entering(p.entered);
    if p.out.Some? {
      DispatchFits(info, p.out.value);
      RoutedPassage(info, calls, p.out.value, Track(Entering(p.entered), map[]));
    }
  }

  lemma {:induction false} AllEntered(mws: seq<Id>, calls: Calls, con: Con)
    requires CallNextOnce(calls)
    ensures Through(mws, calls, con).entered == mws && Through(mws, calls, con).out.Some?
  {
    if mws != [] {
      AllEntered(mws[1..], calls, calls(mws[0], con)[0]);
      assert mws == [mws[0]] + mws[1..];
    }
  }

  /** And when each calls it once: all of them, and then the handler, unless no route fits. */
  lemma {:induction false} EachOnce(info: Routing, calls: Calls, con: Con)
    requires CallNextOnce(calls) && Built(info)
    ensures var p := Through(Ids(info.middleware), calls, con);
            p.out.Some? && var last := p.out.value;
            var d := Dispatched(info, last.verb, last.path, map[]);
            && FitsFirst(RoutesFor(info.routes, last.verb), last.path, d)
            && Served(info, calls, con).events
               == Entering(Ids(info.middleware))
                  + if d.Routed? then Entering(d.entry.middleware) + [Handled(d.entry, d.params)] else [Missed]
  {
    AtMostOnce(info, calls, con);
    AllEntered(Ids(info.middleware), calls, con);
    var last := Through(Ids(info.middleware), calls, con).out.value;
    var d := Dispatched(info, last.verb, last.path, map[]);
    if d.Routed? {
      assert d.entry.middleware[0..] == d.entry.middleware;
      AllEntered(d.entry.middleware, calls, last);
    }
  }

  // All threads

  /** An update in progress: the copy is taken from the snapshot, changed, and stored, under the mutex. */
  datatype Job = Job(thread: nat, update: Update, copy: Option<Routing>, modified: bool)

  datatype Snapshot = Snapshot(info: Routing, version: nat)

  /** `history` are the updates stored so far; `requests` what each request has loaded. */
  datatype System = System(current: Routing, job: Option<Job>, history: seq<Update>, requests: map<nat, Snapshot>)

  datatype Step =
    | Lock(thread: nat, update: Update)
    | Load(thread: nat)
    | Modify(thread: nat)
    | Store(thread: nat)
    | OnRequest(request: nat)

  ghost predicate Enabled(s: System, step: Step) {
    match step
    case Lock(_, u) => s.job.None? && SupportedUpdate(u)
    case Load(t) => s.job.Some? && s.job.value.thread == t && s.job.value.copy.None?
    case Modify(t) =>
      && s.job.Some? && s.job.value.thread == t && s.job.value.copy.Some? && !s.job.value.modified
      && SupportedUpdate(s.job.value.update)
    case Store(t) => s.job.Some? && s.job.value.thread == t && s.job.value.copy.Some? && s.job.value.modified
    case OnRequest(r) => r !in s.requests
  }

  ghost function Next(s: System, step: Step): System
    requires Enabled(s, step)
  {
    match step
    case Lock(t, u) => s.(job := Some(Job(t, u, None, false)))
    case Load(_) => s.(job := Some(s.job.value.(copy := Some(s.current))))
    case Modify(_) =>
      var job := s.job.value;
      s.(job := Some(job.(copy := Some(Apply(job.copy.value, job.update)), modified := true)))
    case Store(_) =>
      s.(current := s.job.value.copy.value, history := s.history + [s.job.value.update], job := None)
    case OnRequest(r) => s.(requests := s.requests[r := Snapshot(s.current, |s.history|)])
  }

  ghost predicate AllSupportedUpdates(us: seq<Update>) {
    forall i :: 0 <= i < |us| ==> SupportedUpdate(us[i])
  }

  /** The snapshot after a sequence of updates. */
  ghost function Configured(us: seq<Update>): (info: Routing)
    requires AllSupportedUpdates(us)
    ensures Built(info) && SortedChain(info.middleware)
  {
    if us == [] then EMPTY
    else
      var before := Configured(us[..|us| - 1]);
      ApplyBuilt(before, us[|us| - 1]);
      if us[|us| - 1].Use? then
        InsertedStable(before.middleware, us[|us| - 1].pos, us[|us| - 1].mw, 0);
        Apply(before, us[|us| - 1])
      else Apply(before, us[|us| - 1])
  }

  ghost predicate Inv(s: System) {
    && AllSupportedUpdates(s.history) && s.current == Configured(s.history)
    && (s.job.Some? ==>
          var job := s.job.value;
          && SupportedUpdate(job.update) && (job.copy.None? ==> !job.modified)
          && (job.copy.Some? ==> job.copy.value == if job.modified then Apply(s.current, job.update) else s.current))
    && forall r :: r in s.requests ==>
         var shot := s.requests[r];
         shot.version <= |s.history| && AllSupportedUpdates(s.history[..shot.version])
         && shot.info == Configured(s.history[..shot.version])
  }

  const START := System(EMPTY, None, [], map[])

  /** A run: steps that are not possible where they stand are skipped. */
  ghost function Exec(steps: seq<Step>): System {
    if steps == [] then START
    else
      var s, step := Exec(steps[..|steps| - 1]), steps[|steps| - 1];
      if Enabled(s, step) then Next(s, step) else s
  }

  lemma {:induction false} ConfiguredOneMore(us: seq<Update>, u: Update)
    requires AllSupportedUpdates(us) && SupportedUpdate(u)
    ensures AllSupportedUpdates(us + [u]) && Configured(us + [u]) == Apply(Configured(us), u)
  {
    assert (us + [u])[..|us|] == us;
  }

  lemma {:induction false} StoreKeeps(s: System, t: nat)
    requires Inv(s) && Enabled(s, Store(t))
    ensures Inv(Next(s, Store(t)))
  {
    var n := Next(s, Store(t));
    ConfiguredOneMore(s.history, s.job.value.update);
    forall r | r in n.requests
      ensures var shot := n.requests[r];
              shot.version <= |n.history| && AllSupportedUpdates(n.history[..shot.version])
              && shot.info == Configured(n.history[..shot.version])
    {
      assert n.history[..n.requests[r].version] == s.history[..s.requests[r].version];
    }
  }

  /**
   * Under every interleaving of updates and requests no stored update is lost: the snapshot is what all
   * stored updates make, one after the other; and every request keeps the snapshot of the updates stored
   * before it began.
   */
  lemma {:induction false} NoUpdateLost(steps: seq<Step>)
    ensures Inv(Exec(steps))
  {
    if steps != [] {
      NoUpdateLost(steps[..|steps| - 1]);
      var s, step := Exec(steps[..|steps| - 1]), steps[|steps| - 1];
      if Enabled(s, step) {
        match step
        case Store(t) => StoreKeeps(s, t);
        case OnRequest(r) => assert s.history[..|s.history|] == s.history;
        case _ =>
      }
    }
  }

  // What the updates make

  /** What one call of route() registers under a method: a route for each uri, each time the method is named. */
  function RegisteredBy(methods: seq<string>, verb: string, uris: seq<string>, middleware: seq<Id>, handler: Id): seq<Registration> {
    if methods == [] then []
    else
      RegisteredBy(methods[..|methods| - 1], verb, uris, middleware, handler)
      + if methods[|methods| - 1] == verb
        then seq(|uris|, i requires 0 <= i < |uris| => Registration(uris[i], middleware, handler))
        else []
  }

  function RegisteredIn(u: Update, verb: string): seq<Registration> {
    if u.AddRoute? then RegisteredBy(u.methods, verb, u.uris, u.middleware, u.handler) else []
  }

  /** The routes registered under a method, in the order of the calls. */
  function Registered(us: seq<Update>, verb: string): seq<Registration> {
    if us == [] then [] else Registered(us[..|us| - 1], verb) + RegisteredIn(us[|us| - 1], verb)
  }

  lemma RegistrationsAppend(a: seq<Entry>, b: seq<Entry>)
    ensures RegistrationsOf(a + b) == RegistrationsOf(a) + RegistrationsOf(b)
  {
  }

  lemma {:induction false} PushedRoutes(routes: map<string, seq<Entry>>, pushed: string, entries: seq<Entry>, verb: string)
    ensures RoutesFor(Pushed(routes, pushed, entries), verb)
            == RoutesFor(routes, verb) + if pushed == verb then RegistrationsOf(entries) else []
  {
    var had := if verb in routes then routes[verb] else [];
    assert RoutesFor(routes, verb) == RegistrationsOf(had);
    if pushed == verb && entries != [] {
      RegistrationsAppend(had, entries);
    } else {
      assert RegistrationsOf(had) + [] == RegistrationsOf(had);
    }
  }

  lemma {:induction false} PushedAllRoutes(routes: map<string, seq<Entry>>, methods: seq<string>, u: Update, verb: string)
    requires u.AddRoute? && SupportedUpdate(u)
    ensures RoutesFor(PushedAll(routes, methods, Entries(u)), verb)
            == RoutesFor(routes, verb) + RegisteredBy(methods, verb, u.uris, u.middleware, u.handler)
  {
    if methods != [] {
      var front, last := methods[..|methods| - 1], methods[|methods| - 1];
      PushedAllRoutes(routes, front, u, verb);
      PushedRoutes(PushedAll(routes, front, Entries(u)), last, Entries(u), verb);
      EntriesRegistered(u);
    }
  }

  lemma EntriesRegistered(u: Update)
    requires u.AddRoute? && SupportedUpdate(u)
    ensures RegistrationsOf(Entries(u)) == seq(|u.uris|, i requires 0 <= i < |u.uris| => Registration(u.uris[i], u.middleware, u.handler))
  {
  }

  lemma {:induction false} AppliedRoutes(info: Routing, u: Update, verb: string)
    requires SupportedUpdate(u)
    ensures RoutesFor(Apply(info, u).routes, verb) == RoutesFor(info.routes, verb) + RegisteredIn(u, verb)
  {
    if u.AddRoute? {
      PushedAllRoutes(info.routes, u.methods, u, verb);
    } else {
      assert RoutesFor(info.routes, verb) + [] == RoutesFor(info.routes, verb);
    }
  }

  /** In every configuration the table has under each method the routes registered under it, in order, and no others. */
  lemma {:induction false} RoutesRegistered(us: seq<Update>, verb: string)
    requires AllSupportedUpdates(us)
    ensures RoutesFor(Configured(us).routes, verb) == Registered(us, verb)
  {
    if us != [] {
      var before, u := us[..|us| - 1], us[|us| - 1];
      RoutesRegistered(before, verb);
      assert us == before + [u];
      ConfiguredOneMore(before, u);
      AppliedRoutes(Configured(before), u, verb);
    }
  }

  /** The last value given to a setting. */
  function LastDebugMode(us: seq<Update>): bool {
    if us == [] then false
    else if us[|us| - 1].SetDebugMode? then us[|us| - 1].b else LastDebugMode(us[..|us| - 1])
  }

  function LastNotFound(us: seq<Update>): Option<Id> {
    if us == [] then None
    else if us[|us| - 1].SetNotFound? then Some(us[|us| - 1].fn) else LastNotFound(us[..|us| - 1])
  }

  function LastError(us: seq<Update>): Option<Id> {
    if us == [] then None
    else if us[|us| - 1].SetError? then Some(us[|us| - 1].fn) else LastError(us[..|us| - 1])
  }

  lemma {:induction false} SettingsAre(us: seq<Update>)
    requires AllSupportedUpdates(us)
    ensures var info := Configured(us);
            info.debugMode == LastDebugMode(us) && info.notfound == LastNotFound(us) && info.error == LastError(us)
  {
    if us != [] {
      SettingsAre(us[..|us| - 1]);
    }
  }

  /**
   * A request behaves as first-match routing on the routes registered when it began, whatever is updated
   * meanwhile.
   */
  lemma {:induction false} RequestSeesOneConfiguration(steps: seq<Step>, r: nat, calls: Calls, con: Con)
    requires r in Exec(steps).requests && CallNextAtMostOnce(calls)
    ensures var s := Exec(steps);
            var shot := s.requests[r];
            && shot.version <= |s.history| && AllSupportedUpdates(s.history[..shot.version])
            && var us := s.history[..shot.version];
               var p := Through(Ids(Configured(us).middleware), calls, con);
               var events := Served(shot.info, calls, con).events;
               if p.out.None? then events == Entering(p.entered)
               else
                 var last := p.out.value;
                 var d := Dispatched(Configured(us), last.verb, last.path, map[]);
                 FitsFirst(Registered(us, last.verb), last.path, d) && events == Entering(p.entered) + Outcome(d, calls, last)
  {
    NoUpdateLost(steps);
    var shot := Exec(steps).requests[r];
    var us := Exec(steps).history[..shot.version];
    AtMostOnce(shot.info, calls, con);
    var p := Through(Ids(shot.info.middleware), calls, con);
    if p.out.Some? {
      RoutesRegistered(us, p.out.value.verb);
    }
  }

  /** The middleware of a position, in the order it was added. */
  function UsedAt(us: seq<Update>, p: int): seq<Id> {
    if us == [] then []
    else
      var u := us[|us| - 1];
      UsedAt(us[..|us| - 1], p) + if u.Use? && u.pos == p then [u.mw] else []
  }

  /** The chain is a stable sort: ordered by position, and at each position in the order of the calls to use(). */
  lemma {:induction false} ChainStable(us: seq<Update>, p: int)
    requires AllSupportedUpdates(us)
    ensures SortedChain(Configured(us).middleware)
    ensures AtPos(Configured(us).middleware, p) == UsedAt(us, p)
  {
    if us != [] {
      var u := us[|us| - 1];
      ChainStable(us[..|us| - 1], p);
      if u.Use? {
        InsertedStable(Configured(us[..|us| - 1]).middleware, u.pos, u.mw, p);
      }
    }
  }
}
