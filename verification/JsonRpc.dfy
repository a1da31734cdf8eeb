/**
 * JSON-RPC dispatch and batch aggregation. A batch is the requests of one message and the answers
 * collected so far; handlers may answer at once, later, and in any order.
 */
module JsonRpc {
  import opened Outcomes
  import opened JsonNumbers
  import opened JsonValues
  import opened JsonPrint

  const ERROR_PARSE_ERROR: int64 := -32700
  const ERROR_INVALID_REQUEST: int64 := -32600
  const ERROR_METHOD_NOT_FOUND: int64 := -32601

  /** What a handler passes to respond() or error(). */
  datatype Answer = Result(value: Value) | Error(code: int64, message: string, data: Value)

  predicate IsNotification(request: Object) {
    Lookup(request, "id").None?
  }

  function ErrorObject(code: int64, message: string, data: Value): Object {
    var error := Put(Put([], Field("code", Int(code))), Field("message", Str(message)));
    if data.Null? then error else Put(error, Field("data", data))
  }

  /** The value respond() and error() hand on: null for a notification, else the response object. */
  function Response(request: Object, a: Answer): (v: Value)
    ensures v.Obj? <==> !IsNotification(request)
    ensures !v.Obj? ==> v.Null?
  {
    match Lookup(request, "id")
    case None => Null
    case Some(id) =>
      var msg := Put(Put([], Field("jsonrpc", Str("2.0"))), Field("id", id));
      match a
      case Result(value) => Obj(Put(msg, Field("result", value)))
      case Error(code, message, data) => Obj(Put(msg, Field("error", Obj(ErrorObject(code, message, data)))))
  }

  /** The reply to a message that is no request at all. */
  function Refusal(code: int64, message: string): Value {
    Obj(Put(Put([], Field("error", Obj(ErrorObject(code, message, Null)))), Field("jsonrpc", Str("2.0"))))
  }

  /** The members of an error object, and there are no others (section 5.1 of JSON-RPC 2.0). */
  ghost predicate IsError(e: Object, code: int, message: string, data: Value) {
    forall key: string ::
      match Lookup(e, key)
      case Some(v) =>
        || (key == "code" && v.Int? && v.i == code)
        || (key == "message" && v == Str(message))
        || (key == "data" && v == data && !data.Null?)
      case None => key != "code" && key != "message" && (key == "data" ==> data.Null?)
  }

  /** The members of a response, and there are no others (section 5 of JSON-RPC 2.0); without a request there is no id. */
  ghost predicate IsResponse(r: Object, id: Option<Value>, a: Answer) {
    && Lookup(r, "jsonrpc") == Some(Str("2.0")) && Lookup(r, "id") == id
    && Lookup(r, "result") == (if a.Result? then Some(a.value) else None)
    && (if a.Result? then Lookup(r, "error") == None
        else var e := Lookup(r, "error"); e.Some? && e.value.Obj? && IsError(e.value.fields, a.code, a.message, a.data))
    && forall key :: key !in {"jsonrpc", "id", "result", "error"} ==> Lookup(r, key) == None
  }

  lemma {:induction false} ErrorMembers(code: int64, message: string, data: Value)
    ensures IsError(ErrorObject(code, message, data), code, message, data)
  {
    var one := Put([], Field("code", Int(code)));
    var two := Put(one, Field("message", Str(message)));
    forall key: string
      ensures Lookup(two, key) == if key == "message" then Some(Str(message)) else if key == "code" then Some(Int(code)) else None
      ensures Lookup(Put(two, Field("data", data)), key) == if key == "data" then Some(data) else Lookup(two, key)
    {
      PutLookup([], Field("code", Int(code)), key);
      PutLookup(one, Field("message", Str(message)), key);
      PutLookup(two, Field("data", data), key);
    }
  }

  lemma {:induction false} ResponseMembers(request: Object, a: Answer)
    requires !IsNotification(request)
    ensures Response(request, a).Obj? && IsResponse(Response(request, a).fields, Lookup(request, "id"), a)
  {
    var id := Lookup(request, "id").value;
    var last := if a.Result? then Field("result", a.value) else Field("error", Obj(ErrorObject(a.code, a.message, a.data)));
    var o := Put([], Field("jsonrpc", Str("2.0")));
    var msg := Put(o, Field("id", id));
    if a.Error? {
      ErrorMembers(a.code, a.message, a.data);
    }
    forall key: string
      ensures Lookup(Put(msg, last), key) ==
        if key == last.key then Some(last.val)
        else if key == "id" then Some(id)
        else if key == "jsonrpc" then Some(Str("2.0")) else None
    {
      PutLookup([], Field("jsonrpc", Str("2.0")), key);
      PutLookup(o, Field("id", id), key);
      PutLookup(msg, last, key);
    }
  }

  /** A refusal is an error response without an id. */
  lemma {:induction false} RefusalMembers(code: int64, message: string)
    ensures Refusal(code, message).Obj?
    ensures IsResponse(Refusal(code, message).fields, None, Error(code, message, Null))
  {
    var error := Field("error", Obj(ErrorObject(code, message, Null)));
    ErrorMembers(code, message, Null);
    var o := Put([], error);
    forall key: string
      ensures Lookup(Put(o, Field("jsonrpc", Str("2.0"))), key) ==
        if key == "jsonrpc" then Some(Str("2.0")) else if key == "error" then Some(error.val) else None
    {
      PutLookup([], error, key);
      PutLookup(o, Field("jsonrpc", Str("2.0")), key);
    }
  }

  // Batches

  /** `replies` are the texts passed to the response function. */
  datatype BatchState = BatchState(contexts: seq<Object>, results: map<nat, Value>, replies: seq<string>) {
    ghost predicate Valid() {
      forall i <- results :: i < |contexts|
    }
  }

  /** The entries of the reply: one for each request with an id, in the order of the requests. */
  function Collect(contexts: seq<Object>, results: map<nat, Value>, n: nat): seq<Value>
    requires n <= |contexts| && forall i: nat :: i < n ==> i in results
  {
    if n == 0 then []
    else
      Collect(contexts, results, n - 1)
      + if !IsNotification(contexts[n - 1]) && results[n - 1].Obj? then [results[n - 1]] else []
  }

  /** Indices below n: as many as there are, so n of them are all of them. */
  lemma {:induction false} AllIndices(keys: set<nat>, n: nat)
    requires forall i <- keys :: i < n
    ensures |keys| <= n
    ensures |keys| == n ==> forall i: nat :: i < n ==> i in keys
    decreases n
  {
    if n > 0 {
      var fewer := keys - {n - 1};
      AllIndices(fewer, n - 1);
      assert keys == if n - 1 in keys then fewer + {n - 1} else fewer;
    } else {
      assert keys == {};
    }
  }

  /** handle_result: remember the value; once there is one for every context, reply. */
  function HandleResult(pf: Platform, b: BatchState, i: nat, v: Value): (c: BatchState)
    requires b.Valid() && i < |b.contexts|
    ensures c.Valid()
  {
    var results := b.results[i := v];
    if |results| >= |b.contexts| then
      AllIndices(results.Keys, |b.contexts|);
      var reply := Text(pf, Arr(Collect(b.contexts, results, |b.contexts|)), false);
      b.(results := results, replies := b.replies + [reply])
    else b.(results := results)
  }

  datatype Event = Event(index: nat, answer: Answer)

  function Handle(pf: Platform, b: BatchState, e: Event): (c: BatchState)
    requires b.Valid() && e.index < |b.contexts|
    ensures c.Valid() && c.contexts == b.contexts
  {
    HandleResult(pf, b, e.index, Response(b.contexts[e.index], e.answer))
  }

  ghost predicate InRange(events: seq<Event>, n: nat) {
    forall k :: 0 <= k < |events| ==> events[k].index < n
  }

  /** The batch after the answers `events` have come in, in that order. */
  function Run(pf: Platform, b: BatchState, events: seq<Event>): (c: BatchState)
    requires b.Valid() && InRange(events, |b.contexts|)
    ensures c.Valid() && c.contexts == b.contexts
  {
    if events == [] then b
    else Handle(pf, Run(pf, b, events[..|events| - 1]), events[|events| - 1])
  }

  lemma {:induction false} RunOneMore(pf: Platform, b: BatchState, events: seq<Event>, e: Event)
    requires b.Valid() && InRange(events, |b.contexts|) && e.index < |b.contexts|
    ensures InRange(events + [e], |b.contexts|)
    ensures Run(pf, b, events + [e]) == Handle(pf, Run(pf, b, events), e)
  {
    assert (events + [e])[..|events|] == events;
  }

  // Dispatch

  /** A registered function: what it answers before it returns, given the position of the call; None when it answers later. */
  type Handler = (nat, Object) -> Option<Answer>

  /** The answer handle_call produces at once. */
  function Immediate(handlers: map<string, Handler>, i: nat, request: Object): Option<Answer>
    requires Callable(request)
  {
    var name := Lookup(request, "method").value.s;
    if name in handlers then handlers[name](i, request)
    else Some(Error(ERROR_METHOD_NOT_FOUND, "Could not find the requested method", Null))
  }

  /** A request the library can dispatch: its method is a string. */
  predicate Callable(request: Object) {
    var m := Lookup(request, "method");
    m.Some? && m.value.Str?
  }

  /** The answer, if any, that dispatching call i brings. */
  function AtOnce(handlers: map<string, Handler>, i: nat, request: Object): (events: seq<Event>)
    requires Callable(request)
    ensures InRange(events, i + 1)
  {
    match Immediate(handlers, i, request)
    case Some(a) => [Event(i, a)]
    case None => []
  }

  /** How many calls are dispatched before one, if any, that has no string as its method. */
  function CallableCount(contexts: seq<Object>, from: nat): (n: nat)
    requires from <= |contexts|
    ensures from <= n <= |contexts| && (forall k :: from <= k < n ==> Callable(contexts[k]))
    ensures n < |contexts| ==> !Callable(contexts[n])
    decreases |contexts| - from
  {
    if from < |contexts| && Callable(contexts[from]) then CallableCount(contexts, from + 1) else from
  }

  /** The answers that come in while the first n calls of a batch are dispatched. */
  function Dispatched(handlers: map<string, Handler>, contexts: seq<Object>, n: nat): (events: seq<Event>)
    requires n <= |contexts| && forall k :: 0 <= k < n ==> Callable(contexts[k])
    ensures InRange(events, n)
  {
    if n == 0 then []
    else
      Dispatched(handlers, contexts, n - 1) + AtOnce(handlers, n - 1, contexts[n - 1])
  }

  /**
   * The answer to a call that is there when handle_call returns: what the function registered under the
   * method's name answers at once, or, if there is none, that there is none.
   */
  ghost predicate AnswersAtOnce(handlers: map<string, Handler>, i: nat, request: Object, a: Answer) {
    var m := Lookup(request, "method");
    && m.Some? && m.value.Str?
    && if m.value.s in handlers then handlers[m.value.s](i, request) == Some(a)
       else a == Error(-32601, "Could not find the requested method", Null)
  }

  lemma AtOnceIs(handlers: map<string, Handler>, i: nat, request: Object)
    requires Callable(request)
    ensures var last := AtOnce(handlers, i, request);
            |last| <= 1 && (last != [] ==> last[0].index == i && AnswersAtOnce(handlers, i, request, last[0].answer))
  {
  }

  lemma {:induction false} DispatchedOnly(handlers: map<string, Handler>, contexts: seq<Object>, n: nat, j: nat)
    requires n <= |contexts| && forall k :: 0 <= k < n ==> Callable(contexts[k])
    requires j < |Dispatched(handlers, contexts, n)|
    ensures var e := Dispatched(handlers, contexts, n)[j];
            e.index < n && AnswersAtOnce(handlers, e.index, contexts[e.index], e.answer)
  {
    var before, last := Dispatched(handlers, contexts, n - 1), AtOnce(handlers, n - 1, contexts[n - 1]);
    if j < |before| {
      DispatchedOnly(handlers, contexts, n - 1, j);
      assert (before + last)[j] == before[j];
    } else {
      AtOnceIs(handlers, n - 1, contexts[n - 1]);
      assert (before + last)[j] == last[j - |before|];
    }
  }

  lemma {:induction false} DispatchedAll(handlers: map<string, Handler>, contexts: seq<Object>, n: nat, k: nat, a: Answer)
    requires n <= |contexts| && forall k :: 0 <= k < n ==> Callable(contexts[k])
    requires k < n && AnswersAtOnce(handlers, k, contexts[k], a)
    ensures Event(k, a) in Dispatched(handlers, contexts, n)
  {
    if k < n - 1 {
      DispatchedAll(handlers, contexts, n - 1, k, a);
    } else {
      assert AtOnce(handlers, k, contexts[k]) == [Event(k, a)];
    }
  }

  ghost predicate Ascending(events: seq<Event>) {
    forall j, l :: 0 <= j < l < |events| ==> events[j].index < events[l].index
  }

  lemma {:induction false} DispatchedInOrder(handlers: map<string, Handler>, contexts: seq<Object>, n: nat)
    requires n <= |contexts| && forall k :: 0 <= k < n ==> Callable(contexts[k])
    ensures Ascending(Dispatched(handlers, contexts, n))
  {
    if n > 0 {
      DispatchedInOrder(handlers, contexts, n - 1);
      var before, last := Dispatched(handlers, contexts, n - 1), AtOnce(handlers, n - 1, contexts[n - 1]);
      assert InRange(before, n - 1) && |last| <= 1 && forall i :: 0 <= i < |last| ==> last[i].index == n - 1;
      assert Ascending(before + last);
    }
  }

  /** Dispatching brings these answers, each once, in the order of the calls, and no others. */
  lemma {:induction false} DispatchedAre(handlers: map<string, Handler>, contexts: seq<Object>, n: nat, e: Event)
    requires n <= |contexts| && forall k :: 0 <= k < n ==> Callable(contexts[k])
    ensures e in Dispatched(handlers, contexts, n) <==>
            e.index < n && AnswersAtOnce(handlers, e.index, contexts[e.index], e.answer)
    ensures Ascending(Dispatched(handlers, contexts, n))
  {
    DispatchedInOrder(handlers, contexts, n);
    var events := Dispatched(handlers, contexts, n);
    if e in events {
      var j :| 0 <= j < |events| && events[j] == e;
      DispatchedOnly(handlers, contexts, n, j);
    }
    if e.index < n && AnswersAtOnce(handlers, e.index, contexts[e.index], e.answer) {
      DispatchedAll(handlers, contexts, n, e.index, e.answer);
      assert e == Event(e.index, e.answer);
    }
  }

  /** What dispatching one more call does to a batch. */
  lemma {:induction false} RunDispatched(pf: Platform, b: BatchState, handlers: map<string, Handler>, i: nat)
    requires b.Valid() && i < |b.contexts| && forall k :: 0 <= k <= i ==> Callable(b.contexts[k])
    ensures var before := Run(pf, b, Dispatched(handlers, b.contexts, i));
            Run(pf, b, Dispatched(handlers, b.contexts, i + 1)) ==
            match Immediate(handlers, i, b.contexts[i])
            case Some(a) => Handle(pf, before, Event(i, a))
            case None => before
  {
    var events := Dispatched(handlers, b.contexts, i);
    match Immediate(handlers, i, b.contexts[i])
    case Some(a) => RunOneMore(pf, b, events, Event(i, a));
    case None => assert events + [] == events;
  }

  // Messages

  predicate AllObjects(items: seq<Value>) {
    forall x <- items :: x.Obj?
  }

  function Requests(items: seq<Value>): (contexts: seq<Object>)
    requires AllObjects(items)
    ensures |contexts| == |items|
    ensures forall i :: 0 <= i < |items| ==> contexts[i] == items[i].fields
  {
    seq(|items|, i requires 0 <= i < |items| => items[i].fields)
  }
}
