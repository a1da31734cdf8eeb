/** The objects behind JSON-RPC handling: the batch that collects answers, and the table of methods. */
module JsonRpcServer {
  import opened Outcomes
  import opened JsonNumbers
  import opened JsonValues
  import opened JsonParse
  import opened JsonParser
  import opened JsonPrint
  import opened JsonPrinter
  import opened JsonRpc

  /** The response function of one caller, remembering what it was called with. */
  class Sink {
    var replies: seq<string>

    constructor ()
      ensures replies == []
    {
      replies := [];
    }

    method Respond(text: string)
      modifies this
      ensures replies == old(replies) + [text]
    {
      replies := replies + [text];
    }
  }

  /** call_context_array */
  class Batch {
    const contexts: seq<Object>
    const responsefn: Sink
    var results: map<nat, Value>

    ghost function State(): BatchState
      reads this, responsefn
    {
      BatchState(contexts, results, responsefn.replies)
    }

    constructor (contexts: seq<Object>, responsefn: Sink)
      ensures this.contexts == contexts && this.responsefn == responsefn && results == map[]
    {
      this.contexts, this.responsefn, this.results := contexts, responsefn, map[];
    }

    /** Once the map is full, the loop finds an entry for every context: result_map.at never throws. */
    method HandleResult(pf: Platform, i: nat, v: Value)
      requires State().Valid() && i < |contexts|
      modifies this, responsefn
      ensures State() == JsonRpc.HandleResult(pf, old(State()), i, v)
    {
      results := results[i := v];
      if |results| >= |contexts| {
        AllIndices(results.Keys, |contexts|);
        var entries: seq<Value> := [];
        var k := 0;
        while k < |contexts|
          invariant 0 <= k <= |contexts|
          invariant entries == Collect(contexts, results, k)
        {
          if !IsNotification(contexts[k]) {
            var entry := results[k];
            if entry.Obj? {
              entries := entries + [entry];
            }
          }
          k := k + 1;
        }
        var text := Print(pf, Arr(entries), false);
        responsefn.Respond(text);
      }
    }

    /** respond() or error() on the context of one call. */
    method Answer(pf: Platform, e: Event)
      requires State().Valid() && e.index < |contexts|
      modifies this, responsefn
      ensures State() == Handle(pf, old(State()), e)
    {
      HandleResult(pf, e.index, Response(contexts[e.index], e.answer));
    }
  }

  /** How handle_message ends: it returns, an exception leaves it, or a noexcept accessor throws and the process ends. */
  datatype Ending = Done | Thrown | Aborted

  /** The texts a single request that answers with `a` sends. */
  function SingleReply(pf: Platform, request: Object, a: Option<Answer>): seq<string> {
    if a.None? || IsNotification(request) then [] else [Text(pf, Response(request, a.value), false)]
  }

  /** The context of a call that is not part of a batch; what it answers is sent at once. */
  class Call {
    const request: Object
    const responsefn: Sink

    constructor (request: Object, responsefn: Sink)
      ensures this.request == request && this.responsefn == responsefn
    {
      this.request, this.responsefn := request, responsefn;
    }

    /** respond() or error(), during the dispatch or later. */
    method Answer(pf: Platform, a: Answer)
      modifies responsefn
      ensures responsefn.replies == old(responsefn.replies) + SingleReply(pf, request, Some(a))
    {
      var obj := Response(request, a);
      if !obj.Null? {
        var text := Print(pf, obj, false);
        responsefn.Respond(text);
      }
    }
  }

  class Server {
    var handlers: map<string, Handler>

    constructor ()
      ensures handlers == map[]
    {
      handlers := map[];
    }

    /** A second registration of a name throws and changes nothing. */
    method RegisterMethod(name: string, fn: Handler) returns (st: Status)
      modifies this
      ensures st.Raised? <==> name in old(handlers)
      ensures handlers == if st.Raised? then old(handlers) else old(handlers)[name := fn]
    {
      if name in handlers {
        return Raised;
      }
      handlers := handlers[name := fn];
      return Returned(true);
    }

    method HandleCall(pf: Platform, i: nat, request: Object) returns (a: Option<Answer>)
      requires Callable(request)
      ensures var name := Lookup(request, "method").value.s;
              a == if name in handlers then handlers[name](i, request)
                   else Some(Error(-32601, "Could not find the requested method", Null))
    {
      var fn := Lookup(request, "method").value.s;
      if fn !in handlers {
        return Some(Error(ERROR_METHOD_NOT_FOUND, "Could not find the requested method", Null));
      }
      return handlers[fn](i, request);
    }

    /** The first n calls of a batch that was in the state `start` have been dispatched. */
    ghost predicate HasDispatched(pf: Platform, start: BatchState, batch: Batch, n: nat)
      reads this, batch, batch.responsefn
    {
      && start.Valid() && start.contexts == batch.contexts && n <= |batch.contexts|
      && (forall k :: 0 <= k < n ==> Callable(batch.contexts[k]))
      && batch.State() == Run(pf, start, Dispatched(handlers, batch.contexts, n))
    }

    /** handle_call for the next context of a batch. */
    method DispatchOne(pf: Platform, batch: Batch, i: nat, ghost start: BatchState)
      requires i < |batch.contexts| && Callable(batch.contexts[i]) && HasDispatched(pf, start, batch, i)
      modifies batch, batch.responsefn
      ensures HasDispatched(pf, start, batch, i + 1)
    {
      RunDispatched(pf, start, handlers, i);
      var a := HandleCall(pf, i, batch.contexts[i]);
      assert a == Immediate(handlers, i, batch.contexts[i]);
      if a.Some? {
        batch.Answer(pf, Event(i, a.value));
      }
    }

    /** The calls of a batch, in order, up to one that has no method; answers given at once are aggregated at once. */
    method DispatchBatch(pf: Platform, batch: Batch) returns (n: nat)
      requires batch.results == map[]
      modifies batch, batch.responsefn
      ensures n == CallableCount(batch.contexts, 0) && HasDispatched(pf, old(batch.State()), batch, n)
    {
      ghost var start := batch.State();
      var contexts := batch.contexts;
      n := 0;
      assert HasDispatched(pf, start, batch, 0);
      while n < |contexts| && Callable(contexts[n])
        invariant HasDispatched(pf, start, batch, n)
        invariant n <= |contexts| && CallableCount(contexts, n) == CallableCount(contexts, 0)
      {
        DispatchOne(pf, batch, n, start);
        n := n + 1;
      }
    }

    method Refuse(pf: Platform, code: int64, message: string, responsefn: Sink)
      modifies responsefn
      ensures responsefn.replies == old(responsefn.replies) + [Text(pf, Refusal(code, message), false)]
    {
      var text := Print(pf, Refusal(code, message), false);
      responsefn.Respond(text);
    }

    /** The call of a message that is one request; a notification sends nothing. */
    method CallSingle(pf: Platform, request: Object, responsefn: Sink) returns (end: Ending, call: Call)
      modifies responsefn
      ensures fresh(call) && call.request == request && call.responsefn == responsefn
      ensures end == if Callable(request) then Done else Aborted
      ensures responsefn.replies ==
              old(responsefn.replies)
                + if Callable(request) then SingleReply(pf, request, Immediate(handlers, 0, request)) else []
    {
      call := new Call(request, responsefn);
      if !Callable(request) {
        return Aborted, call;
      }
      var a := HandleCall(pf, 0, request);
      if a.Some? {
        call.Answer(pf, a.value);
      }
      return Done, call;
    }

    method CallBatch(pf: Platform, items: seq<Value>, responsefn: Sink) returns (end: Ending, batch: Batch)
      requires AllObjects(items)
      modifies responsefn
      ensures fresh(batch) && batch.responsefn == responsefn && batch.contexts == Requests(items)
      ensures var n := CallableCount(Requests(items), 0);
              && end == (if n == |items| then Done else Aborted)
              && batch.State() == Run(pf, BatchState(Requests(items), map[], old(responsefn.replies)),
                                      Dispatched(handlers, Requests(items), n))
    {
      batch := new Batch(Requests(items), responsefn);
      var n := DispatchBatch(pf, batch);
      end := if n == |items| then Done else Aborted;
    }

    /** handle_message. The call or the batch is handed back so that answers still open can be given later. */
    method HandleMessage(pf: Platform, msg: string, responsefn: Sink)
      returns (end: Ending, call: Call?, batch: Batch?)
      modifies responsefn
      ensures handlers == old(handlers)
      ensures var o := ParseValue(Build, pf, msg);
              var sent := responsefn.replies;
              match o
              case Threw(_) =>
                && end == Thrown
                && sent == old(responsefn.replies)
              case Bad(_) =>
                && end == Done
                && sent == old(responsefn.replies) + [Text(pf, Refusal(-32700, "Failed to parse json"), false)]
              case Ok(Obj(request), _) =>
                && end == (if Callable(request) then Done else Aborted)
                && call != null && fresh(call) && call.request == request && call.responsefn == responsefn
                && sent == old(responsefn.replies)
                           + if Callable(request) then SingleReply(pf, request, Immediate(handlers, 0, request)) else []
              case Ok(Arr(items), _) =>
                if !AllObjects(items) then end == Thrown && sent == old(responsefn.replies)
                else
                  var n := CallableCount(Requests(items), 0);
                  && end == (if n == |items| then Done else Aborted)
                  && batch != null && fresh(batch) && batch.responsefn == responsefn && batch.contexts == Requests(items)
                  && batch.State() == Run(pf, BatchState(Requests(items), map[], old(responsefn.replies)),
                                          Dispatched(handlers, Requests(items), n))
              case Ok(_, _) =>
                && end == Done
                && sent == old(responsefn.replies) + [Text(pf, Refusal(-32600, "Not a valid request"), false)]
    {
      call, batch := null, null;
      var st, v, stop := Parse(pf, msg);
      if st.Raised? {
        return Thrown, null, null;
      }
      end := Done;
      if !st.ok {
        Refuse(pf, ERROR_PARSE_ERROR, "Failed to parse json", responsefn);
        return;
      }
      match v {
        case Obj(request) =>
          end, call := CallSingle(pf, request, responsefn);
        case Arr(items) =>
          if !AllObjects(items) {
            return Thrown, null, null;
          }
          end, batch := CallBatch(pf, items, responsefn);
        case _ =>
          Refuse(pf, ERROR_INVALID_REQUEST, "Not a valid request", responsefn);
      }
    }
  }
}
