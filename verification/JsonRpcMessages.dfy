/** A batch from the text that asks to the text that answers. */
module JsonRpcMessages {
  import opened Outcomes
  import opened JsonNumbers
  import opened JsonValues
  import opened JsonParse
  import opened JsonPrint
  import opened JsonRoundTrip
  import opened JsonRpc
  import opened JsonRpcRuns
  import opened JsonRpcServer

  lemma {:induction false} LookupFinds(o: Object, key: string)
    ensures Lookup(o, key).Some? ==> exists f :: f in o && Lookup(o, key) == Some(f.val)
  {
    if o != [] {
      if o[0].key == key {
        assert o[0] in o;
      } else {
        LookupFinds(o[1..], key);
      }
    }
  }

  /** The ids of a parsed batch are well formed. */
  lemma {:induction false} IdsWellFormed(pf: Platform, msg: string)
    requires var o := ParseValue(Build, pf, msg); o.Ok? && o.val.Arr? && AllObjects(o.val.items)
    ensures forall c <- Requests(ParseValue(Build, pf, msg).val.items) :: !IsNotification(c) ==>
              WellFormed(Lookup(c, "id").value)
  {
    ParsedWellFormed(Build, pf, msg);
    var items := ParseValue(Build, pf, msg).val.items;
    forall c | c in Requests(items) && !IsNotification(c) ensures WellFormed(Lookup(c, "id").value) {
      var i :| 0 <= i < |items| && Requests(items)[i] == c;
      assert items[i] in items;
      LookupFinds(c, "id");
    }
  }

  /** What the text `reply` tells about the requests that have an id: their responses, in their order. */
  ghost predicate AnswersInOrder(pf: Platform, reply: string, contexts: seq<Object>, answers: seq<Answer>)
    requires |contexts| == |answers|
  {
    var o := ParseValue(Build, pf, reply);
    && o.Ok? && o.rest == "" && o.val.Arr? && |o.val.items| == Rank(contexts, |contexts|)
    && forall i :: 0 <= i < |contexts| && !IsNotification(contexts[i]) ==>
         && Rank(contexts, i) < |o.val.items|
         && var r := o.val.items[Rank(contexts, i)];
            r.Obj? && IsResponse(r.fields, Lookup(contexts[i], "id"), answers[i])
  }

  /**
   * From text to text. For every message that is a batch of calls, whatever was sent before, whichever
   * calls are answered during the dispatch and in whatever order the others answer later: once each call
   * has answered, exactly one more text has been sent, and it tells the answers in the order of the calls;
   * the answer of a call to a registered method that answers at once is what its function answered.
   */
  lemma {:induction false} MessageAnswered(
    pf: Platform, handlers: map<string, Handler>, msg: string, prior: seq<string>, later: seq<Event>, answers: seq<Answer>)
    requires var o := ParseValue(Build, pf, msg);
             o.Ok? && o.val.Arr? && o.val.items != [] && AllObjects(o.val.items)
    requires var contexts := Requests(ParseValue(Build, pf, msg).val.items);
             && |answers| == |contexts| && (forall k :: 0 <= k < |contexts| ==> Callable(contexts[k]))
             && (forall c <- contexts :: !IsNotification(c) ==> DoubleFree(Lookup(c, "id").value))
             && AnswersOnce(Dispatched(handlers, contexts, |contexts|) + later, answers)
    requires forall a <- answers :: PrintableAnswer(a)
    ensures var contexts := Requests(ParseValue(Build, pf, msg).val.items);
            var start := BatchState(contexts, map[], prior);
            && InRange(later, |contexts|)
            && var replies := Run(pf, Run(pf, start, Dispatched(handlers, contexts, |contexts|)), later).replies;
               |replies| == |prior| + 1 && prior <= replies && AnswersInOrder(pf, replies[|prior|], contexts, answers)
    ensures var contexts := Requests(ParseValue(Build, pf, msg).val.items);
            forall k: nat, a :: k < |contexts| && AnswersAtOnce(handlers, k, contexts[k], a) ==> answers[k] == a
  {
    var contexts := Requests(ParseValue(Build, pf, msg).val.items);
    var start, now := BatchState(contexts, map[], prior), Dispatched(handlers, contexts, |contexts|);
    WholeBatch(pf, handlers, contexts, later, answers);
    RunContinues(pf, start, now, later);
    OrderIrrelevant(pf, contexts, now + later, answers);
    RunAfter(pf, contexts, prior, now + later);
    IdsWellFormed(pf, msg);
    BatchReplyParsed(pf, contexts, answers);
    AtOnceGiven(handlers, contexts, later, answers);
  }

  /** The answers that come at once are among those of the run. */
  lemma {:induction false} AtOnceGiven(handlers: map<string, Handler>, contexts: seq<Object>, later: seq<Event>, answers: seq<Answer>)
    requires |answers| == |contexts| && forall k :: 0 <= k < |contexts| ==> Callable(contexts[k])
    requires AnswersOnce(Dispatched(handlers, contexts, |contexts|) + later, answers)
    ensures forall k: nat, a :: k < |contexts| && AnswersAtOnce(handlers, k, contexts[k], a) ==> answers[k] == a
  {
    var now := Dispatched(handlers, contexts, |contexts|);
    forall k: nat, a | k < |contexts| && AnswersAtOnce(handlers, k, contexts[k], a) ensures answers[k] == a {
      DispatchedAre(handlers, contexts, |contexts|, Event(k, a));
      var j :| 0 <= j < |now| && now[j] == Event(k, a);
      assert (now + later)[j] == Event(k, a);
    }
  }

  // Single calls and refusals

  /** What one call outside a batch sends when it answers: its response, if it has an id, and nothing else. */
  lemma {:induction false} SingleTold(pf: Platform, request: Object, a: Answer)
    requires PrintableAnswer(a) && (!IsNotification(request) ==> Printable(Lookup(request, "id").value))
    ensures SingleReply(pf, request, None) == []
    ensures var sent := SingleReply(pf, request, Some(a));
            if IsNotification(request) then sent == []
            else
              |sent| == 1 && var o := ParseValue(Build, pf, sent[0]);
              o.Ok? && o.rest == "" && o.val.Obj? && IsResponse(o.val.fields, Lookup(request, "id"), a)
  {
    if !IsNotification(request) {
      ResponseMembers(request, a);
      ResponsePrintable(request, a);
      RoundTrip(pf, Response(request, a), false, "");
      assert Text(pf, Response(request, a), false) + "" == Text(pf, Response(request, a), false);
    }
  }

  /** What is sent for a text that is no request: an error of that code and message, without an id. */
  lemma {:induction false} RefusalTold(pf: Platform, code: int64, message: string)
    ensures var o := ParseValue(Build, pf, Text(pf, Refusal(code, message), false));
            o.Ok? && o.rest == "" && o.val.Obj? && IsResponse(o.val.fields, None, Error(code, message, Null))
  {
    var v := Refusal(code, message);
    RefusalMembers(code, message);
    ErrorPrintable(code, message, Null);
    PutPrintable([], Field("error", Obj(ErrorObject(code, message, Null))));
    PutPrintable(Put([], Field("error", Obj(ErrorObject(code, message, Null)))), Field("jsonrpc", Str("2.0")));
    RoundTrip(pf, v, false, "");
    assert Text(pf, v, false) + "" == Text(pf, v, false);
  }
}
