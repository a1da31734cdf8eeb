/** Batches over whole runs of answers: when the reply is sent, and that its content does not depend on the order. */
module JsonRpcRuns {
  import opened JsonNumbers
  import opened JsonValues
  import opened JsonParse
  import opened JsonPrint
  import opened JsonRoundTrip
  import opened JsonRpc

  function Start(contexts: seq<Object>): BatchState {
    BatchState(contexts, map[], [])
  }

  ghost predicate Answered(events: seq<Event>, i: nat) {
    exists k :: 0 <= k < |events| && events[k].index == i
  }

  /** Every context has been answered. */
  ghost predicate Covers(events: seq<Event>, n: nat) {
    forall i: nat :: i < n ==> Answered(events, i)
  }

  lemma {:induction false} AnsweredSnoc(events: seq<Event>, e: Event, i: nat)
    ensures Answered(events + [e], i) <==> Answered(events, i) || e.index == i
  {
    var more := events + [e];
    if Answered(events, i) {
      var k :| 0 <= k < |events| && events[k].index == i;
      assert more[k].index == i;
    }
    if e.index == i {
      assert more[|events|].index == i;
    }
  }

  lemma Snoc(events: seq<Event>)
    requires events != []
    ensures events == events[..|events| - 1] + [events[|events| - 1]]
  {
  }

  /** The results held are those of the contexts answered so far. */
  lemma {:induction false} ResultsAre(pf: Platform, contexts: seq<Object>, events: seq<Event>)
    requires InRange(events, |contexts|)
    ensures forall i: nat :: i in Run(pf, Start(contexts), events).results <==> Answered(events, i)
  {
    if events != [] {
      var front, e := events[..|events| - 1], events[|events| - 1];
      ResultsAre(pf, contexts, front);
      Snoc(events);
      forall i: nat ensures i in Run(pf, Start(contexts), events).results <==> Answered(events, i) {
        AnsweredSnoc(front, e, i);
      }
    }
  }

  lemma {:induction false} FullWhenCovered(pf: Platform, contexts: seq<Object>, events: seq<Event>)
    requires InRange(events, |contexts|)
    ensures |Run(pf, Start(contexts), events).results| >= |contexts| <==> Covers(events, |contexts|)
  {
    var keys := Run(pf, Start(contexts), events).results.Keys;
    ResultsAre(pf, contexts, events);
    AllIndices(keys, |contexts|);
    if Covers(events, |contexts|) {
      AtLeast(keys, |contexts|);
    }
  }

  lemma {:induction false} AtLeast(keys: set<nat>, n: nat)
    requires forall i: nat :: i < n ==> i in keys
    ensures |keys| >= n
  {
    if n > 0 {
      AtLeast(keys - {n - 1}, n - 1);
    }
  }

  /** An answer makes the batch reply exactly when no context is unanswered after it. */
  lemma {:induction false} RepliesWhenCovered(pf: Platform, contexts: seq<Object>, events: seq<Event>)
    requires events != [] && InRange(events, |contexts|)
    ensures var before := Run(pf, Start(contexts), events[..|events| - 1]);
            var after := Run(pf, Start(contexts), events);
            var n := |contexts|;
            if Covers(events, n) then
              && (forall i: nat :: i < n ==> i in after.results)
              && after.replies == before.replies + [Text(pf, Arr(Collect(contexts, after.results, n)), false)]
            else after.replies == before.replies
  {
    FullWhenCovered(pf, contexts, events);
    ResultsAre(pf, contexts, events);
  }

  /** How many of the answers leave no context unanswered. */
  ghost function CoveringAnswers(events: seq<Event>, n: nat): nat {
    if events == [] then 0
    else CoveringAnswers(events[..|events| - 1], n) + if Covers(events, n) then 1 else 0
  }

  /** The number of replies sent over any run of answers. */
  lemma {:induction false} ReplyCount(pf: Platform, contexts: seq<Object>, events: seq<Event>)
    requires InRange(events, |contexts|)
    ensures |Run(pf, Start(contexts), events).replies| == CoveringAnswers(events, |contexts|)
  {
    if events != [] {
      ReplyCount(pf, contexts, events[..|events| - 1]);
      RepliesWhenCovered(pf, contexts, events);
    }
  }

  lemma {:induction false} NoCoverNoReply(events: seq<Event>, n: nat)
    ensures !Covers(events, n) ==> CoveringAnswers(events, n) == 0
    ensures events != [] && Covers(events, n) ==> CoveringAnswers(events, n) > 0
  {
    if events != [] {
      var front := events[..|events| - 1];
      Snoc(events);
      NoCoverNoReply(front, n);
      if Covers(front, n) {
        forall i: nat | i < n ensures Answered(events, i) {
          AnsweredSnoc(front, events[|events| - 1], i);
        }
      }
    }
  }

  /**
   * The reply is sent exactly once if and only if the last answer is the one that answers the last open
   * context. So a context answered twice after all have answered sends the reply again.
   */
  lemma {:induction false} OneReply(pf: Platform, contexts: seq<Object>, events: seq<Event>)
    requires events != [] && InRange(events, |contexts|)
    ensures var n := |contexts|;
            |Run(pf, Start(contexts), events).replies| == 1
            <==> Covers(events, n) && !Covers(events[..|events| - 1], n)
  {
    var front := events[..|events| - 1];
    var n := |contexts|;
    ReplyCount(pf, contexts, events);
    NoCoverNoReply(front, n);
    NoCoverNoReply(events, n);
    if front == [] {
      assert events[0].index < n;
      assert !Answered(front, 0);
    }
  }

  /** So it happens: the only call of a batch answers twice and the batch is replied to twice. */
  lemma {:induction false} RepliesTwice(pf: Platform, request: Object, a: Answer, b: Answer)
    ensures var events := [Event(0, a), Event(0, b)];
            InRange(events, 1) && |Run(pf, Start([request]), events).replies| == 2
  {
    var events := [Event(0, a), Event(0, b)];
    ReplyCount(pf, [request], events);
    assert events[..1] == [Event(0, a)] && events[..1][..0] == [];
    assert Answered(events, 0) && Answered(events[..1], 0) by {
      assert events[0].index == 0 && events[..1][0].index == 0;
    }
    assert Covers(events, 1) && Covers(events[..1], 1);
    assert CoveringAnswers(events[..1], 1) == 1;
  }

  // What a reply tells

  /** The last answer of a context. */
  ghost function LatestFor(events: seq<Event>, i: nat): Answer
    requires Answered(events, i)
  {
    var last := events[|events| - 1];
    if last.index == i then last.answer
    else
      assert forall k :: 0 <= k < |events| - 1 ==> events[..|events| - 1][k] == events[k];
      LatestFor(events[..|events| - 1], i)
  }

  ghost function Latest(events: seq<Event>, n: nat): (answers: seq<Answer>)
    requires Covers(events, n)
    ensures |answers| == n
  {
    seq(n, i requires 0 <= i < n => LatestFor(events, i))
  }

  lemma {:induction false} ResultsAreLatest(pf: Platform, contexts: seq<Object>, events: seq<Event>)
    requires InRange(events, |contexts|)
    ensures var results := Run(pf, Start(contexts), events).results;
            forall i: nat :: i in results ==>
              i < |contexts| && Answered(events, i) && results[i] == Response(contexts[i], LatestFor(events, i))
  {
    ResultsAre(pf, contexts, events);
    if events != [] {
      ResultsAreLatest(pf, contexts, events[..|events| - 1]);
    }
  }

  /**
   * Over every run of answers: an answer after which every call has one sends a reply, which tells the latest
   * answer of each; any other answer sends nothing.
   */
  lemma {:induction false} RepliesTell(pf: Platform, contexts: seq<Object>, events: seq<Event>)
    requires events != [] && InRange(events, |contexts|)
    ensures var before := Run(pf, Start(contexts), events[..|events| - 1]).replies;
            var n := |contexts|;
            Run(pf, Start(contexts), events).replies ==
            before + if Covers(events, n) then [BatchReply(pf, contexts, Latest(events, n))] else []
  {
    RepliesWhenCovered(pf, contexts, events);
    var n := |contexts|;
    if Covers(events, n) {
      var results := Run(pf, Start(contexts), events).results;
      ResultsAreLatest(pf, contexts, events);
      CollectKeeps(contexts, Given(contexts, Latest(events, n)), results, n);
    }
  }

  // Every context answers exactly once

  /** `events` is some order of the answers, one for each context. */
  ghost predicate AnswersOnce(events: seq<Event>, answers: seq<Answer>) {
    && |events| == |answers|
    && (forall k :: 0 <= k < |events| ==> events[k].index < |answers| && events[k].answer == answers[events[k].index])
    && (forall j, k :: 0 <= j < k < |events| ==> events[j].index != events[k].index)
  }

  ghost function Indices(events: seq<Event>): set<nat> {
    set k | 0 <= k < |events| :: events[k].index
  }

  lemma {:induction false} DistinctIndices(events: seq<Event>)
    requires forall j, k :: 0 <= j < k < |events| ==> events[j].index != events[k].index
    ensures |Indices(events)| == |events|
  {
    if events != [] {
      var front, i := events[..|events| - 1], events[|events| - 1].index;
      DistinctIndices(front);
      assert Indices(events) == Indices(front) + {i};
      assert i !in Indices(front);
    }
  }

  lemma {:induction false} OnceCovers(events: seq<Event>, answers: seq<Answer>)
    requires AnswersOnce(events, answers) && events != []
    ensures InRange(events, |answers|)
    ensures Covers(events, |answers|) && !Covers(events[..|events| - 1], |answers|)
  {
    var front := events[..|events| - 1];
    DistinctIndices(events);
    AllIndices(Indices(events), |answers|);
    forall i: nat | i < |answers| ensures Answered(events, i) {
      assert i in Indices(events);
    }
    assert !Answered(front, events[|events| - 1].index);
  }

  lemma {:induction false} CoversMonotone(events: seq<Event>, k: nat, m: nat, n: nat)
    requires k <= m <= |events|
    ensures Covers(events[..k], n) ==> Covers(events[..m], n)
  {
    if Covers(events[..k], n) {
      forall i: nat | i < n ensures Answered(events[..m], i) {
        assert Answered(events[..k], i);
        var j :| 0 <= j < |events[..k]| && events[..k][j].index == i;
        assert events[..m][j].index == i;
      }
    }
  }

  /** The values that belong to the first n requests with an id, in request order. */
  function Kept(contexts: seq<Object>, values: seq<Value>, n: nat): seq<Value>
    requires n <= |contexts| == |values|
  {
    if n == 0 then []
    else Kept(contexts, values, n - 1) + if IsNotification(contexts[n - 1]) then [] else [values[n - 1]]
  }

  /** What each context hands to the batch. */
  function Given(contexts: seq<Object>, answers: seq<Answer>): (values: seq<Value>)
    requires |contexts| == |answers|
    ensures |values| == |contexts|
  {
    seq(|contexts|, i requires 0 <= i < |contexts| => Response(contexts[i], answers[i]))
  }

  function Responses(contexts: seq<Object>, answers: seq<Answer>): seq<Value>
    requires |contexts| == |answers|
  {
    Kept(contexts, Given(contexts, answers), |contexts|)
  }

  lemma {:induction false} ResultsHold(pf: Platform, contexts: seq<Object>, events: seq<Event>, answers: seq<Answer>)
    requires |answers| == |contexts|
    requires forall e <- events :: e.index < |contexts| && e.answer == answers[e.index]
    ensures var results := Run(pf, Start(contexts), events).results;
            forall i <- results :: i < |contexts| && results[i] == Response(contexts[i], answers[i])
  {
    if events != [] {
      ResultsHold(pf, contexts, events[..|events| - 1], answers);
    }
  }

  lemma {:induction false} CollectKeeps(contexts: seq<Object>, values: seq<Value>, results: map<nat, Value>, n: nat)
    requires n <= |contexts| == |values|
    requires forall i: nat :: i < n ==> i in results && results[i] == values[i]
    requires forall i :: 0 <= i < n && !IsNotification(contexts[i]) ==> values[i].Obj?
    ensures Collect(contexts, results, n) == Kept(contexts, values, n)
  {
    if n > 0 {
      CollectKeeps(contexts, values, results, n - 1);
    }
  }

  /** The text of the reply to a batch. */
  function BatchReply(pf: Platform, contexts: seq<Object>, answers: seq<Answer>): string
    requires |contexts| == |answers|
  {
    Text(pf, Arr(Responses(contexts, answers)), false)
  }

  /**
   * If every context answers exactly once, in any order, the reply is sent once: by the last answer and
   * by none before it, and it is the same text for every order.
   */
  lemma {:induction false} BatchRepliesOnce(pf: Platform, contexts: seq<Object>, events: seq<Event>, answers: seq<Answer>)
    requires |answers| == |contexts| && AnswersOnce(events, answers) && contexts != []
    ensures InRange(events, |contexts|)
    ensures Run(pf, Start(contexts), events).replies == [BatchReply(pf, contexts, answers)]
    ensures forall k :: 0 <= k < |events| ==>
              InRange(events[..k], |contexts|) && Run(pf, Start(contexts), events[..k]).replies == []
  {
    var n, last := |contexts|, |events| - 1;
    OnceCovers(events, answers);
    forall k | 0 <= k < |events|
      ensures InRange(events[..k], n) && Run(pf, Start(contexts), events[..k]).replies == []
    {
      assert forall e <- events[..k] :: e in events;
      ReplyCount(pf, contexts, events[..k]);
      NoCoverNoReply(events[..k], n);
      CoversMonotone(events, k, last, n);
    }
    RepliesWhenCovered(pf, contexts, events);
    assert forall e <- events :: e.answer == answers[e.index];
    ResultsHold(pf, contexts, events, answers);
    CollectKeeps(contexts, Given(contexts, answers), Run(pf, Start(contexts), events).results, n);
  }

  /** Where every order of the answers ends. */
  function Finished(pf: Platform, contexts: seq<Object>, answers: seq<Answer>): BatchState
    requires |contexts| == |answers|
  {
    BatchState(contexts, map i: nat | i < |contexts| :: Response(contexts[i], answers[i]),
               if contexts == [] then [] else [BatchReply(pf, contexts, answers)])
  }

  /** Two orders of the same answers cannot be told apart: every order ends in the same state. */
  lemma {:induction false} OrderIrrelevant(pf: Platform, contexts: seq<Object>, events: seq<Event>, answers: seq<Answer>)
    requires |answers| == |contexts| && AnswersOnce(events, answers)
    ensures InRange(events, |contexts|)
    ensures Run(pf, Start(contexts), events) == Finished(pf, contexts, answers)
  {
    if contexts != [] {
      BatchRepliesOnce(pf, contexts, events, answers);
      OnceCovers(events, answers);
      ResultsAre(pf, contexts, events);
      ResultsHold(pf, contexts, events, answers);
      var r := Run(pf, Start(contexts), events);
      assert r.results == Finished(pf, contexts, answers).results;
    }
  }

  /** Texts sent before a batch are left alone. */
  lemma {:induction false} RunAfter(pf: Platform, contexts: seq<Object>, prior: seq<string>, events: seq<Event>)
    requires InRange(events, |contexts|)
    ensures var r := Run(pf, Start(contexts), events);
            Run(pf, BatchState(contexts, map[], prior), events) == BatchState(contexts, r.results, prior + r.replies)
  {
    if events == [] {
      assert prior + [] == prior;
    } else {
      RunAfter(pf, contexts, prior, events[..|events| - 1]);
      var r := Run(pf, Start(contexts), events[..|events| - 1]);
      var s := Run(pf, Start(contexts), events);
      assert s.replies == r.replies || prior + s.replies == prior + r.replies + s.replies[|r.replies|..];
    }
  }

  lemma {:induction false} RunContinues(pf: Platform, b: BatchState, e1: seq<Event>, e2: seq<Event>)
    requires b.Valid() && InRange(e1, |b.contexts|) && InRange(e2, |b.contexts|)
    ensures InRange(e1 + e2, |b.contexts|)
    ensures Run(pf, b, e1 + e2) == Run(pf, Run(pf, b, e1), e2)
    decreases |e2|
  {
    if e2 == [] {
      assert e1 + e2 == e1;
    } else {
      assert (e1 + e2)[..|e1 + e2| - 1] == e1 + e2[..|e2| - 1];
      RunContinues(pf, b, e1, e2[..|e2| - 1]);
    }
  }

  /**
   * A whole batch: some calls are answered while they are dispatched (unknown methods always are), the
   * others later in any order. If every call is answered once, the caller gets one text.
   */
  lemma {:induction false} WholeBatch(pf: Platform, handlers: map<string, Handler>, contexts: seq<Object>, later: seq<Event>, answers: seq<Answer>)
    requires |answers| == |contexts| && forall k :: 0 <= k < |contexts| ==> Callable(contexts[k])
    requires AnswersOnce(Dispatched(handlers, contexts, |contexts|) + later, answers)
    ensures var start := Start(contexts);
            && InRange(later, |contexts|)
            && Run(pf, Run(pf, start, Dispatched(handlers, contexts, |contexts|)), later) == Finished(pf, contexts, answers)
  {
    var now := Dispatched(handlers, contexts, |contexts|);
    forall e | e in later ensures e.index < |contexts| {
      var k :| 0 <= k < |later| && later[k] == e;
      assert (now + later)[|now| + k] == e;
    }
    OrderIrrelevant(pf, contexts, now + later, answers);
    RunContinues(pf, Start(contexts), now, later);
  }

  lemma {:induction false} NothingKept(contexts: seq<Object>, values: seq<Value>, n: nat)
    requires n <= |contexts| == |values| && forall c <- contexts :: IsNotification(c)
    ensures Kept(contexts, values, n) == []
  {
    if n > 0 {
      NothingKept(contexts, values, n - 1);
    }
  }

  /** Section 6 of JSON-RPC 2.0 wants no reply to a batch of notifications; the library sends an empty array. */
  lemma {:induction false} AllNotifications(pf: Platform, contexts: seq<Object>, answers: seq<Answer>)
    requires |contexts| == |answers| && forall c <- contexts :: IsNotification(c)
    ensures BatchReply(pf, contexts, answers) == "[]"
  {
    NothingKept(contexts, Given(contexts, answers), |contexts|);
    assert Items(pf, [], -1, true) == "";
  }

  // From the text of the reply back to the requests

  /** How many of the first i requests have an id. */
  function Rank(contexts: seq<Object>, i: nat): nat
    requires i <= |contexts|
  {
    if i == 0 then 0 else Rank(contexts, i - 1) + if IsNotification(contexts[i - 1]) then 0 else 1
  }

  lemma {:induction false} KeptCounted(contexts: seq<Object>, values: seq<Value>, n: nat)
    requires n <= |contexts| == |values|
    ensures |Kept(contexts, values, n)| == Rank(contexts, n)
  {
    if n > 0 {
      KeptCounted(contexts, values, n - 1);
    }
  }

  lemma {:induction false} KeptAtRank(contexts: seq<Object>, values: seq<Value>, n: nat, i: nat)
    requires i < n <= |contexts| == |values| && !IsNotification(contexts[i])
    ensures Rank(contexts, i) < Rank(contexts, n) == |Kept(contexts, values, n)|
    ensures Kept(contexts, values, n)[Rank(contexts, i)] == values[i]
  {
    KeptCounted(contexts, values, n - 1);
    if i < n - 1 {
      KeptAtRank(contexts, values, n - 1, i);
    }
  }

  ghost predicate Printable(v: Value) {
    WellFormed(v) && DoubleFree(v)
  }

  ghost predicate PrintableAnswer(a: Answer) {
    match a
    case Result(value) => Printable(value)
    case Error(_, _, data) => Printable(data)
  }

  lemma {:induction false} PutPrintable(o: Object, f: Field)
    requires Printable(Obj(o)) && Printable(f.val)
    ensures Printable(Obj(Put(o, f)))
  {
    PutSorted(o, f);
    PutKeepsKeys(o, f);
  }

  lemma {:induction false} ResponsePrintable(request: Object, a: Answer)
    requires !IsNotification(request) && Printable(Lookup(request, "id").value) && PrintableAnswer(a)
    ensures Printable(Response(request, a))
  {
    var id := Lookup(request, "id").value;
    PutPrintable([], Field("jsonrpc", Str("2.0")));
    var o := Put([], Field("jsonrpc", Str("2.0")));
    PutPrintable(o, Field("id", id));
    match a
    case Result(value) => PutPrintable(Put(o, Field("id", id)), Field("result", value));
    case Error(code, message, data) =>
      ErrorPrintable(code, message, data);
      PutPrintable(Put(o, Field("id", id)), Field("error", Obj(ErrorObject(code, message, data))));
  }

  lemma {:induction false} ErrorPrintable(code: int64, message: string, data: Value)
    requires Printable(data)
    ensures Printable(Obj(ErrorObject(code, message, data)))
  {
    PutPrintable([], Field("code", Int(code)));
    var e := Put([], Field("code", Int(code)));
    PutPrintable(e, Field("message", Str(message)));
    PutPrintable(Put(e, Field("message", Str(message))), Field("data", data));
  }

  lemma {:induction false} KeptFrom(contexts: seq<Object>, values: seq<Value>, n: nat)
    requires n <= |contexts| == |values|
    requires forall i :: 0 <= i < n && !IsNotification(contexts[i]) ==> Printable(values[i])
    ensures forall v <- Kept(contexts, values, n) :: Printable(v)
  {
    if n > 0 {
      KeptFrom(contexts, values, n - 1);
    }
  }

  /**
   * End to end: parsing the reply to a batch gives an array with exactly one object per request that has
   * an id, in the order of the requests, and the object for a request carries its id and its answer.
   */
  lemma {:induction false} BatchReplyParsed(pf: Platform, contexts: seq<Object>, answers: seq<Answer>)
    requires |contexts| == |answers|
    requires forall a <- answers :: PrintableAnswer(a)
    requires forall c <- contexts :: !IsNotification(c) ==> Printable(Lookup(c, "id").value)
    ensures var o := ParseValue(Build, pf, BatchReply(pf, contexts, answers));
            && o.Ok? && o.rest == "" && o.val.Arr?
            && |o.val.items| == Rank(contexts, |contexts|)
            && forall i :: 0 <= i < |contexts| && !IsNotification(contexts[i]) ==>
                 && Rank(contexts, i) < |o.val.items|
                 && var r := o.val.items[Rank(contexts, i)];
                    && r == Response(contexts[i], answers[i])
                    && r.Obj? && IsResponse(r.fields, Lookup(contexts[i], "id"), answers[i])
  {
    var n, values, items := |contexts|, Given(contexts, answers), Responses(contexts, answers);
    forall i | 0 <= i < n && !IsNotification(contexts[i]) ensures Printable(values[i]) {
      ResponsePrintable(contexts[i], answers[i]);
    }
    KeptFrom(contexts, values, n);
    KeptCounted(contexts, values, n);
    RoundTrip(pf, Arr(items), false, "");
    assert BatchReply(pf, contexts, answers) + "" == BatchReply(pf, contexts, answers);
    forall i | 0 <= i < n && !IsNotification(contexts[i])
      ensures Rank(contexts, i) < |items| && items[Rank(contexts, i)] == Response(contexts[i], answers[i])
      ensures var r := Response(contexts[i], answers[i]); r.Obj? && IsResponse(r.fields, Lookup(contexts[i], "id"), answers[i])
    {
      KeptAtRank(contexts, values, n, i);
      ResponseMembers(contexts[i], answers[i]);
    }
  }
}
