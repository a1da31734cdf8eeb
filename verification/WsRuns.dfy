/**
 * Whole runs of one websocket connection. Any number of threads send and close; completions and client
 * messages arrive one at a time on the connection's completion queue.
 */
module WsRuns {
  import opened Outcomes
  import opened WsWriter

  /**
   * `pending` are the responses of threads that have seen `done` false and not yet got the queue.
   * `enqueued` and `completed` record what entered and left the queue, `heard` the messages other than CLOSE
   * that the client sent while the connection was open, `readings` how many reads have completed.
   */
  datatype System = System(
    w: Writer, connecting: bool, reading: bool, pending: seq<Entry>,
    enqueued: seq<Entry>, completed: seq<Entry>, clientCloses: nat, heard: seq<Message>, readings: nat)

  datatype Step =
    | Send(e: Entry)      // send_message or close, test and queue in one
    | Check(e: Entry)     // send_message or close: the test of `done` alone
    | Enqueue(k: nat)     // the queue_response of the k-th pending thread
    | Greet               // on_connect queues the reply
    | Complete(ok: bool)  // the outstanding write completes
    | Receive(m: Message) // the outstanding read completes

  /** The entries handed to stream.Write so far. */
  function Issued(log: Log): seq<Entry> {
    match log
    case Empty => []
    case Issue(op, earlier) => if op.Write? then Issued(earlier) + [op.entry] else Issued(earlier)
  }

  function Count(log: Log, op: Op): nat {
    match log
    case Empty => 0
    case Issue(last, earlier) => Count(earlier, op) + if last == op then 1 else 0
  }

  function CallbacksRun(log: Log): seq<nat> {
    match log
    case Empty => []
    case Issue(op, earlier) => if op.Callback? then CallbacksRun(earlier) + [op.cb] else CallbacksRun(earlier)
  }

  /** The messages handed to the application. */
  function Told(log: Log): seq<Message> {
    match log
    case Empty => []
    case Issue(op, earlier) => if op.OnMessage? then Told(earlier) + [op.msg] else Told(earlier)
  }

  predicate Outstanding(s: System) {
    |Issued(s.w.log)| > |s.completed|
  }

  /** CLOSE responses carry a callback that does nothing. */
  predicate Proper(e: Entry) {
    e.msg.Close? ==> e.cb.None?
  }

  predicate Enabled(s: System, step: Step) {
    match step
    case Send(e) => Proper(e)
    case Check(e) => Proper(e)
    case Enqueue(k) => k < |s.pending|
    case Greet => s.connecting
    case Complete(_) => !s.connecting && Outstanding(s)
    case Receive(_) => !s.connecting && s.reading
  }

  function Push(s: System, e: Entry): System {
    s.(w := Queued(s.w, e), enqueued := s.enqueued + [e])
  }

  /** Taken together the routines keep the queue non-empty while a write is outstanding; see WriterInvariant. */
  function Next(s: System, step: Step): System
    requires Enabled(s, step) && (step.Complete? ==> s.w.queue != [])
  {
    match step
    case Send(e) => s.(w := Sent(s.w, e), enqueued := if s.w.done then s.enqueued else s.enqueued + [e])
    case Check(e) => if s.w.done then s else s.(pending := s.pending + [e])
    case Enqueue(k) =>
      Push(s.(pending := s.pending[..k] + s.pending[k + 1..]), s.pending[k])
    case Greet => Push(s.(connecting := false), Entry(Reply, None))
    case Complete(_) => s.(w := Written(s.w), completed := s.completed + [s.w.queue[0]])
    case Receive(m) =>
      s.(w := Received(s.w, m), reading := !m.Close? && !s.w.done,
         clientCloses := s.clientCloses + (if m.Close? then 1 else 0),
         heard := if m.Close? || s.w.done then s.heard else s.heard + [m], readings := s.readings + 1)
  }

  /** A connection whose handler has just been called with it; the first read is outstanding. */
  const START := System(Writer([], false, Issue(Read, Empty)), true, true, [], [], [], 0, [], 0)

  function CloseCount(entries: seq<Entry>): nat {
    if entries == [] then 0
    else CloseCount(entries[..|entries| - 1]) + if entries[|entries| - 1].msg.Close? then 1 else 0
  }

  function CallbacksOf(entries: seq<Entry>): seq<nat> {
    if entries == [] then []
    else
      CallbacksOf(entries[..|entries| - 1])
      + match entries[|entries| - 1].cb case Some(cb) => [cb] case None => []
  }

  /** Strict first in, first out: nothing lost, nothing repeated, at most one write ahead of the completions. */
  ghost predicate Fifo(s: System) {
    var issued := Issued(s.w.log);
    && s.enqueued == s.completed + s.w.queue
    && |s.completed| <= |issued| <= |s.completed| + 1
    && issued <= s.enqueued
    // an open connection with something to write is writing
    && (s.w.queue != [] && !s.w.done ==> |issued| > |s.completed|)
    && (s.connecting ==> !s.w.done && s.completed == [])
  }

  /** The call is finished once when it is done; every CLOSE is announced; the callbacks run are those of the completed. */
  ghost predicate Tallies(s: System) {
    && Count(s.w.log, Finish) == (if s.w.done then 1 else 0)
    && Count(s.w.log, OnDisconnect) == CloseCount(s.completed) + s.clientCloses
    && CallbacksRun(s.w.log) == CallbacksOf(s.completed)
  }

  /**
   * The application is told every message once, in order, and each before the next read; one read is
   * outstanding until a CLOSE or a message on a finished connection ends reading; on_disconnect comes before Finish.
   */
  ghost predicate Heeded(s: System) {
    && Told(s.w.log) == s.heard
    && Count(s.w.log, Read) == s.readings + (if s.reading then 1 else 0)
    && s.readings == |s.heard| + (if s.reading then 0 else 1)
    && Sequenced(s.w.log)
  }

  ghost predicate Sequenced(log: Log) {
    match log
    case Empty => true
    case Issue(op, earlier) =>
      && Sequenced(earlier)
      && (op.Finish? ==> Count(earlier, OnDisconnect) > 0)
      && (op.Read? ==> |Told(earlier)| == Count(earlier, Read))
      && (op.OnMessage? ==> |Told(earlier)| + 1 == Count(earlier, Read))
  }

  ghost predicate AllProper(s: System) {
    && (forall i :: 0 <= i < |s.enqueued| ==> Proper(s.enqueued[i]))
    && (forall i :: 0 <= i < |s.pending| ==> Proper(s.pending[i]))
  }

  ghost predicate Inv(s: System) {
    Fifo(s) && Tallies(s) && Heeded(s) && AllProper(s)
  }

  /** A run: steps that are not possible where they stand are skipped. */
  function Exec(steps: seq<Step>): System {
    if steps == [] then START else Try(Exec(steps[..|steps| - 1]), steps[|steps| - 1])
  }

  function Try(s: System, step: Step): System {
    if Enabled(s, step) && (step.Complete? ==> s.w.queue != []) then Next(s, step) else s
  }

  lemma {:induction false} ExecOneMore(steps: seq<Step>, step: Step)
    ensures Exec(steps + [step]) == Try(Exec(steps), step)
  {
    assert (steps + [step])[..|steps|] == steps;
  }

  lemma {:induction false} PushKeeps(s: System, e: Entry)
    requires Inv(s) && Proper(e)
    ensures Inv(Push(s, e))
    ensures s.w.queue == [] ==> Issued(Push(s, e).w.log) == Issued(s.w.log) + [e]
    ensures s.w.queue != [] ==> Issued(Push(s, e).w.log) == Issued(s.w.log)
  {
    var t := Push(s, e);
    assert t.enqueued == s.completed + (s.w.queue + [e]);
    if s.w.queue == [] {
      assert s.w.queue + [e] == [e];
      assert Issued(s.w.log) == s.enqueued;
    }
  }

  /** A write that is outstanding is that of the front of the queue. */
  lemma {:induction false} OutstandingIsFront(s: System)
    requires Inv(s) && Outstanding(s)
    ensures s.w.queue != []
    ensures Issued(s.w.log) == s.completed + [s.w.queue[0]]
  {
    var issued := Issued(s.w.log);
    assert |issued| == |s.completed| + 1 <= |s.enqueued|;
    assert issued == s.enqueued[..|issued|];
  }

  lemma {:induction false} CompletedSnoc(entries: seq<Entry>, e: Entry)
    ensures CloseCount(entries + [e]) == CloseCount(entries) + if e.msg.Close? then 1 else 0
    ensures CallbacksOf(entries + [e]) == CallbacksOf(entries) + match e.cb case Some(cb) => [cb] case None => []
  {
    assert (entries + [e])[..|entries|] == entries;
  }

  /** What one more operation adds. */
  lemma OneMore(log: Log, b: bool, op: Op)
    ensures var more := Then(log, b, op);
            && Issued(more) == (if b && op.Write? then Issued(log) + [op.entry] else Issued(log))
            && Count(more, OnDisconnect) == Count(log, OnDisconnect) + (if b && op.OnDisconnect? then 1 else 0)
            && Count(more, Finish) == Count(log, Finish) + (if b && op.Finish? then 1 else 0)
            && CallbacksRun(more) == (if b && op.Callback? then CallbacksRun(log) + [op.cb] else CallbacksRun(log))
            && (!op.Read? && !op.OnMessage? ==> Told(more) == Told(log) && Count(more, Read) == Count(log, Read))
            && (!op.Read? && !op.OnMessage? && !op.Finish? && Sequenced(log) ==> Sequenced(more))
  {
  }

  /** The operations one completion adds. */
  lemma {:induction false} WrittenOps(w: Writer)
    requires w.queue != []
    ensures var e, log := w.queue[0], Written(w).log;
            && Issued(log) == Issued(w.log) + (if !w.done && |w.queue| > 1 then [w.queue[1]] else [])
            && Count(log, OnDisconnect) == Count(w.log, OnDisconnect) + (if e.msg.Close? then 1 else 0)
            && Count(log, Finish) == Count(w.log, Finish) + (if e.msg.Close? && !w.done then 1 else 0)
            && CallbacksRun(log)
               == CallbacksRun(w.log) + (if (e.msg.Close? && w.done) || e.cb.None? then [] else [e.cb.value])
  {
    var front, closing := w.queue[0], w.queue[0].msg.Close?;
    var a := if |w.queue| > 1 then Then(w.log, !w.done, Write(w.queue[1])) else w.log;
    if |w.queue| > 1 {
      OneMore(w.log, !w.done, Write(w.queue[1]));
    }
    var b := Then(a, closing, OnDisconnect);
    OneMore(a, closing, OnDisconnect);
    var c := Then(b, closing && !w.done, Finish);
    OneMore(b, closing && !w.done, Finish);
    if front.cb.Some? {
      OneMore(c, !(closing && w.done), Callback(front.cb.value));
    }
  }

  /** What a completion does to the two ends of the queue. */
  lemma {:induction false} CompleteMoves(s: System, ok: bool)
    requires Inv(s) && Enabled(s, Complete(ok))
    ensures s.w.queue != []
    ensures var t := Next(s, Complete(ok));
            && t.w.queue == s.w.queue[1..] && t.completed == s.completed + [s.w.queue[0]]
            && t.enqueued == s.enqueued == t.completed + t.w.queue
            && Issued(t.w.log) == t.completed + (if !s.w.done && |s.w.queue| > 1 then [s.w.queue[1]] else [])
            && t.w.done == (s.w.done || s.w.queue[0].msg.Close?)
  {
    OutstandingIsFront(s);
    WrittenOps(s.w);
  }

  lemma {:induction false} CompleteFifo(s: System, ok: bool)
    requires Inv(s) && Enabled(s, Complete(ok))
    ensures s.w.queue != [] && Fifo(Next(s, Complete(ok)))
  {
    CompleteMoves(s, ok);
    if !s.w.done && |s.w.queue| > 1 {
      assert s.completed + [s.w.queue[0]] + [s.w.queue[1]] <= s.enqueued;
    }
  }

  /** A completed response runs its callback; a CLOSE, which may return before, has none. */
  lemma {:induction false} WrittenCallbacks(w: Writer)
    requires w.queue != [] && Proper(w.queue[0])
    ensures CallbacksRun(Written(w).log) == CallbacksRun(w.log) + match w.queue[0].cb case Some(cb) => [cb] case None => []
  {
    WrittenOps(w);
  }

  lemma {:induction false} CompleteTallies(s: System, ok: bool)
    requires Inv(s) && Enabled(s, Complete(ok)) && s.w.queue != []
    ensures Tallies(Next(s, Complete(ok)))
  {
    var front, t := s.w.queue[0], Next(s, Complete(ok));
    assert front == s.enqueued[|s.completed|];
    CompletedSnoc(s.completed, front);
    WrittenCallbacks(s.w);
    assert CallbacksRun(t.w.log) == CallbacksOf(t.completed);
    WrittenCounts(s.w);
  }

  lemma {:induction false} WrittenCounts(w: Writer)
    requires w.queue != []
    ensures var t, closing := Written(w), w.queue[0].msg.Close?;
            && t.done == (w.done || closing)
            && Count(t.log, OnDisconnect) == Count(w.log, OnDisconnect) + (if closing then 1 else 0)
            && Count(t.log, Finish) == Count(w.log, Finish) + (if closing && !w.done then 1 else 0)
  {
    WrittenOps(w);
  }

  /** A completion reads nothing and tells nothing. */
  lemma {:induction false} WrittenHeeds(w: Writer)
    requires w.queue != []
    ensures var log := Written(w).log;
            && Told(log) == Told(w.log) && Count(log, Read) == Count(w.log, Read)
            && (Sequenced(w.log) ==> Sequenced(log))
  {
    var front, closing := w.queue[0], w.queue[0].msg.Close?;
    var a := if |w.queue| > 1 then Then(w.log, !w.done, Write(w.queue[1])) else w.log;
    if |w.queue| > 1 {
      OneMore(w.log, !w.done, Write(w.queue[1]));
    }
    var b := Then(a, closing, OnDisconnect);
    OneMore(a, closing, OnDisconnect);
    var c := Then(b, closing && !w.done, Finish);
    OneMore(b, closing && !w.done, Finish);
    if front.cb.Some? {
      OneMore(c, !(closing && w.done), Callback(front.cb.value));
    }
  }

  lemma {:induction false} CompleteKeeps(s: System, ok: bool)
    requires Inv(s) && Enabled(s, Complete(ok))
    ensures s.w.queue != [] && Inv(Next(s, Complete(ok)))
  {
    CompleteFifo(s, ok);
    CompleteTallies(s, ok);
    WrittenHeeds(s.w);
  }

  lemma {:induction false} ReceivedOps(w: Writer, m: Message)
    ensures var log := Received(w, m).log;
            && Issued(log) == Issued(w.log) && CallbacksRun(log) == CallbacksRun(w.log)
            && Count(log, OnDisconnect) == Count(w.log, OnDisconnect) + (if m.Close? then 1 else 0)
            && Count(log, Finish) == Count(w.log, Finish) + (if m.Close? && !w.done then 1 else 0)
  {
    OneMore(w.log, true, OnDisconnect);
    OneMore(Issue(OnDisconnect, w.log), !w.done, Finish);
    OneMore(w.log, true, OnMessage(m));
    OneMore(Issue(OnMessage(m), w.log), true, Read);
  }

  lemma {:induction false} ReceiveHeeds(s: System, m: Message)
    requires Inv(s) && Enabled(s, Receive(m))
    ensures Heeded(Next(s, Receive(m)))
  {
    var l := s.w.log;
    if m.Close? {
      OneMore(l, true, OnDisconnect);
      OneMore(Issue(OnDisconnect, l), !s.w.done, Finish);
    } else if !s.w.done {
      assert Told(Issue(OnMessage(m), l)) == s.heard + [m];
      assert Count(Issue(OnMessage(m), l), Read) == Count(l, Read);
    }
  }

  lemma {:induction false} ReceiveKeeps(s: System, m: Message)
    requires Inv(s) && Enabled(s, Receive(m))
    ensures Inv(Next(s, Receive(m)))
  {
    ReceivedOps(s.w, m);
    ReceiveHeeds(s, m);
  }

  lemma {:induction false} SendKeeps(s: System, e: Entry)
    requires Inv(s) && Enabled(s, Send(e))
    ensures Inv(Next(s, Send(e)))
  {
    if s.w.done {
      assert Next(s, Send(e)) == s;
    } else {
      PushKeeps(s, e);
      assert Next(s, Send(e)) == Push(s, e);
    }
  }

  lemma CheckKeeps(s: System, e: Entry)
    requires Inv(s) && Enabled(s, Check(e))
    ensures Inv(Next(s, Check(e)))
  {
  }

  lemma {:induction false} EnqueueKeeps(s: System, k: nat)
    requires Inv(s) && Enabled(s, Enqueue(k))
    ensures Inv(Next(s, Enqueue(k)))
  {
    PushKeeps(s.(pending := s.pending[..k] + s.pending[k + 1..]), s.pending[k]);
  }

  lemma {:induction false} NextKeeps(s: System, step: Step)
    requires Inv(s) && Enabled(s, step)
    ensures (step.Complete? ==> s.w.queue != []) && Inv(Next(s, step))
  {
    match step
    case Send(e) => SendKeeps(s, e);
    case Check(e) => CheckKeeps(s, e);
    case Enqueue(k) => EnqueueKeeps(s, k);
    case Greet => PushKeeps(s.(connecting := false), Entry(Reply, None));
    case Complete(ok) => CompleteKeeps(s, ok);
    case Receive(m) => ReceiveKeeps(s, m);
  }

  /**
   * In every reachable state, under every interleaving: what was completed and what is queued is what
   * was enqueued, in order; at most one write is outstanding and it is that of the front; an open
   * connection with a non-empty queue has one; the call is finished once when it is done and never
   * otherwise; the callbacks run are those of the completed writes.
   */
  lemma {:induction false} WriterInvariant(steps: seq<Step>)
    ensures var s := Exec(steps);
            && Inv(s)
            && (Outstanding(s) ==> s.w.queue != [] && Issued(s.w.log) == s.completed + [s.w.queue[0]])
            && (!Outstanding(s) ==> Issued(s.w.log) == s.completed)
  {
    if steps != [] {
      WriterInvariant(steps[..|steps| - 1]);
      var s, step := Exec(steps[..|steps| - 1]), steps[|steps| - 1];
      if Enabled(s, step) {
        NextKeeps(s, step);
      }
    }
    var s := Exec(steps);
    if Outstanding(s) {
      OutstandingIsFront(s);
    }
  }

  // on_connect

  function Sends(es: seq<Entry>): seq<Step> {
    seq(|es|, i requires 0 <= i < |es| => Send(es[i]))
  }

  lemma {:induction false} SendsRun(es: seq<Entry>)
    requires forall i :: 0 <= i < |es| ==> Proper(es[i])
    ensures Exec(Sends(es)) == START.(w := SentAll(START.w, es), enqueued := es) && !SentAll(START.w, es).done
  {
    if es != [] {
      var front, last := es[..|es| - 1], es[|es| - 1];
      SendsRun(front);
      assert Sends(es)[..|es| - 1] == Sends(front);
      assert es == front + [last];
    }
  }

  /** on_connect is the run in which the application sends what it likes and then the reply is queued, behind it. */
  lemma {:induction false} ConnectIsRun(es: seq<Entry>)
    requires forall i :: 0 <= i < |es| ==> Proper(es[i])
    ensures var s := Exec(Sends(es) + [Greet]);
            s.w == Connected(Writer([], false, Empty), es) && s.enqueued == es + [Entry(Reply, None)] && !s.connecting
  {
    SendsRun(es);
    ExecOneMore(Sends(es), Greet);
  }

  // Writing after done

  /** A write is issued by `step` although the connection is done. */
  ghost predicate WritesDone(s: System, step: Step)
    requires Enabled(s, step) && (step.Complete? ==> s.w.queue != [])
  {
    s.w.done && Issued(Next(s, step).w.log) != Issued(s.w.log)
  }

  /**
   * The test of `done` and the queueing are two steps. A write is issued on a connection that is done
   * exactly when a thread that passed the test earlier queues into an empty queue.
   */
  lemma {:induction false} WritesDoneExactly(steps: seq<Step>, step: Step)
    requires Enabled(Exec(steps), step)
    ensures var s := Exec(steps);
            (step.Complete? ==> s.w.queue != []) && (WritesDone(s, step) <==> s.w.done && step.Enqueue? && s.w.queue == [])
  {
    WriterInvariant(steps);
    var s := Exec(steps);
    if s.w.done {
      match step
      case Enqueue(k) =>
          PushKeeps(s.(pending := s.pending[..k] + s.pending[k + 1..]), s.pending[k]);
      case Complete(ok) => WrittenOps(s.w);
      case Receive(m) => ReceivedOps(s.w, m);
      case _ =>
    }
  }

  /** It does happen: the client closes between the test and the queue. */
  lemma {:induction false} WritesDoneHappens(e: Entry)
    requires Proper(e)
    ensures var s := Exec([Greet, Complete(true), Check(e), Receive(Close)]);
            Enabled(s, Enqueue(0)) && WritesDone(s, Enqueue(0))
  {
    var r := Entry(Reply, None);
    var s1, s2 := Next(START, Greet), Completed(Next(START, Greet), 1);
    assert s1.w.queue == [r] && Outstanding(s1);
    assert s2 == Next(s1, Complete(true)) && s2.w.queue == [] && !s2.w.done && s2.reading;
    var s3 := Next(s2, Check(e));
    var s4 := Next(s3, Receive(Close));
    ExecIs(Greet, Complete(true), Check(e), Receive(Close));
    WritesDoneExactly([Greet, Complete(true), Check(e), Receive(Close)], Enqueue(0));
  }

  lemma {:induction false} ExecTwo(a: Step, b: Step)
    ensures Exec([a, b]) == Try(Try(START, a), b)
  {
    ExecOneMore([], a);
    ExecOneMore([a], b);
    assert [] + [a] == [a] && [a] + [b] == [a, b];
  }

  lemma {:induction false} ExecIs(a: Step, b: Step, c: Step, d: Step)
    ensures Exec([a, b, c, d]) == Try(Try(Try(Try(START, a), b), c), d)
  {
    ExecTwo(a, b);
    ExecOneMore([a, b], c);
    ExecOneMore([a, b, c], d);
    assert [a, b] + [c] == [a, b, c] && [a, b, c] + [d] == [a, b, c, d];
  }

  /** Every send and close tests and queues in one step. */
  ghost predicate Atomic(steps: seq<Step>) {
    forall step <- steps :: !step.Check?
  }

  ghost predicate AtomicInv(s: System) {
    && s.pending == []
    && forall j :: 0 <= j < |s.completed| && s.completed[j].msg.Close? ==> s.w.done && |Issued(s.w.log)| <= j + 2
  }

  /**
   * When the test and the queueing are one step, no write is issued on a connection that is done, and at
   * most one response is written behind the first CLOSE that completes.
   */
  lemma {:induction false} AtomicSafety(steps: seq<Step>)
    requires Atomic(steps)
    ensures AtomicInv(Exec(steps))
    ensures forall step: Step :: !step.Check? && Enabled(Exec(steps), step) ==>
              (step.Complete? ==> Exec(steps).w.queue != []) && !WritesDone(Exec(steps), step)
  {
    var s := Exec(steps);
    if steps != [] {
      var before := steps[..|steps| - 1];
      AtomicSafety(before);
      WriterInvariant(before);
      var step := steps[|steps| - 1];
      assert step in steps;
      if Enabled(Exec(before), step) {
        AtomicStep(Exec(before), step);
      }
    }
    forall step: Step | !step.Check? && Enabled(s, step)
      ensures (step.Complete? ==> s.w.queue != []) && !WritesDone(s, step)
    {
      WritesDoneExactly(steps, step);
    }
  }

  lemma {:induction false} AtomicStep(s: System, step: Step)
    requires Inv(s) && AtomicInv(s) && Enabled(s, step) && !step.Check?
    requires (step.Complete? ==> s.w.queue != []) && !WritesDone(s, step)
    ensures AtomicInv(Next(s, step))
  {
    var t := Next(s, step);
    if step.Complete? {
      WrittenOps(s.w);
      OutstandingIsFront(s);
      forall j | 0 <= j < |t.completed| && t.completed[j].msg.Close?
        ensures t.w.done && |Issued(t.w.log)| <= j + 2
      {
        if j < |s.completed| {
          assert s.completed[j] == t.completed[j];
        }
      }
    }
  }

  // Progress

  /** The next n completions, while there is a write outstanding. */
  function Completed(s: System, n: nat): System {
    if n == 0 then s else Try(Completed(s, n - 1), Complete(true))
  }

  function Completions(n: nat): seq<Step> {
    if n == 0 then [] else Completions(n - 1) + [Complete(true)]
  }

  lemma {:induction false} ExecCompletions(steps: seq<Step>, n: nat)
    ensures Exec(steps + Completions(n)) == Completed(Exec(steps), n)
  {
    if n == 0 {
      assert steps + [] == steps;
    } else {
      ExecCompletions(steps, n - 1);
      ExecOneMore(steps + Completions(n - 1), Complete(true));
      assert steps + Completions(n) == steps + Completions(n - 1) + [Complete(true)];
    }
  }

  /** An open connection on which nobody has closed and whose reply is queued. */
  ghost predicate Draining(s: System) {
    Inv(s) && !s.w.done && !s.connecting && forall e <- s.w.queue :: !e.msg.Close?
  }

  lemma {:induction false} DrainsOne(m: System)
    requires Draining(m) && m.w.queue != []
    ensures var t := Try(m, Complete(true));
            && Draining(t) && t.completed == m.completed + m.w.queue[..1] && t.w.queue == m.w.queue[1..]
            && t.enqueued == m.enqueued
  {
    CompleteMoves(m, true);
    CompleteKeeps(m, true);
    assert m.w.queue[0] in m.w.queue;
  }

  lemma {:induction false} QueueParts(done: seq<Entry>, q: seq<Entry>, n: nat)
    requires n < |q|
    ensures done + q[..n] + q[n..][..1] == done + q[..n + 1] && q[n..][1..] == q[n + 1..]
  {
    assert q[..n] + q[n..][..1] == q[..n + 1];
  }

  lemma {:induction false} Drains(s: System, n: nat)
    requires Draining(s) && n <= |s.w.queue|
    ensures var t := Completed(s, n);
            && Draining(t) && t.completed == s.completed + s.w.queue[..n] && t.w.queue == s.w.queue[n..]
            && t.enqueued == s.enqueued
  {
    if n > 0 {
      Drains(s, n - 1);
      DrainsOne(Completed(s, n - 1));
      QueueParts(s.completed, s.w.queue, n - 1);
    }
  }

  /** From every reachable state in which nobody has closed, completions alone write out everything enqueued. */
  lemma {:induction false} EverythingWritten(steps: seq<Step>)
    requires var s := Exec(steps); !s.w.done && !s.connecting && forall e <- s.w.queue :: !e.msg.Close?
    ensures var s, t := Exec(steps), Exec(steps + Completions(|Exec(steps).w.queue|));
            t.completed == t.enqueued == s.enqueued && t.w.queue == []
  {
    var s := Exec(steps);
    WriterInvariant(steps);
    Drains(s, |s.w.queue|);
    ExecCompletions(steps, |s.w.queue|);
    assert s.w.queue[..|s.w.queue|] == s.w.queue;
  }
}
