/**
 * The writer of a websocket connection: a queue of responses with one asynchronous write at a time, a
 * `done` flag and two ways to be closed. The functions are the effect of each routine on the queue, the
 * flag and the operations it issues; the class performs them.
 */
module WsWriter {
  import opened Outcomes

  /** A response to the peer: the reply that opens the connection, a message, or a CLOSE. */
  datatype Message = Reply | Text(content: string) | Binary(content: string) | Close

  /** A queued response and the callback to run once it is written (a callback that does nothing is None). */
  datatype Entry = Entry(msg: Message, cb: Option<nat>)

  /** What the writer asks of the stream and of the application. */
  datatype Op =
    | Write(entry: Entry)
    | Finish
    | Read
    | OnDisconnect
    | OnMessage(msg: Message)
    | Callback(cb: nat)

  /** The operations issued, the last first. */
  datatype Log = Empty | Issue(op: Op, earlier: Log)

  function Then(log: Log, b: bool, op: Op): Log {
    if b then Issue(op, log) else log
  }

  datatype Writer = Writer(queue: seq<Entry>, done: bool, log: Log)

  /** queue_response: the first in an empty queue is written at once. */
  function Queued(w: Writer, e: Entry): Writer {
    w.(queue := w.queue + [e], log := Then(w.log, w.queue == [], Write(e)))
  }

  /** send_message and close, when nothing comes between the test of `done` and the queue. */
  function Sent(w: Writer, e: Entry): Writer {
    if w.done then w else Queued(w, e)
  }

  function RunCallback(log: Log, b: bool, e: Entry): Log {
    if e.cb.Some? then Then(log, b, Callback(e.cb.value)) else log
  }

  /**
   * send_cb: the front has been written. The next write starts before a CLOSE is acted upon, and a
   * CLOSE that finds the connection done returns before its callback.
   */
  function Written(w: Writer): Writer
    requires w.queue != []
  {
    var front, closing := w.queue[0], w.queue[0].msg.Close?;
    var a := if |w.queue| > 1 then Then(w.log, !w.done, Write(w.queue[1])) else w.log;
    var b := Then(a, closing, OnDisconnect);
    var c := Then(b, closing && !w.done, Finish);
    Writer(w.queue[1..], w.done || closing, RunCallback(c, !(closing && w.done), front))
  }

  /** on_message: a CLOSE from the client finishes the call unless it is finished already. */
  function Received(w: Writer, m: Message): Writer {
    if m.Close? then w.(done := true, log := Then(Issue(OnDisconnect, w.log), !w.done, Finish))
    else if !w.done then w.(log := Issue(Read, Issue(OnMessage(m), w.log)))
    else w
  }

  function SentAll(w: Writer, es: seq<Entry>): Writer {
    if es == [] then w else Sent(SentAll(w, es[..|es| - 1]), es[|es| - 1])
  }

  /** on_connect: start reading, let the handler send what it likes, then queue the reply. */
  function Connected(w: Writer, sends: seq<Entry>): Writer {
    Queued(SentAll(w.(log := Issue(Read, w.log)), sends), Entry(Reply, None))
  }

  class WsConnection {
    var queue: seq<Entry>
    var done: bool
    var log: Log

    ghost function View(): Writer
      reads this
    {
      Writer(queue, done, log)
    }

    constructor ()
      ensures View() == Writer([], false, Empty)
    {
      queue, done, log := [], false, Empty;
    }

    method Do(op: Op)
      modifies this`log
      ensures log == Issue(op, old(log))
    {
      log := Issue(op, log);
    }

    method QueueResponse(e: Entry)
      modifies this
      ensures View() == Queued(old(View()), e)
    {
      queue := queue + [e];
      if |queue| == 1 {
        Do(Write(queue[0]));
      }
    }

    /** The front exists whenever a write completes (WsRuns.WriterInvariant), so front() and pop() are defined. */
    method SendCb(ok: bool)
      requires queue != []
      modifies this
      ensures View() == Written(old(View()))
    {
      var closing := queue[0].msg.Close?;
      var cb := queue[0].cb;
      queue := queue[1..];
      if !done && queue != [] {
        Do(Write(queue[0]));
      }
      if closing {
        Do(OnDisconnect);
        var was := done;
        done := true;
        if was {
          return;
        }
        Do(Finish);
      }
      if cb.Some? {
        Do(Callback(cb.value));
      }
    }

    method OnMessage(m: Message)
      modifies this
      ensures View() == Received(old(View()), m)
    {
      if m.Close? {
        Do(OnDisconnect);
        var was := done;
        done := true;
        if was {
          return;
        }
        Do(Finish);
      } else if !done {
        Do(Op.OnMessage(m));
        Do(Read);
      }
    }

    method SendMessage(binary: bool, content: string, cb: Option<nat>)
      modifies this
      ensures View() == Sent(old(View()), Entry(if binary then Binary(content) else Text(content), cb))
    {
      if done {
        return;
      }
      QueueResponse(Entry(if binary then Binary(content) else Text(content), cb));
    }

    method Close()
      modifies this
      ensures View() == Sent(old(View()), Entry(Message.Close, None))
    {
      if done {
        return;
      }
      QueueResponse(Entry(Message.Close, None));
    }

    /** `sends` are the messages the application sends from its own on_connect. */
    method OnConnect(sends: seq<Entry>)
      modifies this
      ensures View() == Connected(old(View()), sends)
    {
      Do(Read);
      ghost var start := View();
      var i := 0;
      while i < |sends|
        invariant 0 <= i <= |sends| && View() == SentAll(start, sends[..i])
      {
        assert sends[..i + 1][..i] == sends[..i];
        if !done {
          QueueResponse(sends[i]);
        }
        i := i + 1;
      }
      assert sends[..|sends|] == sends;
      QueueResponse(Entry(Reply, None));
    }
  }
}
