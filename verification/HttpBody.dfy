/**
 * The body side of an HTTP connection: responses written one message at a time, a stream sent in chunks,
 * and a request body collected from its messages. The functions are the effect of each routine on values;
 * the classes perform it. An asynchronous operation is its issue and, later, its completion.
 */
module HttpBody {
  import opened Outcomes

  datatype Header = Header(key: string, value: string)

  datatype Head = Head(status: int, message: string, headers: seq<Header>)

  /** A response message; a cleared one carries no status and no headers. */
  datatype Message = Message(head: Head, content: string)

  function NoHead(): Head {
    Head(0, "", [])
  }

  /**
   * The writing half of a connection. `busy` says that a write is outstanding, which holds the write lock;
   * `sent` are the messages handed to the stream.
   */
  datatype Http = Http(resp: Message, headersSent: bool, finished: bool, busy: bool, sent: seq<Message>)

  /** set_status: an empty message keeps the one that is there. */
  function WithStatus(head: Head, code: int, message: string): Head {
    head.(status := code, message := if message != "" then message else head.message)
  }

  /** The first header of that name at or after `from` gets the value; without one it is added. */
  function Replaced(hs: seq<Header>, key: string, value: string, from: nat): (r: seq<Header>)
    requires from <= |hs|
    ensures (forall i :: from <= i < |hs| ==> hs[i].key != key) ==> r == hs + [Header(key, value)]
    ensures forall k :: from <= k < |hs| && hs[k].key == key && (forall i :: from <= i < k ==> hs[i].key != key) ==>
              r == hs[k := Header(key, value)]
    decreases |hs| - from
  {
    if from == |hs| then hs + [Header(key, value)]
    else if hs[from].key == key then hs[from := Header(key, value)]
    else Replaced(hs, key, value, from + 1)
  }

  /** The values of one name, in order. */
  function HeaderValues(hs: seq<Header>, key: string): seq<string> {
    if hs == [] then [] else (if hs[0].key == key then [hs[0].value] else []) + HeaderValues(hs[1..], key)
  }

  lemma {:induction false} ValuesAppend(hs: seq<Header>, h: Header, key: string)
    ensures HeaderValues(hs + [h], key) == HeaderValues(hs, key) + if h.key == key then [h.value] else []
  {
    if hs == [] {
      assert hs + [h] == [h] && [h][1..] == [];
    } else {
      assert (hs + [h])[1..] == hs[1..] + [h];
      ValuesAppend(hs[1..], h, key);
    }
  }

  lemma {:induction false} ValuesUpdate(hs: seq<Header>, k: nat, value: string, key: string)
    requires k < |hs| && forall i :: 0 <= i < k ==> hs[i].key != hs[k].key
    ensures var name := hs[k].key;
            var more := HeaderValues(hs[k := Header(name, value)], key);
            && HeaderValues(hs, name) != []
            && more == if key == name then [value] + HeaderValues(hs, name)[1..] else HeaderValues(hs, key)
  {
    var changed := hs[k := Header(hs[k].key, value)];
    if k == 0 {
      assert changed[1..] == hs[1..];
      assert key == hs[0].key ==> HeaderValues(hs, key)[1..] == HeaderValues(hs[1..], key);
    } else {
      assert changed[1..] == hs[1..][k - 1 := Header(hs[k].key, value)];
      ValuesUpdate(hs[1..], k - 1, value, key);
    }
  }

  lemma {:induction false} FirstOf(hs: seq<Header>, key: string) returns (k: nat)
    ensures k <= |hs| && (forall i :: 0 <= i < k ==> hs[i].key != key) && (k < |hs| ==> hs[k].key == key)
    ensures k == |hs| <==> HeaderValues(hs, key) == []
  {
    if hs == [] || hs[0].key == key {
      return 0;
    }
    var more := FirstOf(hs[1..], key);
    k := more + 1;
  }

  /** set_header changes the values of its own name only: the first if it is to be replaced, else there is one more. */
  lemma {:induction false} HeaderIsSet(head: Head, key: string, value: string, replace: bool, other: string)
    ensures var was, now := HeaderValues(head.headers, key), WithHeader(head, key, value, replace);
            && now.status == head.status && now.message == head.message
            && HeaderValues(now.headers, key) == (if replace && was != [] then [value] + was[1..] else was + [value])
            && (other != key ==> HeaderValues(now.headers, other) == HeaderValues(head.headers, other))
  {
    var hs := head.headers;
    var k := FirstOf(hs, key);
    if replace && k < |hs| {
      ValuesUpdate(hs, k, value, key);
      ValuesUpdate(hs, k, value, other);
    } else {
      ValuesAppend(hs, Header(key, value), key);
      ValuesAppend(hs, Header(key, value), other);
    }
  }

  /** set_header; `key` is in lower case. */
  function WithHeader(head: Head, key: string, value: string, replace: bool): Head {
    head.(headers := if replace then Replaced(head.headers, key, value, 0) else head.headers + [Header(key, value)])
  }

  function HeadSet(h: Http, head: Head): Http {
    h.(resp := h.resp.(head := head))
  }

  /** send_body: status and headers are cleared once a message has been written. */
  function BodySent(h: Http, body: string): Http {
    var m := Message(if h.headersSent then NoHead() else h.resp.head, body);
    h.(resp := m, busy := true, sent := h.sent + [m])
  }

  /** end: nothing more to say finishes the call; otherwise the response is written and the call finished. */
  function Ended(h: Http, body: string): Http {
    if h.headersSent && body == "" then h.(finished := true, busy := true)
    else
      var m := h.resp.(content := body);
      h.(resp := m, finished := true, busy := true, sent := h.sent + [m])
  }

  /** A write has completed, well or not. (Finish is issued only once the headers are sent.) */
  function Completed(h: Http): Http {
    h.(headersSent := true, busy := false)
  }

  class HttpConnection {
    var head: Head
    var content: string
    var headersSent: bool
    var finished: bool
    var readDone: bool
    var busy: bool
    var sent: seq<Message>

    ghost function View(): Http
      reads this
    {
      Http(Message(head, content), headersSent, finished, busy, sent)
    }

    constructor ()
      ensures View() == Http(Message(NoHead(), ""), false, false, false, []) && !readDone
    {
      head, content, sent := NoHead(), "", [];
      headersSent, finished, readDone, busy := false, false, false, false;
    }

    method SetStatus(code: int, message: string)
      modifies this`head
      ensures View() == HeadSet(old(View()), WithStatus(old(head), code, message))
      ensures head.status == code && head.headers == old(head.headers)
      ensures head.message == if message == "" then old(head.message) else message
    {
      head := head.(status := code);
      if message != "" {
        head := head.(message := message);
      }
    }

    method SetHeader(key: string, value: string, replace: bool)
      modifies this`head
      ensures View() == HeadSet(old(View()), WithHeader(old(head), key, value, replace))
    {
      if replace {
        var hs, i := head.headers, 0;
        while i < |hs|
          invariant 0 <= i <= |hs| && head == old(head)
          invariant Replaced(hs, key, value, 0) == Replaced(hs, key, value, i)
        {
          if hs[i].key == key {
            head := head.(headers := hs[i := Header(key, value)]);
            return;
          }
          i := i + 1;
        }
      }
      head := head.(headers := head.headers + [Header(key, value)]);
    }

    /**
     * No other write is outstanding. Before the body of the request has been read the callback is refused
     * at once, and the message is written all the same, with a second call to follow.
     */
    method SendBody(body: string) returns (refused: bool)
      requires !busy
      modifies this
      ensures View() == BodySent(old(View()), body) && readDone == old(readDone) && refused == !readDone
    {
      refused := !readDone;
      if headersSent {
        head := NoHead();
      }
      content := body;
      Write();
    }

    method Write()
      modifies this`sent, this`busy
      ensures View() == old(View()).(busy := true, sent := old(sent) + [Message(head, content)])
    {
      busy := true;
      sent := sent + [Message(head, content)];
    }

    method WriteDone()
      requires busy
      modifies this`headersSent, this`busy
      ensures View() == Completed(old(View()))
    {
      headersSent, busy := true, false;
    }

    method End(body: string) returns (refused: bool)
      requires !busy
      modifies this
      ensures View() == Ended(old(View()), body) && readDone == old(readDone) && refused == !readDone
    {
      refused := !readDone;
      finished := true;
      if headersSent && body == "" {
        busy := true;
      } else {
        content := body;
        Write();
      }
    }
  }

  // Sending a stream

  const CHUNK_SIZE: nat := 65536

  /** An input stream; a read that meets the end leaves it in a failed state. */
  class Stream {
    const data: string
    var pos: nat
    var failed: bool

    constructor (data: string)
      ensures this.data == data && pos == 0 && !failed
    {
      this.data, pos, failed := data, 0, false;
    }

    ghost predicate Valid()
      reads this
    {
      pos <= |data|
    }

    ghost function Unread(): string
      reads this
      requires Valid()
    {
      data[pos..]
    }

    /** What read puts into a buffer of `n` bytes, cut to gcount. */
    method Read(n: nat) returns (buf: string)
      requires Valid() && !failed
      modifies this
      ensures Valid() && old(Unread()) == buf + Unread()
      ensures |buf| <= n && (failed <==> |buf| < n) && (failed ==> Unread() == "")
    {
      if |data| - pos < n {
        buf := data[pos..];
        failed := true;
        pos := |data|;
      } else {
        buf := data[pos..pos + n];
        pos := pos + n;
      }
    }
  }

  /** `calls` are the results the caller's own callback has been given. */
  datatype Sending = Sending(h: Http, unread: string, failed: bool, calls: seq<bool>)

  /** gcount of the next read. */
  function ChunkLength(unread: string): nat {
    if |unread| < CHUNK_SIZE then |unread| else CHUNK_SIZE
  }

  /** handle_send: the next chunk, or the caller's callback. */
  function Handled(s: Sending, ok: bool): Sending {
    if s.failed || !ok then s.(calls := s.calls + [ok])
    else
      var r := ChunkLength(s.unread);
      s.(h := BodySent(s.h, s.unread[..r]), unread := s.unread[r..], failed := r < CHUNK_SIZE)
  }

  class StreamSender {
    const con: HttpConnection
    const stream: Stream
    var calls: seq<bool>

    ghost predicate Valid()
      reads this, con, stream
    {
      stream.Valid() && con.readDone
    }

    ghost function View(): Sending
      reads this, con, stream
      requires Valid()
    {
      Sending(con.View(), stream.Unread(), stream.failed, calls)
    }

    /** send_body of a stream, from where the stream stands. */
    constructor (con: HttpConnection, stream: Stream)
      requires stream.Valid() && con.readDone && !con.busy
      modifies con, stream
      ensures this.con == con && this.stream == stream && Valid()
      ensures View() == Handled(old(Sending(con.View(), stream.Unread(), stream.failed, [])), true)
    {
      this.con, this.stream, calls := con, stream, [];
      new;
      HandleSend(true);
    }

    method HandleSend(ok: bool)
      requires Valid() && !con.busy
      modifies this, con, stream
      ensures Valid() && View() == Handled(old(View()), ok)
    {
      if stream.failed || !ok {
        calls := calls + [ok];
      } else {
        ghost var unread := stream.Unread();
        var buf := stream.Read(CHUNK_SIZE);
        assert buf == unread[..ChunkLength(unread)] && stream.Unread() == unread[ChunkLength(unread)..];
        var refused := con.SendBody(buf);
      }
    }

    /** The outstanding write completes: the lock is released before the helper is called. */
    method SendDone(ok: bool)
      requires Valid() && con.busy
      modifies this, con, stream
      ensures Valid() && View() == Continued(old(View()), ok)
    {
      con.WriteDone();
      HandleSend(ok);
    }
  }

  function Continued(s: Sending, ok: bool): Sending {
    Handled(s.(h := Completed(s.h)), ok)
  }

  // Collecting the request body

  datatype Result = Result(ok: bool, text: string)

  /** `keep` is false for skip_body, which has no buffer; `waiting` says that a read is outstanding. */
  datatype Collecting = Collecting(keep: bool, readDone: bool, waiting: bool, buf: string, calls: seq<Result>)

  /** read_body_helper, when no further message follows or one does. */
  function Collect(s: Collecting, arrived: Option<string>): Collecting {
    if arrived.Some? then ReadBody(s.(buf := if s.keep then s.buf + arrived.value else s.buf))
    else s.(calls := s.calls + [Result(false, s.buf)])
  }

  /** read_body: once the end has been seen it reports so at once, and then reads on all the same. */
  function ReadBody(s: Collecting): Collecting {
    s.(calls := if s.readDone then s.calls + [Result(false, s.buf)] else s.calls, waiting := true)
  }

  /** The outstanding read completes, with a message or with the end. */
  function Arrived(s: Collecting, arrived: Option<string>): Collecting {
    Collect(s.(readDone := arrived.None?, waiting := false), arrived)
  }

  class BodyReader {
    const con: HttpConnection
    const keep: bool
    var waiting: bool
    var buf: string
    var calls: seq<Result>

    ghost function View(): Collecting
      reads this, con
    {
      Collecting(keep, con.readDone, waiting, buf, calls)
    }

    /** read_body_full, and skip_body when nothing is kept. */
    constructor (con: HttpConnection, keep: bool)
      ensures this.con == con
      ensures View() == ReadBody(Collecting(keep, con.readDone, false, "", []))
    {
      this.con, this.keep, waiting, buf, calls := con, keep, false, "", [];
      new;
      Read();
    }

    method Read()
      requires !waiting
      modifies this
      ensures View() == ReadBody(old(View()))
    {
      if con.readDone {
        calls := calls + [Result(false, buf)];
      }
      waiting := true;
    }

    /** ok and the content of the message, or the end. */
    method ReadDone(ok: bool, content: string)
      requires waiting
      modifies this, con`readDone
      ensures View() == Arrived(old(View()), if ok then Some(content) else None)
    {
      con.readDone := !ok;
      waiting := false;
      if ok {
        if keep {
          buf := buf + content;
        }
        Read();
      } else {
        calls := calls + [Result(ok, buf)];
      }
    }
  }
}
