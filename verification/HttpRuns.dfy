/** Whole runs of an HTTP connection: what the peer is sent, and what the application is given. */
module HttpRuns {
  import opened Outcomes
  import opened HttpBody

  /** The contents of the messages, one after another. */
  function Text(ms: seq<Message>): string {
    if ms == [] then "" else Text(ms[..|ms| - 1]) + ms[|ms| - 1].content
  }

  lemma {:induction false} TextMore(ms: seq<Message>, m: Message)
    ensures Text(ms + [m]) == Text(ms) + m.content
  {
    assert (ms + [m])[..|ms|] == ms;
  }

  // One response

  datatype Step =
    | SetStatus(code: int, message: string)
    | SetHeader(key: string, value: string, replace: bool)
    | SendBody(body: string)
    | End(body: string)
    | Complete

  /** The write lock serializes the writes, and nothing is written after the end. */
  predicate Enabled(h: Http, step: Step) {
    match step
    case SendBody(_) => !h.busy && !h.finished
    case End(_) => !h.busy && !h.finished
    case Complete => h.busy
    case _ => true
  }

  /** What set_status and set_header make of a head. */
  function Changed(head: Head, step: Step): Head {
    match step
    case SetStatus(code, message) => WithStatus(head, code, message)
    case SetHeader(key, value, replace) => WithHeader(head, key, value, replace)
    case _ => head
  }

  function Next(h: Http, step: Step): Http {
    match step
    case SetStatus(_, _) => HeadSet(h, Changed(h.resp.head, step))
    case SetHeader(_, _, _) => HeadSet(h, Changed(h.resp.head, step))
    case SendBody(body) => BodySent(h, body)
    case End(body) => Ended(h, body)
    case Complete => Completed(h)
  }

  function Start(): Http {
    Http(Message(NoHead(), ""), false, false, false, [])
  }

  /** A run; a step that is not enabled does not happen. */
  function Exec(steps: seq<Step>): Http {
    if steps == [] then Start()
    else
      var h, step := Exec(steps[..|steps| - 1]), steps[|steps| - 1];
      if Enabled(h, step) then Next(h, step) else h
  }

  function Body(step: Step): string {
    if step.SendBody? || step.End? then step.body else ""
  }

  /** The bodies given to the calls that happened, one after another. */
  function Given(steps: seq<Step>): string {
    if steps == [] then ""
    else
      var before, step := steps[..|steps| - 1], steps[|steps| - 1];
      if Enabled(Exec(before), step) then Given(before) + Body(step) else Given(before)
  }

  /** Something has been sent: a body or an end that was accepted. */
  function Wrote(steps: seq<Step>): bool {
    steps != [] &&
    var before, step := steps[..|steps| - 1], steps[|steps| - 1];
    Wrote(before) || ((step.SendBody? || step.End?) && Enabled(Exec(before), step))
  }

  /** The head the calls before the first message make, or have made so far. */
  function Chosen(steps: seq<Step>): Head {
    if steps == [] then NoHead()
    else
      var before, step := steps[..|steps| - 1], steps[|steps| - 1];
      if Wrote(before) then Chosen(before) else Changed(Chosen(before), step)
  }

  /** The head the caller's calls leave behind: every body after the first message resets it. */
  function Held(steps: seq<Step>): Head {
    if steps == [] then NoHead()
    else
      var before, step := steps[..|steps| - 1], steps[|steps| - 1];
      if step.SendBody? && Enabled(Exec(before), step) && Wrote(before) then NoHead() else Changed(Held(before), step)
  }

  /** Status and headers are in no message but the first. */
  predicate HeadFirst(ms: seq<Message>) {
    forall i :: 0 < i < |ms| ==> ms[i].head == NoHead()
  }

  /** end has been given a body after the first message, while the calls before it leave a head. */
  predicate EndedWithHead(steps: seq<Step>) {
    steps != [] &&
    var before, step := steps[..|steps| - 1], steps[|steps| - 1];
    EndedWithHead(before)
    || (step.End? && Enabled(Exec(before), step) && step.body != "" && Wrote(before) && Held(before) != NoHead())
  }

  /** What holds between the flags and the messages. */
  ghost predicate Ordered(h: Http) {
    && (h.sent != [] <==> h.headersSent || h.busy)
    && (h.finished ==> h.sent != [])
  }

  lemma {:induction false} OrderedRuns(steps: seq<Step>)
    ensures Ordered(Exec(steps)) && (Exec(steps).sent != [] <==> Wrote(steps))
  {
    if steps != [] {
      OrderedRuns(steps[..|steps| - 1]);
    }
  }

  lemma {:induction false} StepText(h: Http, step: Step)
    requires Ordered(h) && Enabled(h, step)
    ensures Text(Next(h, step).sent) == Text(h.sent) + Body(step)
  {
    if |Next(h, step).sent| > |h.sent| {
      TextMore(h.sent, Next(h, step).sent[|h.sent|]);
    }
  }

  /** The messages carry the bodies given, in order, whatever the order of the calls. */
  lemma {:induction false} ContentsConserved(steps: seq<Step>)
    ensures Text(Exec(steps).sent) == Given(steps)
  {
    if steps != [] {
      var before, step := steps[..|steps| - 1], steps[|steps| - 1];
      ContentsConserved(before);
      OrderedRuns(before);
      if Enabled(Exec(before), step) {
        StepText(Exec(before), step);
      }
    }
  }

  /** The bodies that were written: all but an empty one given to end after something was written. */
  function Bodies(steps: seq<Step>): seq<string> {
    if steps == [] then []
    else
      var before, step := steps[..|steps| - 1], steps[|steps| - 1];
      if (step.SendBody? || step.End?) && Enabled(Exec(before), step) && !(step.End? && step.body == "" && Wrote(before)) then
        Bodies(before) + [step.body]
      else Bodies(before)
  }

  /** end was accepted. */
  function Finished(steps: seq<Step>): bool {
    steps != [] &&
    var before, step := steps[..|steps| - 1], steps[|steps| - 1];
    Finished(before) || (step.End? && Enabled(Exec(before), step))
  }

  /** The last write or Finish has not completed. */
  function Waiting(steps: seq<Step>): bool {
    steps != [] &&
    var before, step := steps[..|steps| - 1], steps[|steps| - 1];
    ((step.SendBody? || step.End?) && Enabled(Exec(before), step)) || (!step.Complete? && Waiting(before))
  }

  /** One message for each body, in order; finished once end was called; busy while an operation is outstanding. */
  lemma {:induction false} MessagesAre(steps: seq<Step>)
    ensures var h := Exec(steps);
            && |h.sent| == |Bodies(steps)| && (forall i :: 0 <= i < |h.sent| ==> h.sent[i].content == Bodies(steps)[i])
            && (h.finished <==> Finished(steps)) && (h.busy <==> Waiting(steps))
  {
    if steps != [] {
      MessagesAre(steps[..|steps| - 1]);
      OrderedRuns(steps[..|steps| - 1]);
    }
  }

  /** The first message has the head the application chose. */
  lemma {:induction false} HeadChosen(steps: seq<Step>)
    ensures var h := Exec(steps); Chosen(steps) == if h.sent == [] then h.resp.head else h.sent[0].head
  {
    if steps != [] {
      var before := steps[..|steps| - 1];
      HeadChosen(before);
      OrderedRuns(before);
    }
  }

  lemma {:induction false} HeadHeld(steps: seq<Step>)
    ensures Exec(steps).resp.head == Held(steps)
  {
    if steps != [] {
      HeadHeld(steps[..|steps| - 1]);
      OrderedRuns(steps[..|steps| - 1]);
    }
  }

  /** Status and headers are sent once, if and only if end was not given a body while they were still there. */
  lemma {:induction false} HeadSentOnce(steps: seq<Step>)
    ensures HeadFirst(Exec(steps).sent) <==> !EndedWithHead(steps)
  {
    if steps != [] {
      var before, step := steps[..|steps| - 1], steps[|steps| - 1];
      HeadSentOnce(before);
      OrderedRuns(before);
      HeadHeld(before);
      var h, g := Exec(before), Exec(steps);
      assert forall i :: 0 <= i < |h.sent| ==> g.sent[i] == h.sent[i];
      if |g.sent| > |h.sent| > 0 {
        assert g.sent[|h.sent|] == if step.SendBody? then Message(NoHead(), step.body) else Message(h.resp.head, step.body);
      }
    }
  }

  /** One body and an end with another: status and headers are sent twice. */
  lemma {:induction false} HeadSentTwice()
    ensures !HeadFirst(Exec([SetStatus(200, ""), SendBody("a"), Complete, End("b")]).sent)
  {
    var one := [SetStatus(200, "")];
    var two := one + [SendBody("a")];
    var three := two + [Complete];
    var four := three + [End("b")];
    assert one[..0] == [] && two[..1] == one && three[..2] == two && four[..3] == three;
    assert Held(one) == Head(200, "", []) && !Wrote(one);
    assert Wrote(two) && Held(two) == Held(one) && Exec(two).busy;
    assert Wrote(three) && Held(three) == Held(one) && !Exec(three).busy && !Exec(three).finished;
    assert EndedWithHead(four);
    HeadSentOnce(four);
    assert four == [SetStatus(200, ""), SendBody("a"), Complete, End("b")];
  }

  /** A response of any number of bodies and an end without one. */
  lemma {:induction false} ResponseWhole(steps: seq<Step>)
    requires forall i :: 0 <= i < |steps| && steps[i].End? ==> steps[i].body == ""
    ensures var h := Exec(steps);
            && HeadFirst(h.sent) && Text(h.sent) == Given(steps)
            && (h.finished ==> h.sent != [] && h.sent[0].head == Chosen(steps))
  {
    NeverWithHead(steps);
    HeadSentOnce(steps);
    ContentsConserved(steps);
    HeadChosen(steps);
    OrderedRuns(steps);
  }

  lemma {:induction false} NeverWithHead(steps: seq<Step>)
    requires forall i :: 0 <= i < |steps| && steps[i].End? ==> steps[i].body == ""
    ensures !EndedWithHead(steps)
  {
    if steps != [] {
      NeverWithHead(steps[..|steps| - 1]);
    }
  }

  // A stream

  /** The stream is sent from `h`; `oks` are the results of the writes, as they complete. */
  function StreamExec(h: Http, body: string, oks: seq<bool>): Sending {
    if oks == [] then Handled(Sending(h, body, false, []), true)
    else
      var s := StreamExec(h, body, oks[..|oks| - 1]);
      if s.calls == [] then Continued(s, oks[|oks| - 1]) else s
  }

  /** How many writes succeed before the first that fails. */
  function Successes(oks: seq<bool>): (n: nat)
    ensures n <= |oks|
    ensures forall i :: 0 <= i < n ==> oks[i]
    ensures n < |oks| ==> !oks[n]
  {
    if oks == [] then 0
    else
      var n := Successes(oks[..|oks| - 1]);
      if n == |oks| - 1 && oks[n] then |oks| else n
  }

  function Min(a: nat, b: nat): nat {
    if a < b then a else b
  }

  /** A text cut into full chunks and a last one that is not full, and may be empty. */
  function Chunks(text: string): (cs: seq<string>)
    ensures |cs| == |text| / CHUNK_SIZE + 1
  {
    if |text| < CHUNK_SIZE then [text] else [text[..CHUNK_SIZE]] + Chunks(text[CHUNK_SIZE..])
  }

  function Joined(cs: seq<string>): string {
    if cs == [] then "" else Joined(cs[..|cs| - 1]) + cs[|cs| - 1]
  }

  lemma {:induction false} JoinedSplit(cs: seq<string>, k: nat)
    requires k <= |cs|
    ensures Joined(cs) == Joined(cs[..k]) + Joined(cs[k..])
  {
    if k == |cs| {
      assert cs[..k] == cs && Joined(cs[k..]) == "";
    } else {
      var front := cs[..|cs| - 1];
      JoinedSplit(front, k);
      assert front[..k] == cs[..k] && cs[k..][..|cs[k..]| - 1] == front[k..];
    }
  }

  /** n / 65536 + 1 chunks, all but the last full, that make up the text. */
  lemma {:induction false} ChunksAre(text: string)
    ensures var cs, n := Chunks(text), |text| / 65536;
            && |cs[n]| == |text| % 65536 && (forall i :: 0 <= i < n ==> |cs[i]| == 65536)
            && Joined(cs) == text
    decreases |text|
  {
    if |text| < CHUNK_SIZE {
      assert [text][..0] == [] && "" + text == text;
    } else {
      var first, rest := text[..CHUNK_SIZE], text[CHUNK_SIZE..];
      ChunksAre(rest);
      JoinedSplit(Chunks(text), 1);
      assert Chunks(text)[..1] == [first] && Chunks(text)[1..] == Chunks(rest);
      assert [first][..0] == [] && "" + first == first;
    }
  }

  /** The messages that carry a list of chunks: the first has the head of the response, unless that was sent before. */
  function ChunkMessages(h: Http, cs: seq<string>): seq<Message> {
    seq(|cs|, i requires 0 <= i < |cs| => Message(if i > 0 || h.headersSent then NoHead() else h.resp.head, cs[i]))
  }

  lemma ChunkMessagesMore(h: Http, cs: seq<string>, c: string)
    ensures var m := Message(if cs != [] || h.headersSent then NoHead() else h.resp.head, c);
            ChunkMessages(h, cs + [c]) == ChunkMessages(h, cs) + [m]
  {
  }

  lemma {:induction false} ChunkTexts(h: Http, cs: seq<string>)
    ensures Text(h.sent + ChunkMessages(h, cs)) == Text(h.sent) + Joined(cs)
  {
    if cs == [] {
      assert h.sent + ChunkMessages(h, cs) == h.sent;
    } else {
      var front, last := cs[..|cs| - 1], cs[|cs| - 1];
      var m := Message(if front != [] || h.headersSent then NoHead() else h.resp.head, last);
      ChunkTexts(h, front);
      assert cs == front + [last];
      ChunkMessagesMore(h, front, last);
      TextAppends(h.sent, ChunkMessages(h, front), m, Text(h.sent), Joined(front));
    }
  }

  lemma {:induction false} TextAppends(a: seq<Message>, b: seq<Message>, m: Message, s: string, t: string)
    requires Text(a + b) == s + t
    ensures Text(a + (b + [m])) == s + (t + m.content)
  {
    assert a + (b + [m]) == (a + b) + [m];
    TextMore(a + b, m);
  }

  /** The first `k` chunks of the body have been handed over. */
  ghost predicate ChunksSent(h: Http, s: Sending, body: string, k: nat) {
    var cs := Chunks(body);
    && k <= |cs| && (s.failed <==> k == |cs|) && (k < |cs| ==> Chunks(s.unread) == cs[k..])
    && s.h.sent == h.sent + ChunkMessages(h, cs[..k])
  }

  lemma {:induction false} OneMoreChunk(h: Http, s: Sending, body: string, k: nat)
    requires ChunksSent(h, s, body, k) && k < |Chunks(body)|
    requires if k == 0 then s.h == h else s.h.headersSent
    ensures ChunksSent(h, Handled(s, true), body, k + 1)
  {
    var cs, t := Chunks(body), Handled(s, true);
    assert Chunks(s.unread)[0] == cs[k] && Chunks(s.unread)[1..] == cs[k + 1..];
    assert t.h.resp.content == cs[k];
    assert t.h.sent == h.sent + (ChunkMessages(h, cs[..k]) + [t.h.resp]);
    ChunkMessagesMore(h, cs[..k], cs[k]);
    assert cs[..k + 1] == cs[..k] + [cs[k]];
  }

  /** After `n` writes have succeeded, and one has failed if `stopped`. */
  ghost predicate StreamAt(h: Http, s: Sending, body: string, n: nat, stopped: bool) {
    && ChunksSent(h, s, body, Min(n + 1, |Chunks(body)|))
    && s.calls == if n >= |Chunks(body)| then [true] else if stopped then [false] else []
  }

  lemma {:induction false} StreamContinues(h: Http, s: Sending, body: string, n: nat, ok: bool)
    requires StreamAt(h, s, body, n, false) && s.calls == []
    ensures if ok then StreamAt(h, Continued(s, ok), body, n + 1, false) else StreamAt(h, Continued(s, ok), body, n, true)
  {
    if ok && !s.failed {
      OneMoreChunk(h, s.(h := Completed(s.h)), body, n + 1);
    }
  }

  /**
   * However the writes go, the messages are those of the first chunks of the body, one more than writes have
   * succeeded; and the callback is run once, as soon as a write fails or that of the last chunk succeeds.
   */
  lemma {:induction false} StreamConserved(h: Http, body: string, oks: seq<bool>)
    ensures StreamAt(h, StreamExec(h, body, oks), body, Successes(oks), Successes(oks) < |oks|)
  {
    if oks == [] {
      OneMoreChunk(h, Sending(h, body, false, []), body, 0);
    } else {
      var before, ok := oks[..|oks| - 1], oks[|oks| - 1];
      StreamConserved(h, body, before);
      var s, n := StreamExec(h, body, before), Successes(before);
      if s.calls == [] {
        StreamContinues(h, s, body, n, ok);
      }
    }
  }

  /** What has been sent is a front of the body; if as many writes as there are chunks succeed, it is the body. */
  lemma {:induction false} StreamWhole(h: Http, body: string, oks: seq<bool>)
    ensures var s, k := StreamExec(h, body, oks), Min(Successes(oks) + 1, |body| / 65536 + 1);
            && |s.h.sent| == |h.sent| + k
            && Text(s.h.sent) == Text(h.sent) + Joined(Chunks(body)[..k]) && Joined(Chunks(body)[..k]) <= body
            && (Successes(oks) > |body| / 65536 ==> s.calls == [true] && Text(s.h.sent) == Text(h.sent) + body)
  {
    StreamConserved(h, body, oks);
    ChunksAre(body);
    var k := Min(Successes(oks) + 1, |body| / 65536 + 1);
    ChunkTexts(h, Chunks(body)[..k]);
    JoinedSplit(Chunks(body), k);
    assert k == |Chunks(body)| ==> Chunks(body)[..k] == Chunks(body);
  }

  // The request body

  /** Reading from a connection; None is the end of the request. */
  function ReadExec(keep: bool, readDone: bool, arrivals: seq<Option<string>>): Collecting {
    if arrivals == [] then ReadBody(Collecting(keep, readDone, false, "", []))
    else
      var s := ReadExec(keep, readDone, arrivals[..|arrivals| - 1]);
      if s.waiting then Arrived(s, arrivals[|arrivals| - 1]) else s
  }

  /** The messages that came before the first end. */
  function Incoming(arrivals: seq<Option<string>>): string {
    if arrivals == [] || arrivals[0].None? then "" else arrivals[0].value + Incoming(arrivals[1..])
  }

  lemma {:induction false} IncomingMore(arrivals: seq<Option<string>>, a: Option<string>)
    ensures Incoming(arrivals + [a]) ==
            if a.Some? && None !in arrivals then Incoming(arrivals) + a.value else Incoming(arrivals)
  {
    if arrivals != [] {
      assert (arrivals + [a])[1..] == arrivals[1..] + [a];
      IncomingMore(arrivals[1..], a);
    }
  }

  /** The callback is run once, at the end of the request and not before, with all that came in. */
  lemma {:induction false} BodyCollected(keep: bool, arrivals: seq<Option<string>>)
    ensures var s := ReadExec(keep, false, arrivals);
            && s.keep == keep && s.buf == (if keep then Incoming(arrivals) else "")
            && s.readDone == (None in arrivals) && s.waiting == (None !in arrivals)
            && s.calls == if None in arrivals then [Result(false, s.buf)] else []
  {
    if arrivals != [] {
      var before, a := arrivals[..|arrivals| - 1], arrivals[|arrivals| - 1];
      assert arrivals == before + [a];
      BodyCollected(keep, before);
      IncomingMore(before, a);
    }
  }

  /**
   * A call to read the body is called back once, by the time the end arrives, if and only if the end had not
   * been seen before the call: afterwards it is called back at once and then again.
   */
  lemma {:induction false} CalledOnceExactly(keep: bool, readDone: bool, arrivals: seq<Option<string>>)
    ensures var s := ReadExec(keep, readDone, arrivals);
            && |s.calls| == (if readDone then 1 else 0) + (if None in arrivals then 1 else 0)
            && s.waiting == (None !in arrivals)
            && (None in arrivals ==> (|s.calls| == 1 <==> !readDone))
  {
    if arrivals != [] {
      CalledOnceExactly(keep, readDone, arrivals[..|arrivals| - 1]);
      assert arrivals == arrivals[..|arrivals| - 1] + [arrivals[|arrivals| - 1]];
    }
  }
}
