/** The response write path: `src/stx/http/HTTPResponseStream.cc` over the write
    buffer of `src/stx/http/httpserverconnection.cc`, first each object's critical
    sections, then all their interleavings. */
module ResponseStream {
  import opened Text

  // ------------------------------------------------------------------ the stream

  const MAX_WRITE := 4 * 1024 * 1024

  datatype Stream = Stream(buf: string, running: bool, headersWritten: bool, finished: bool, error: bool)

  /** What a critical section leaves to be done after its unlock (`FinishConn` is done
      before it). */
  datatype Effect = Nothing | SendHeader | Send(data: string) | FinishConn | Drained | Throws

  function StartCall(s: Stream): (Stream, Effect) {
    if s.headersWritten || s.error then (s, Throws)
    else (s.(headersWritten := true, running := true), SendHeader)
  }

  function StateChanged(s: Stream): (Stream, Effect) {
    if s.running || !s.headersWritten then (s, Nothing)
    else if s.buf != "" then
      var n := if |s.buf| > MAX_WRITE then MAX_WRITE else |s.buf|;
      (s.(buf := s.buf[n..], running := true), Send(s.buf[..n]))
    else if s.finished then (s, FinishConn)
    else (s, Drained)
  }

  function ChunkCall(s: Stream, data: string): (Stream, Effect) {
    if s.error then (s, Throws) else StateChanged(s.(buf := s.buf + data))
  }

  function FinishCall(s: Stream): (Stream, Effect) {
    if s.finished then (s, Nothing) else if s.error then (s, Throws) else StateChanged(s.(finished := true))
  }

  function CompletedCall(s: Stream): (Stream, Effect) { StateChanged(s.(running := false)) }

  function ErrorCall(s: Stream): Stream { s.(running := false, error := true) }

  /** What is handed over is the front of the pending bytes: all of them, or 4 MiB. */
  lemma HandedOver(s: Stream)
    requires StateChanged(s).1.Send?
    ensures var data := StateChanged(s).1.data;
      data + StateChanged(s).0.buf == s.buf && |data| == if |s.buf| < 4194304 then |s.buf| else 4194304
  {
    assert s.buf[..|s.buf|] == s.buf;
  }

  /** After an error no write is outstanding, nothing is handed over any more, and each further
      call throws and changes nothing, but for ending a response that has ended. */
  lemma ErrorEnds(s: Stream, data: string)
    ensures var e := ErrorCall(s);
      e.error && !e.running && e.buf == s.buf && e.headersWritten == s.headersWritten && e.finished == s.finished
      && StartCall(e) == (e, Throws) && ChunkCall(e, data) == (e, Throws)
      && FinishCall(e) == (e, if s.finished then Nothing else Throws)
  {
  }

  class HTTPResponseStream {
    var buf: string
    var callbackRunning: bool
    var headersWritten: bool
    var responseFinished: bool
    var error: bool

    function View(): Stream
      reads this
    {
      Stream(buf, callbackRunning, headersWritten, responseFinished, error)
    }

    constructor ()
      ensures View() == Stream("", false, false, false, false)
    {
      buf, callbackRunning, headersWritten, responseFinished, error := "", false, false, false, false;
    }

    method StartResponse() returns (effect: Effect)
      modifies this
      ensures (View(), effect) == StartCall(old(View()))
    {
      if headersWritten { return Throws; }
      if error { return Throws; }
      headersWritten := true;
      callbackRunning := true;
      effect := SendHeader;
    }

    method WriteBodyChunk(data: string) returns (effect: Effect)
      modifies this
      ensures (View(), effect) == ChunkCall(old(View()), data)
    {
      if error { return Throws; }
      buf := buf + data;
      effect := OnStateChanged();
    }

    method FinishResponse() returns (effect: Effect)
      modifies this
      ensures (View(), effect) == FinishCall(old(View()))
    {
      if responseFinished { return Nothing; }
      if error { return Throws; }
      responseFinished := true;
      effect := OnStateChanged();
    }

    method OnCallbackCompleted() returns (effect: Effect)
      modifies this
      ensures (View(), effect) == CompletedCall(old(View()))
    {
      callbackRunning := false;
      effect := OnStateChanged();
    }

    method OnCallbackError()
      modifies this
      ensures View() == ErrorCall(old(View()))
    {
      callbackRunning := false;
      error := true;
    }

    method OnStateChanged() returns (effect: Effect)
      modifies this
      ensures (View(), effect) == StateChanged(old(View()))
    {
      if callbackRunning { return Nothing; }
      if !headersWritten { return Nothing; }
      if |buf| > 0 {
        var writeBuf := buf;
        buf := "";
        if |writeBuf| > MAX_WRITE {
          buf := buf + writeBuf[MAX_WRITE..];
          writeBuf := writeBuf[..MAX_WRITE];
        }
        callbackRunning := true;
        assert buf == old(buf)[|writeBuf|..] && writeBuf == old(buf)[..|writeBuf|];
        return Send(writeBuf);
      }
      effect := if responseFinished then FinishConn else Drained;
    }
  }

  // --------------------------------------------------------------- the connection

  /** `hooked`: the callbacks are the stream's.  `awaiting`: a writable event leads to
      `write`. */
  datatype Conn = Conn(writeBuf: string, mark: nat, hooked: bool, awaiting: bool, closed: bool)

  predicate Marked(c: Conn) { c.mark <= |c.writeBuf| }

  function Unsent(c: Conn): string
    requires Marked(c)
  {
    c.writeBuf[c.mark..]
  }

  /** `writeResponse` and `writeResponseBody`: on a closed connection they throw, but the
      bytes are in the buffer by then. */
  function AppendCall(c: Conn, data: string): (Conn, bool) {
    (Conn(c.writeBuf + data, c.mark, true, c.awaiting || !c.closed, c.closed), !c.closed)
  }

  /** `write`, when the socket takes `len` bytes; true when nothing is left and the
      completion callback is due. */
  function WroteCall(c: Conn, len: nat): (Conn, bool)
    requires Marked(c) && len <= |Unsent(c)|
  {
    if c.mark + len < |c.writeBuf| then (c.(mark := c.mark + len), false)
    else (c.(writeBuf := "", mark := 0, awaiting := false), true)
  }

  function CloseCall(c: Conn): Conn { if c.closed then c else c.(closed := true, awaiting := false) }

  class HTTPServerConnection {
    var writeBuf: string
    var mark: nat
    var hooked: bool
    var awaiting: bool
    var closed: bool

    function View(): Conn
      reads this
    {
      Conn(writeBuf, mark, hooked, awaiting, closed)
    }

    constructor ()
      ensures View() == Conn("", 0, false, false, false)
    {
      writeBuf, mark, hooked, awaiting, closed := "", 0, false, false, false;
    }

    method WriteResponseBody(data: string) returns (ok: bool)
      modifies this
      ensures (View(), ok) == AppendCall(old(View()), data)
    {
      writeBuf := writeBuf + data;
      hooked := true;
      if closed { return false; }
      awaiting := true;
      ok := true;
    }

    /** The socket takes the next `len` bytes. */
    method Write(len: nat) returns (taken: string, completed: bool)
      requires Marked(View()) && len <= |Unsent(View())|
      modifies this
      ensures Marked(View()) && (View(), completed) == WroteCall(old(View()), len)
      ensures taken + Unsent(View()) == old(Unsent(View()))
      ensures completed <==> Unsent(View()) == ""
    {
      ghost var unsent := Unsent(View());
      var data := writeBuf[mark..];
      taken := data[..len];
      mark := mark + len;
      completed := mark >= |writeBuf|;
      assert writeBuf[mark..] == unsent[len..];
      if completed {
        writeBuf := "";
        mark := 0;
        awaiting := false;
      }
    }

    method Close() returns (ok: bool)
      modifies this
      ensures View() == CloseCall(old(View())) && ok == !old(closed)
    {
      if closed { return false; }
      closed := true;
      awaiting := false;
      ok := true;
    }
  }

  // ------------------------------------------------------------ all interleavings

  /** A buffer between the stream's unlock and its arrival in the connection. */
  datatype Pending = NoneOut | HeaderOut | BodyOut(data: string)

  /** `completed`: the connection has let go of its lock to call the completion callback.
      `closing`: likewise, to close after an error.  `accepted`: all chunks accepted so
      far.  `finishes`: calls to the connection's `finishResponse`. */
  datatype System = System(stream: Stream, conn: Conn, out: Pending, completed: bool, closing: bool,
                           wire: string, accepted: string, finishes: nat)

  datatype Event =
    | Start | Chunk(data: string) | Finish | HandOver | SocketTakes(len: nat) | Completion
    | WriteFails | ReadFails | Close

  const INITIAL :=
    System(Stream("", false, false, false, false), Conn("", 0, false, false, false), NoneOut, false, false, "", "", 0)

  function OutBytes(p: Pending, header: string): string {
    match p
    case NoneOut => ""
    case HeaderOut => header
    case BodyOut(data) => data
  }

  /** The stream's part of the state, and what its effect does to the rest. */
  function With(y: System, r: (Stream, Effect)): System {
    var y' := y.(stream := r.0);
    match r.1
    case SendHeader => y'.(out := HeaderOut)
    case Send(data) => y'.(out := BodyOut(data))
    case FinishConn => y'.(finishes := y.finishes + 1, conn := CloseCall(y.conn))
    case Nothing => y'
    case Drained => y'
    case Throws => y'
  }

  predicate Enabled(y: System, ev: Event) {
    match ev
    case HandOver => y.out != NoneOut
    case SocketTakes(len) => y.conn.awaiting && Marked(y.conn) && len <= |Unsent(y.conn)|
    case Completion => y.completed
    case WriteFails => y.conn.hooked && (y.conn.awaiting || y.conn.closed)
    case Close => y.closing
    case _ => true
  }

  function Next(y: System, ev: Event, header: string): System
    requires Enabled(y, ev)
  {
    match ev
    case Start => With(y, StartCall(y.stream))
    case Chunk(data) =>
      With(y.(accepted := if y.stream.error then y.accepted else y.accepted + data), ChunkCall(y.stream, data))
    case Finish => With(y, FinishCall(y.stream))
    case HandOver => y.(out := NoneOut, conn := AppendCall(y.conn, OutBytes(y.out, header)).0)
    case SocketTakes(len) =>
      var (c, done) := WroteCall(y.conn, len);
      y.(conn := c, completed := y.completed || done, wire := y.wire + Unsent(y.conn)[..len])
    case Completion => With(y.(completed := false), CompletedCall(y.stream))
    case WriteFails => y.(stream := ErrorCall(y.stream), closing := true, conn := y.conn.(awaiting := false))
    case ReadFails => y.(stream := if y.conn.hooked then ErrorCall(y.stream) else y.stream, closing := true)
    case Close => y.(closing := false, conn := CloseCall(y.conn))
  }

  /** The state after a run, if each of its events was possible. */
  function Run(evs: seq<Event>, header: string): Option<System> {
    if evs == [] then Some(INITIAL) else
      match Run(evs[..|evs| - 1], header)
      case None => None
      case Some(y) => var ev := evs[|evs| - 1]; if Enabled(y, ev) then Some(Next(y, ev, header)) else None
  }

  // ---------------------------------------------------------------- the invariant

  function InPipe(y: System, header: string): string
    requires Marked(y.conn)
  {
    y.wire + Unsent(y.conn) + OutBytes(y.out, header) + y.stream.buf
  }

  /** Nothing is on its way through the connection. */
  predicate Idle(y: System) {
    y.out == NoneOut && !y.conn.awaiting && !y.completed && y.conn.writeBuf == ""
  }

  /** Every byte accepted is in one place and in order; before the start, only chunks are. */
  predicate Conserved(y: System, header: string) {
    Marked(y.conn) &&
    InPipe(y, header) == if y.stream.headersWritten then header + y.accepted else y.accepted
  }

  /** At most one write is on its way. */
  predicate OneWrite(y: System) {
    (y.out != NoneOut ==> !y.conn.awaiting && !y.completed && y.conn.writeBuf == "") &&
    (y.completed ==> !y.conn.awaiting && y.conn.writeBuf == "") &&
    (!y.stream.running && !y.stream.error ==> Idle(y))
  }

  predicate BoundedWrites(y: System) { y.out.BodyOut? ==> 0 < |y.out.data| <= MAX_WRITE }

  /** Before the start nothing has left the stream. */
  predicate Untouched(y: System) {
    !y.stream.headersWritten ==> Idle(y) && y.wire == "" && !y.stream.running && y.finishes == 0 && !y.conn.hooked
  }

  /** With no write on its way and no error, nothing waits in the stream, and a finished
      response has been handed back to the connection. */
  predicate NotStuck(y: System) {
    y.stream.headersWritten && !y.stream.running && !y.stream.error ==>
      y.stream.buf == "" && (y.stream.finished ==> y.finishes > 0)
  }

  /** A write that the stream waits for is on its way, or the connection is closed. */
  predicate Awaited(y: System) {
    y.stream.running ==> y.out != NoneOut || y.conn.awaiting || y.completed || y.conn.closed
  }

  predicate Good(y: System, header: string) {
    Conserved(y, header) && OneWrite(y) && BoundedWrites(y) && Untouched(y) && NotStuck(y) && Awaited(y)
  }

  // ------------------------------------------------------------- every step keeps it

  /** `onStateChanged` with the lock held: nothing is on its way unless it is waited for. */
  lemma ChangedKeeps(y: System, header: string)
    requires Conserved(y, header) && BoundedWrites(y) && Untouched(y) && Awaited(y)
    requires y.stream.headersWritten && !y.stream.running && Idle(y)
    ensures Good(With(y, StateChanged(y.stream)), header)
  {
    var y' := With(y, StateChanged(y.stream));
    if y.stream.buf != "" {
      var n := if |y.stream.buf| > MAX_WRITE then MAX_WRITE else |y.stream.buf|;
      Split(y.wire + Unsent(y.conn), y.stream.buf, n);
      assert InPipe(y', header) == y.wire + Unsent(y.conn) + y.stream.buf[..n] + y.stream.buf[n..];
      assert InPipe(y, header) == y.wire + Unsent(y.conn) + "" + y.stream.buf;
    }
  }

  lemma Split(a: string, b: string, n: nat)
    requires n <= |b|
    ensures a + b[..n] + b[n..] == a + "" + b
  {
  }

  lemma StartKeeps(y: System, header: string)
    requires Good(y, header)
    ensures Good(Next(y, Start, header), header)
  {
    if !y.stream.headersWritten && !y.stream.error {
      var y' := Next(y, Start, header);
      assert InPipe(y, header) == y.stream.buf;
      assert InPipe(y', header) == header + y.stream.buf;
    }
  }

  lemma ChunkKeeps(y: System, data: string, header: string)
    requires Good(y, header)
    ensures Good(Next(y, Chunk(data), header), header)
  {
    if !y.stream.error {
      var z := y.(accepted := y.accepted + data, stream := y.stream.(buf := y.stream.buf + data));
      Assoc(y.wire + Unsent(y.conn) + OutBytes(y.out, header), y.stream.buf, data);
      if y.stream.headersWritten { Assoc(header, y.accepted, data); }
      assert Conserved(z, header);
      if z.stream.headersWritten && !z.stream.running { ChangedKeeps(z, header); }
    }
  }

  lemma FinishKeeps(y: System, header: string)
    requires Good(y, header)
    ensures Good(Next(y, Finish, header), header)
  {
    if !y.stream.finished && !y.stream.error {
      var z := y.(stream := y.stream.(finished := true));
      assert InPipe(z, header) == InPipe(y, header);
      if z.stream.headersWritten && !z.stream.running { ChangedKeeps(z, header); }
    }
  }

  lemma HandOverKeeps(y: System, header: string)
    requires Good(y, header) && y.out != NoneOut
    ensures Good(Next(y, HandOver, header), header)
  {
    var y' := Next(y, HandOver, header);
    var out := OutBytes(y.out, header);
    assert "" + out == out && y'.conn.writeBuf == out && Unsent(y'.conn) == out;
    Moved(y.wire, out, y.stream.buf);
  }

  lemma Moved(a: string, b: string, c: string)
    ensures a + "" + b + c == a + b + "" + c
  {
  }

  lemma SocketTakesKeeps(y: System, len: nat, header: string)
    requires Good(y, header) && Enabled(y, SocketTakes(len))
    ensures Good(Next(y, SocketTakes(len), header), header)
  {
    var y' := Next(y, SocketTakes(len), header);
    var unsent := Unsent(y.conn);
    assert Unsent(y'.conn) == unsent[len..];
    Split(y.wire, unsent, len);
    assert y.wire + unsent[..len] + unsent[len..] == y.wire + unsent;
  }

  lemma CompletionKeeps(y: System, header: string)
    requires Good(y, header) && y.completed
    ensures Good(Next(y, Completion, header), header)
  {
    var z := y.(completed := false, stream := y.stream.(running := false));
    assert InPipe(z, header) == InPipe(y, header);
    if z.stream.headersWritten { ChangedKeeps(z, header); }
  }

  lemma FailureKeeps(y: System, ev: Event, header: string)
    requires Good(y, header) && (ev.WriteFails? || ev.ReadFails? || ev.Close?) && Enabled(y, ev)
    ensures Good(Next(y, ev, header), header)
  {
    assert InPipe(Next(y, ev, header), header) == InPipe(y, header);
  }

  lemma StepKeeps(y: System, ev: Event, header: string)
    requires Good(y, header) && Enabled(y, ev)
    ensures Good(Next(y, ev, header), header)
  {
    match ev
    case Start => StartKeeps(y, header);
    case Chunk(data) => ChunkKeeps(y, data, header);
    case Finish => FinishKeeps(y, header);
    case HandOver => HandOverKeeps(y, header);
    case SocketTakes(len) => SocketTakesKeeps(y, len, header);
    case Completion => CompletionKeeps(y, header);
    case _ => FailureKeeps(y, ev, header);
  }

  // ------------------------------------------------------------------- whole runs

  /** Every reachable state: bytes are conserved in order, one write at a time, none above
      4 MiB, none forgotten. */
  lemma {:induction false} RunGood(evs: seq<Event>, header: string)
    requires Run(evs, header).Some?
    ensures Good(Run(evs, header).value, header)
  {
    if evs != [] {
      RunGood(evs[..|evs| - 1], header);
      StepKeeps(Run(evs[..|evs| - 1], header).value, evs[|evs| - 1], header);
    }
  }

  /** Errors included, what the client sees is the beginning of the response. */
  lemma WireIsPrefix(evs: seq<Event>, header: string)
    requires Run(evs, header).Some?
    ensures var y := Run(evs, header).value; y.wire <= header + y.accepted
  {
    RunGood(evs, header);
    var y := Run(evs, header).value;
    assert y.wire <= InPipe(y, header);
    if !y.stream.headersWritten { assert y.wire == ""; }
  }

  /** A response that is started and finished, with nothing to wait for and no error, is on
      the wire in full and given back to the connection. */
  lemma Delivered(evs: seq<Event>, header: string)
    requires Run(evs, header).Some?
    ensures var y := Run(evs, header).value;
      y.stream.headersWritten && y.stream.finished && !y.stream.running && !y.stream.error ==>
        y.wire == header + y.accepted && y.finishes > 0
  {
    RunGood(evs, header);
  }

  /** The step that calls the connection's `finishResponse` finds every accepted byte on
      the wire. */
  lemma FinishedWhenSent(evs: seq<Event>, ev: Event, header: string)
    requires Run(evs, header).Some? && Enabled(Run(evs, header).value, ev)
    ensures var y := Run(evs, header).value;
      var y' := Next(y, ev, header);
      y'.finishes != y.finishes ==> y'.finishes == y.finishes + 1 && y'.wire == header + y'.accepted
  {
    var y := Run(evs, header).value;
    RunGood(evs, header);
    StepKeeps(y, ev, header);
  }

  /** The documented order of calls: no chunk after the end. */
  predicate ChunksBeforeEnd(evs: seq<Event>) {
    forall i, j :: 0 <= i < j < |evs| && evs[i] == Finish ==> !evs[j].Chunk?
  }

  /** The stream knows of the end only from a call. */
  lemma {:induction false} FinishedByCall(evs: seq<Event>, header: string)
    requires Run(evs, header).Some? && Run(evs, header).value.stream.finished
    ensures Finish in evs
  {
    var last := |evs| - 1;
    if evs[last] != Finish { FinishedByCall(evs[..last], header); }
  }

  predicate Ended(y: System, header: string) {
    y.finishes == 1 && y.stream.finished && Idle(y) && y.stream.buf == ""
      && y.wire == header + y.accepted && !y.stream.running
  }

  /** In that order the connection's `finishResponse` is called at most once, and then the
      whole response is on the wire for good. */
  lemma {:induction false} FinishedOnce(evs: seq<Event>, header: string)
    requires Run(evs, header).Some? && ChunksBeforeEnd(evs)
    ensures var y := Run(evs, header).value; y.finishes == 0 || Ended(y, header)
  {
    if evs != [] {
      var less, ev := evs[..|evs| - 1], evs[|evs| - 1];
      var y := Run(less, header).value;
      FinishedOnce(less, header);
      RunGood(less, header);
      if y.stream.finished { FinishedByCall(less, header); }
      EndStep(y, ev, header);
    }
  }

  /** One step in that order: the one that ends the response, or one after it. */
  lemma EndStep(y: System, ev: Event, header: string)
    requires Good(y, header) && Enabled(y, ev) && (y.finishes == 0 || Ended(y, header))
    requires y.stream.finished ==> !ev.Chunk?
    ensures var y' := Next(y, ev, header); y'.finishes == 0 || Ended(y', header)
  {
    StepKeeps(y, ev, header);
    if y.finishes == 0 { EndsNow(y, ev, header); } else { StaysEnded(y, ev, header); }
  }

  lemma EndsNow(y: System, ev: Event, header: string)
    requires Good(y, header) && Enabled(y, ev) && y.finishes == 0
    requires y.stream.finished ==> !ev.Chunk?
    requires Good(Next(y, ev, header), header)
    ensures var y' := Next(y, ev, header); y'.finishes == 0 || Ended(y', header)
  {
    match ev
    case Completion => ChangedEnds(y.(completed := false, stream := y.stream.(running := false)), header);
    case Finish =>
      if !y.stream.error { ChangedEnds(y.(stream := y.stream.(finished := true)), header); }
    case _ =>
  }

  /** `onStateChanged` finishes the connection with nothing left anywhere. */
  lemma ChangedEnds(z: System, header: string)
    requires z.finishes == 0 && Conserved(z, header)
    requires z.stream.headersWritten && !z.stream.running ==> Idle(z)
    ensures var y' := With(z, StateChanged(z.stream)); y'.finishes == 0 || Ended(y', header)
  {
    assert z.wire + "" + "" + "" == z.wire;
  }

  lemma StaysEnded(y: System, ev: Event, header: string)
    requires Ended(y, header) && y.stream.headersWritten && Enabled(y, ev) && !ev.Chunk?
    ensures Ended(Next(y, ev, header), header)
  {
  }

  /** Out of that order it is called again: an empty chunk after the end does that, and
      exactly an empty one. */
  lemma LateChunk(y: System, data: string, header: string)
    requires Ended(y, header) && y.stream.headersWritten && !y.stream.error
    ensures Next(y, Chunk(data), header).finishes == 2 <==> data == ""
  {
    assert "" + data == data;
  }

  predicate Transport(ev: Event) { ev.HandOver? || ev.SocketTakes? || ev.Completion? }

  /** How far the outstanding write is. */
  function Stage(y: System): nat {
    if !y.stream.running then 0 else if y.out != NoneOut then 3 else if y.conn.awaiting then 2 else 1
  }

  /** The transport's next step while a write is outstanding. */
  lemma TransportStep(y: System, header: string) returns (ev: Event)
    requires Good(y, header) && y.stream.running && !y.stream.error && !y.conn.closed
    ensures Transport(ev) && Enabled(y, ev)
    ensures var y' := Next(y, ev, header);
      !y'.stream.error && y'.accepted == y.accepted && y'.stream.headersWritten == y.stream.headersWritten
      && y'.stream.finished == y.stream.finished && (y'.conn.closed ==> !y'.stream.running)
      && (|y'.stream.buf| < |y.stream.buf| || (y'.stream.buf == y.stream.buf && Stage(y') < Stage(y)))
  {
    ev := if y.out != NoneOut then HandOver
          else if y.conn.awaiting then SocketTakes(|Unsent(y.conn)|) else Completion;
  }

  /** From every reachable state of a started and finished response, with no error and the
      connection open, the transport alone brings it to its end. */
  lemma {:induction false} EndReached(evs: seq<Event>, y: System, header: string)
    returns (more: seq<Event>, y': System)
    requires Run(evs, header) == Some(y)
    requires y.stream.headersWritten && y.stream.finished && !y.stream.error && (y.conn.closed ==> !y.stream.running)
    ensures (forall i :: 0 <= i < |more| ==> Transport(more[i])) && Run(evs + more, header) == Some(y')
    ensures y'.accepted == y.accepted && y'.wire == header + y.accepted && y'.finishes > 0 && !y'.stream.error
    decreases |y.stream.buf|, Stage(y)
  {
    RunGood(evs, header);
    more, y' := [], y;
    if y.stream.running {
      var ev := TransportStep(y, header);
      var next := RunMore(evs, ev, header, y);
      more, y' := EndReached(next, Next(y, ev, header), header);
      Assoc(evs, [ev], more);
      more := [ev] + more;
    } else {
      assert evs + more == evs;
      Delivered(evs, header);
    }
  }

  /** So every response can end, chunks included. */
  lemma EveryResponseEnds(header: string, data: string) returns (evs: seq<Event>)
    ensures Run(evs, header).Some?
    ensures var y := Run(evs, header).value; Ended(y, header) && y.accepted == data && !y.stream.error
  {
    var calls, y := Calls(header, data);
    var more, y' := EndReached(calls, y, header);
    evs := calls + more;
    assert forall j :: 3 <= j < |evs| ==> evs[j] == more[j - 3];
    FinishedOnce(evs, header);
  }

  /** The calls of one response. */
  lemma Calls(header: string, data: string) returns (evs: seq<Event>, y: System)
    ensures evs == [Start, Chunk(data), Finish] && Run(evs, header) == Some(y)
    ensures y.stream == Stream(data, true, true, true, false) && !y.conn.closed && y.accepted == data
  {
    evs := RunMore([], Start, header, INITIAL);
    y := Next(INITIAL, Start, header);
    evs := RunMore(evs, Chunk(data), header, y);
    y := Next(y, Chunk(data), header);
    assert "" + data == data;
    evs := RunMore(evs, Finish, header, y);
    y := Next(y, Finish, header);
  }

  lemma RunMore(evs: seq<Event>, ev: Event, header: string, y: System) returns (more: seq<Event>)
    requires Run(evs, header) == Some(y) && Enabled(y, ev)
    ensures more == evs + [ev] && Run(more, header) == Some(Next(y, ev, header))
  {
    more := evs + [ev];
    assert more[..|evs|] == evs;
  }
}
