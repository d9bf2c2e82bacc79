/** The inbound byte handling of the listener: draining an accepted connection
    in fixed-size chunks, splitting the received text into HTTP header and body
    on the first empty line (CRLF CRLF, the end of the header section in
    section 3 of RFC 7230), and the fixed reply sent back.

    The socket is not modelled: each poll of the connection is an input saying
    whether data is pending and, if so, what one `Recv` produced. */
module Framing {
  import opened Wrappers
  import Text

  newtype byte = x: int | 0 <= x < 256

  /** The size of every chunk the drain asks `Recv` for. */
  const BufferSize: int := 4096

  /** One `Recv` call. On success `bytesRead` is the count the socket reported
      and `chunk` is the whole 4096-byte region reserved for the call: its first
      `bytesRead` bytes were received, and any other bytes are whatever the
      reserved memory held. */
  datatype RecvResult =
    | RecvError
    | RecvOk(bytesRead: int, chunk: seq<byte>)

  /** One turn of the drain loop: `HasPendingData` reporting nothing (or a zero
      size), or reporting data followed by the `Recv` that fills it. */
  datatype Poll = NoPendingData | PendingData(recv: RecvResult)

  /** What a socket can answer: a reserved region of exactly the buffer size,
      never more bytes than asked for. */
  predicate WellFormedPoll(p: Poll) {
    p.PendingData? && p.recv.RecvOk? ==> |p.recv.chunk| == BufferSize && p.recv.bytesRead <= BufferSize
  }

  predicate WellFormedScript(script: seq<Poll>) {
    forall i :: 0 <= i < |script| ==> WellFormedPoll(script[i])
  }

  /** The drain's result: the byte total (-1 after a receive error) and the
      buffer it filled. */
  datatype Drained = Drained(total: int, buffer: seq<byte>)

  /** The drain loop of `CheckForConnections`, from the running total and
      buffer: each turn reserves a chunk and receives into it; a failed receive
      sets the total to -1 and stops; a non-positive count stops with the
      reserved chunk left in the buffer; otherwise the buffer is cut back to
      what was received, and a short read stops. The end of the script means
      nothing more is pending. */
  function Drain(script: seq<Poll>, total: int, buffer: seq<byte>): Drained
    requires WellFormedScript(script)
    decreases |script|
  {
    if |script| == 0 || script[0].NoPendingData? then Drained(total, buffer)
    else
      match script[0].recv
      case RecvError => Drained(-1, buffer)
      case RecvOk(n, chunk) =>
        if n <= 0 then Drained(total, buffer + chunk)
        else if n < BufferSize then Drained(total + n, buffer + chunk[..n])
        else Drain(script[1..], total + n, buffer + chunk)
  }

  // ---------------------------------------------------------------------------
  // The drain in closed form

  /** A turn that filled the whole chunk, after which the loop goes on. */
  predicate IsFullRead(p: Poll) {
    p.PendingData? && p.recv.RecvOk? && p.recv.bytesRead == BufferSize
  }

  /** How many turns at the start of the script are full reads. */
  function LeadingFullReads(script: seq<Poll>): (k: nat)
    ensures k <= |script|
    ensures forall i :: 0 <= i < k ==> IsFullRead(script[i])
    ensures k < |script| ==> !IsFullRead(script[k])
  {
    if |script| == 0 || !IsFullRead(script[0]) then 0 else 1 + LeadingFullReads(script[1..])
  }

  /** The bytes of a run of full reads, in order. */
  function Chunks(fullReads: seq<Poll>): seq<byte>
    requires forall i :: 0 <= i < |fullReads| ==> IsFullRead(fullReads[i])
  {
    if |fullReads| == 0 then []
    else
      assert IsFullRead(fullReads[0]);
      fullReads[0].recv.chunk + Chunks(fullReads[1..])
  }

  /** The drain's result stated directly: k full reads, then the turn that
      stopped the loop decides. */
  function DrainClosedForm(script: seq<Poll>): Drained
    requires WellFormedScript(script)
  {
    var k := LeadingFullReads(script);
    var received := Chunks(script[..k]);
    if k == |script| || script[k].NoPendingData? then Drained(BufferSize * k, received)
    else
      match script[k].recv
      case RecvError => Drained(-1, received)
      case RecvOk(n, chunk) =>
        if n <= 0 then Drained(BufferSize * k, received + chunk)
        else Drained(BufferSize * k + n, received + chunk[..n])
  }

  /** The drain loop computes the closed form from any non-error running
      state, offset by that state. */
  lemma {:induction false} DrainAccumulates(script: seq<Poll>, total: int, buffer: seq<byte>)
    requires WellFormedScript(script)
    ensures var c := DrainClosedForm(script);
      Drain(script, total, buffer) == Drained(if c.total == -1 then -1 else total + c.total, buffer + c.buffer)
    decreases |script|
  {
    var k := LeadingFullReads(script);
    if k == 0 {
      assert script[..0] == [];
      if k < |script| && script[k].PendingData? && script[k].recv.RecvOk? {
        var n := script[k].recv.bytesRead;
        assert n < BufferSize;
      }
    } else {
      var tail := script[1..];
      var chunk := script[0].recv.chunk;
      ClosedFormStep(script);
      assert chunk[..BufferSize] == chunk;
      DrainAccumulates(tail, total + BufferSize, buffer + chunk);
      var t := DrainClosedForm(tail);
      assert (buffer + chunk) + t.buffer == buffer + (chunk + t.buffer);
    }
  }

  /** After a full read at the head, the closed form is that of the rest,
      one chunk further on. */
  lemma ClosedFormStep(script: seq<Poll>)
    requires WellFormedScript(script) && |script| > 0 && IsFullRead(script[0])
    ensures WellFormedScript(script[1..])
    ensures var c := DrainClosedForm(script); var t := DrainClosedForm(script[1..]);
      c == Drained(if t.total == -1 then -1 else BufferSize + t.total, script[0].recv.chunk + t.buffer)
  {
    var tail := script[1..];
    assert WellFormedScript(tail) by {
      forall i | 0 <= i < |tail|
        ensures WellFormedPoll(tail[i])
      {
        assert tail[i] == script[i + 1];
      }
    }
    var k := LeadingFullReads(script);
    var chunk := script[0].recv.chunk;
    assert LeadingFullReads(tail) == k - 1;
    assert script[..k] == [script[0]] + tail[..k - 1];
    assert script[..k][1..] == tail[..k - 1];
    assert Chunks(script[..k]) == chunk + Chunks(tail[..k - 1]);
    if k < |script| {
      assert script[k] == tail[k - 1];
    }
  }

  /** The drain from an empty buffer is the closed form. */
  lemma DrainIsClosedForm(script: seq<Poll>)
    requires WellFormedScript(script)
    ensures Drain(script, 0, []) == DrainClosedForm(script)
  {
    DrainAccumulates(script, 0, []);
    var c := DrainClosedForm(script);
    assert [] + c.buffer == c.buffer;
  }

  /** What the total says about the drain: -1 exactly when a receive failed;
      otherwise the buffer starts with the received bytes, and holds 4096
      more exactly when the loop stopped on a non-positive receive. */
  lemma DrainTotals(script: seq<Poll>)
    requires WellFormedScript(script)
    ensures var d := Drain(script, 0, []); var k := LeadingFullReads(script);
      && (d.total == -1 <==> k < |script| && script[k] == PendingData(RecvError))
      && (d.total != -1 ==> 0 <= d.total <= |d.buffer| && BufferSize * k <= |d.buffer| && d.buffer[..BufferSize * k] == Chunks(script[..k]))
      && (d.total != -1 ==> (|d.buffer| == d.total + BufferSize <==>
            k < |script| && script[k].PendingData? && script[k].recv.RecvOk? && script[k].recv.bytesRead <= 0))
      && (d.total != -1 && |d.buffer| != d.total + BufferSize ==> |d.buffer| == d.total)
  {
    DrainIsClosedForm(script);
    var k := LeadingFullReads(script);
    ChunksLength(script[..k]);
  }

  lemma {:induction false} ChunksLength(fullReads: seq<Poll>)
    requires forall i :: 0 <= i < |fullReads| ==> IsFullRead(fullReads[i])
    requires forall i :: 0 <= i < |fullReads| ==> WellFormedPoll(fullReads[i])
    ensures |Chunks(fullReads)| == BufferSize * |fullReads|
  {
    if |fullReads| > 0 {
      ChunksLength(fullReads[1..]);
    }
  }

  // ---------------------------------------------------------------------------
  // Header/body framing

  const HeaderTerminator := "\r\n\r\n"

  /** The body of the received text: everything after the first CRLF CRLF,
      or the whole text when there is none. */
  function ExtractBody(text: string): (body: string)
    ensures |body| <= |text| && body == text[|text| - |body|..]
    ensures |body| < |text| ==>
      |text| - |body| >= 4 && Text.OccursAt(text, HeaderTerminator, |text| - |body| - 4)
    ensures |body| < |text| ==>
      forall j :: 0 <= j < |text| - |body| - 4 ==> !Text.OccursAt(text, HeaderTerminator, j)
    ensures |body| == |text| ==> forall j :: 0 <= j ==> !Text.OccursAt(text, HeaderTerminator, j)
  {
    var start := Text.IndexOf(text, HeaderTerminator);
    if start.Some? then text[start.value + |HeaderTerminator|..] else text
  }

  /** A header line as a peer writes it: not empty, no CR or LF inside. */
  predicate IsHeaderLine(line: string) {
    |line| > 0 && forall i :: 0 <= i < |line| ==> line[i] != '\r' && line[i] != '\n'
  }

  /** The start line and header fields, each terminated by CRLF. */
  function HeaderBlock(lines: seq<string>): string {
    if |lines| == 0 then "" else lines[0] + "\r\n" + HeaderBlock(lines[1..])
  }

  /** An HTTP message: the header lines, the empty line, then the body. */
  function HttpMessage(lines: seq<string>, body: string): string {
    HeaderBlock(lines) + "\r\n" + body
  }

  /** No terminator starts at a character other than CR. */
  lemma NoTerminatorAt(s: string, j: nat)
    requires j < |s| && s[j] != '\r'
    ensures !Text.OccursAt(s, HeaderTerminator, j)
  {
    assert j + 4 <= |s| ==> s[j..j + 4][0] == s[j];
  }

  /** Nor one whose third character is not CR. */
  lemma NoTerminatorBefore(s: string, j: nat)
    requires j + 2 < |s| && s[j + 2] != '\r'
    ensures !Text.OccursAt(s, HeaderTerminator, j)
  {
    assert j + 4 <= |s| ==> s[j..j + 4][2] == s[j + 2];
  }

  /** No terminator starts inside a header line. */
  lemma NoTerminatorInLine(line: string, after: string)
    requires IsHeaderLine(line)
    ensures forall j :: 0 <= j < |line| ==> !Text.OccursAt(line + after, HeaderTerminator, j)
  {
    forall j | 0 <= j < |line|
      ensures !Text.OccursAt(line + after, HeaderTerminator, j)
    {
      assert (line + after)[j] == line[j];
      NoTerminatorAt(line + after, j);
    }
  }

  /** Nor in a header line with its CRLF when another line follows. */
  lemma NoTerminatorInLineBreak(line: string, after: string)
    requires IsHeaderLine(line)
    requires |after| > 0 && after[0] != '\r'
    ensures forall j :: 0 <= j < |line + "\r\n"| ==> !Text.OccursAt(line + "\r\n" + after, HeaderTerminator, j)
  {
    var text := line + "\r\n" + after;
    assert text == line + ("\r\n" + after);
    NoTerminatorInLine(line, "\r\n" + after);
    assert text[|line| + 2] == after[0];
    NoTerminatorBefore(text, |line|);
    assert text[|line| + 1] == '\n';
    NoTerminatorAt(text, |line| + 1);
  }

  /** The last header line is followed by the terminator. */
  lemma LastHeaderLine(line: string, tail: string)
    requires IsHeaderLine(line)
    ensures Text.IndexOf(line + "\r\n" + "\r\n" + tail, HeaderTerminator) == Some(|line|)
  {
    var after := "\r\n" + "\r\n" + tail;
    assert line + "\r\n" + "\r\n" + tail == line + after;
    NoTerminatorInLine(line, after);
    Text.IndexOfAfterPrefix(line, after, HeaderTerminator);
    assert after[..4] == HeaderTerminator;
  }

  /** In a message the first CRLF CRLF is the one that ends the headers. */
  lemma {:induction false} HeaderEndFound(lines: seq<string>, tail: string)
    requires |lines| > 0
    requires forall i :: 0 <= i < |lines| ==> IsHeaderLine(lines[i])
    ensures |HeaderBlock(lines)| >= 2
    ensures Text.IndexOf(HeaderBlock(lines) + "\r\n" + tail, HeaderTerminator) == Some(|HeaderBlock(lines)| - 2)
    decreases |lines|
  {
    var line := lines[0];
    var rest := lines[1..];
    assert HeaderBlock(lines) == line + "\r\n" + HeaderBlock(rest);
    if |rest| == 0 {
      assert HeaderBlock(lines) + "\r\n" + tail == line + "\r\n" + "\r\n" + tail;
      LastHeaderLine(line, tail);
    } else {
      HeaderEndFound(rest, tail);
      var after := HeaderBlock(rest) + "\r\n" + tail;
      assert HeaderBlock(lines) + "\r\n" + tail == (line + "\r\n") + after;
      assert IsHeaderLine(rest[0]);
      assert after[0] == rest[0][0];
      NoTerminatorInLineBreak(line, after);
      Text.IndexOfAfterPrefix(line + "\r\n", after, HeaderTerminator);
    }
  }

  /** Framing recovers the body of any HTTP message whose header lines are
      well formed, whatever the body contains. */
  lemma ExtractBodyOfHttpMessage(lines: seq<string>, body: string)
    requires |lines| > 0
    requires forall i :: 0 <= i < |lines| ==> IsHeaderLine(lines[i])
    ensures ExtractBody(HttpMessage(lines, body)) == body
  {
    HeaderEndFound(lines, body);
    var h := HeaderBlock(lines);
    assert HttpMessage(lines, body)[|h| - 2 + 4..] == body;
  }

  /** Text without any CRLF CRLF is taken whole as the body. */
  lemma ExtractBodyWithoutTerminator(text: string)
    requires forall j :: 0 <= j ==> !Text.OccursAt(text, HeaderTerminator, j)
    ensures ExtractBody(text) == text
  {
  }

  // ---------------------------------------------------------------------------
  // Reply

  /** The reply for a status, formatted as the listener formats it: the
      status line, a zero content length, a closing connection, each ending in
      CRLF, then the empty line. */
  function ReplyFor(status: string): string {
    "HTTP/1.1 " + status + "\r\n" + "Content-Length: 0" + "\r\n" + "Connection: close" + "\r\n" + "\r\n"
  }

  /** The status the listener always answers with. */
  const OkStatus := "200 OK"

  /** The reply sent on every accepted connection. */
  const Reply := ReplyFor(OkStatus)

  const ReplyLines := ["HTTP/1.1 " + OkStatus, "Content-Length: 0", "Connection: close"]

  lemma HeaderBlockOfThree(a: string, b: string, c: string)
    ensures HeaderBlock([a, b, c]) == a + "\r\n" + b + "\r\n" + c + "\r\n"
  {
    assert [a, b, c][1..] == [b, c];
    assert [b, c][1..] == [c];
    assert [c][1..] == [];
    var crlf := "\r\n";
    calc {
      HeaderBlock([a, b, c]);
      a + crlf + HeaderBlock([b, c]);
      a + crlf + (b + crlf + HeaderBlock([c]));
      a + crlf + (b + crlf + (c + crlf + HeaderBlock([])));
      a + crlf + (b + crlf + (c + crlf));
      a + crlf + b + crlf + c + crlf;
    }
  }

  /** Whatever the status, the reply is an HTTP message of the status line
      and two header lines, with an empty body. */
  lemma ReplyForIsHttpMessage(status: string)
    ensures ReplyFor(status) == HttpMessage(["HTTP/1.1 " + status, "Content-Length: 0", "Connection: close"], "")
  {
    HeaderBlockOfThree("HTTP/1.1 " + status, "Content-Length: 0", "Connection: close");
  }

  /** The reply is the message made of its three header lines and no body. */
  lemma ReplyIsHttpMessage()
    ensures Reply == HttpMessage(ReplyLines, "")
  {
    ReplyForIsHttpMessage(OkStatus);
  }

  /** The reply is a complete HTTP response with an empty body, as its
      `Content-Length: 0` header says. */
  lemma ReplyIsEmptyResponse()
    ensures ExtractBody(Reply) == ""
  {
    ReplyIsHttpMessage();
    assert IsHeaderLine(ReplyLines[0]) && IsHeaderLine(ReplyLines[1]) && IsHeaderLine(ReplyLines[2]);
    ExtractBodyOfHttpMessage(ReplyLines, "");
  }
}
