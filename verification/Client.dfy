/**
 The SMTP client: one delivery conversation with a server.

 A server is anything that answers what it has been sent so far (the client's writes, in order).
 What it says arrives as text: that decoding it beforehand makes no difference to the reader is
 shown in module Decoding.
 */
module Client {
  import opened Text
  import opened Reply
  import opened Delivery
  import C = Command

  /** After the last of some writes, what a server says, and whether it then closes the connection;
      with no writes, on connect. */
  datatype Server = Server(says: seq<string> -> string, hangsUp: seq<string> -> bool)

  /** The client's side of a connection: its writes, the bytes not yet read, and whether the end of
      the stream comes after them. */
  datatype Conn = Conn(sent: seq<string>, inbox: string, ended: bool)

  function Open(server: Server): Conn {
    Conn([], server.says([]), server.hangsUp([]))
  }

  function Send(server: Server, conn: Conn, bytes: string): Conn {
    var sent := conn.sent + [bytes];
    Conn(sent, conn.inbox + server.says(sent), server.hangsUp(sent))
  }

  /** With nothing to read, the end of the stream is an error at once; otherwise the client waits until
      its time is up. */
  function OutOfBytes(ended: bool): ReadError {
    if ended then ConnectionClosed else TimedOut
  }

  function Receive(conn: Conn): (ReadResult, Conn) {
    var (r, rest) := ReadReply(conn.inbox);
    (if r == Err(ConnectionClosed) then Err(OutOfBytes(conn.ended)) else r, conn.(inbox := rest))
  }

  function Ask(server: Server, conn: Conn, bytes: string): (ReadResult, Conn) {
    Receive(Send(server, conn, bytes))
  }

  // ---------------------------------------------------------------- judging replies

  predicate IsPositive(r: ReadResult) {
    r.Ok? && 200 <= r.value.code < 300
  }

  function ErrorOf(e: ReadError): DeliveryError {
    match e
    case ConnectionClosed => IoError
    case TimedOut => Timeout
    case NotAReply(received) => ProtocolError(received)
    case SliceOutOfRange => Panicked
  }

  function Rejection(r: Response, stage: Stage): DeliveryError {
    Rejected(r.code, Join(r.messages, " "), stage)
  }

  /** The error a reply amounts to when it is not a positive one. */
  function Complaint(r: ReadResult, stage: Stage): DeliveryError {
    match r
    case Ok(reply) => Rejection(reply, stage)
    case Err(e) => ErrorOf(e)
  }

  predicate Panics(r: ReadResult) {
    r == Err(SliceOutOfRange)
  }

  // ---------------------------------------------------------------- what the client writes

  function Line(cmd: C.Command): string {
    C.Print(cmd) + CRLF
  }

  function SizeParameter(size: nat): string {
    "SIZE=" + ToDecimal(size)
  }

  function StuffLine(content: string): string {
    (if content != "" && content[0] == '.' then "." else "") + content + CRLF
  }

  function StuffLines(chunks: seq<string>): string {
    if chunks == [] then "" else StuffLine(StripEol(chunks[0])) + StuffLines(chunks[1..])
  }

  /** The body with CRLF line endings and stuffed dots, and the line that ends it. */
  function StuffBody(body: string): string {
    StuffLines(Chunks(body)) + "." + CRLF
  }

  // ---------------------------------------------------------------- the conversation

  function SayHello(server: Server, conn: Conn, host: string): (Option<DeliveryError>, Conn) {
    var (ehlo, c1) := Ask(server, conn, Line(C.Ehlo(host)));
    if IsPositive(ehlo) then (None, c1)
    else if ehlo.Err? then (Some(ErrorOf(ehlo.error)), c1)
    else
      var (helo, c2) := Ask(server, c1, Line(C.Helo(host)));
      (if IsPositive(helo) then None else Some(Complaint(helo, EhloStage)), c2)
  }

  function RcptLines(recipients: seq<string>): (lines: seq<string>)
    ensures |lines| == |recipients|
  {
    seq(|recipients|, i requires 0 <= i < |recipients| => Line(C.RcptTo(recipients[i], [])))
  }

  /** The replies to commands sent one after the other; a panic ends the conversation. */
  datatype Asked = Asked(conn: Conn, replies: seq<ReadResult>)

  predicate Panicking(replies: seq<ReadResult>) {
    replies != [] && Panics(replies[|replies| - 1])
  }

  function AskEach(server: Server, conn: Conn, commands: seq<string>, n: nat): Asked
    requires n <= |commands|
  {
    if n == 0 then Asked(conn, [])
    else
      var before := AskEach(server, conn, commands, n - 1);
      if Panicking(before.replies) then before
      else
        var (reply, next) := Ask(server, before.conn, commands[n - 1]);
        Asked(next, before.replies + [reply])
  }

  predicate AnyPositive(replies: seq<ReadResult>) {
    exists i :: 0 <= i < |replies| && IsPositive(replies[i])
  }

  function RcptResult(reply: ReadResult): RecipientResult {
    if IsPositive(reply) then Success else Failure(Complaint(reply, RcptStage))
  }

  /** What became of a recipient, given the reply to its RCPT and the one to the message. */
  function Verdict(rcpt: ReadResult, final: ReadResult): RecipientResult {
    if IsPositive(rcpt) && !IsPositive(final) then Failure(Complaint(final, BodyStage)) else RcptResult(rcpt)
  }

  type Results = seq<(string, RecipientResult)>

  function RcptResults(recipients: seq<string>, replies: seq<ReadResult>): Results
    requires |replies| <= |recipients|
  {
    seq(|replies|, i requires 0 <= i < |replies| => (recipients[i], RcptResult(replies[i])))
  }

  function Verdicts(recipients: seq<string>, replies: seq<ReadResult>, final: ReadResult): Results
    requires |replies| == |recipients|
  {
    seq(|replies|, i requires 0 <= i < |replies| => (recipients[i], Verdict(replies[i], final)))
  }

  /** One conversation: its result, the connection afterwards, and the replies that decided it. */
  datatype Attempt = Attempt(
    result: Result<Results, DeliveryError>,
    conn: Conn,
    rcpts: seq<ReadResult>,
    final: Option<ReadResult>)

  function Leave(server: Server, conn: Conn, results: Results, rcpts: seq<ReadResult>, final: Option<ReadResult>): Attempt {
    var (quit, c) := Ask(server, conn, Line(C.Quit));
    Attempt(if Panics(quit) then Err(Panicked) else Ok(results), c, rcpts, final)
  }

  function SendMessage(server: Server, conn: Conn, recipients: seq<string>, rcpts: seq<ReadResult>, body: string): Attempt
    requires |rcpts| == |recipients|
  {
    var (go, c1) := Ask(server, conn, Line(C.Data));
    if go.Err? then Attempt(Err(ErrorOf(go.error)), c1, rcpts, None)
    else if go.value.code != 354 then Attempt(Err(Rejection(go.value, DataStage)), c1, rcpts, None)
    else
      var (final, c2) := Ask(server, c1, StuffBody(body));
      if final.Err? then Attempt(Err(ErrorOf(final.error)), c2, rcpts, Some(final))
      else Leave(server, c2, Verdicts(recipients, rcpts, final), rcpts, Some(final))
  }

  lemma {:induction false} RepliesTo(server: Server, conn: Conn, commands: seq<string>, n: nat)
    requires n <= |commands|
    ensures var r := AskEach(server, conn, commands, n);
            && |r.replies| <= n
            && (!Panicking(r.replies) ==> |r.replies| == n && r.conn.sent == conn.sent + commands[..n])
  {
    if n > 0 {
      RepliesTo(server, conn, commands, n - 1);
      assert commands[..n] == commands[..n - 1] + [commands[n - 1]];
    }
  }

  function AfterMail(server: Server, conn: Conn, recipients: seq<string>, body: string): Attempt {
    var lines := RcptLines(recipients);
    var r := AskEach(server, conn, lines, |lines|);
    RepliesTo(server, conn, lines, |lines|);
    if Panicking(r.replies) then Attempt(Err(Panicked), r.conn, r.replies, None)
    else if !AnyPositive(r.replies) then
      Leave(server, r.conn, RcptResults(recipients, r.replies), r.replies, None)
    else SendMessage(server, r.conn, recipients, r.replies, body)
  }

  function Converse(server: Server, host: string, sender: string, recipients: seq<string>, body: string): Attempt {
    var (greeting, c0) := Receive(Open(server));
    if !IsPositive(greeting) then Attempt(Err(Complaint(greeting, Connect)), c0, [], None)
    else
      var (failed, c1) := SayHello(server, c0, host);
      if failed.Some? then Attempt(Err(failed.value), c1, [], None)
      else
        var (mail, c2) := Ask(server, c1, Line(C.MailFrom(sender, [SizeParameter(|body|)])));
        if !IsPositive(mail) then Attempt(Err(Complaint(mail, MailStage)), c2, [], None)
        else AfterMail(server, c2, recipients, body)
  }

  // ---------------------------------------------------------------- per-recipient accounting

  /** Every recipient is listed once, in order; it succeeded exactly when its RCPT and the message
      were both answered positively; a failure is permanent exactly when its error is, and the error
      is the one its own RCPT, or else the message, drew. */
  ghost predicate Settled(recipients: seq<string>, results: Results, rcpts: seq<ReadResult>, final: Option<ReadResult>) {
    && |results| == |recipients| == |rcpts|
    && forall i :: 0 <= i < |recipients| ==>
         && results[i].0 == recipients[i]
         && (results[i].1.Success? <==> IsPositive(rcpts[i]) && final.Some? && IsPositive(final.value))
         && (!results[i].1.Success? ==>
               && results[i].1.PermanentFailure? == results[i].1.error.IsPermanent()
               && results[i].1.error == if final.Some? && IsPositive(rcpts[i]) then Complaint(final.value, BodyStage)
                                        else Complaint(rcpts[i], RcptStage))
  }

  /** What a conversation that ends well amounts to, against any server at all; DATA and the
      message are sent exactly when some recipient was accepted. */
  ghost predicate Accounted(recipients: seq<string>, body: string, mailSent: seq<string>, a: Attempt) {
    a.result.Ok? ==>
      && Settled(recipients, a.result.value, a.rcpts, a.final)
      && (a.final.Some? <==> AnyPositive(a.rcpts))
      && a.conn.sent == mailSent + RcptLines(recipients)
                        + (if AnyPositive(a.rcpts) then [Line(C.Data), StuffBody(body)] else []) + [Line(C.Quit)]
  }

  lemma NoneAcceptedSettled(recipients: seq<string>, rcpts: seq<ReadResult>)
    requires |rcpts| == |recipients| && !AnyPositive(rcpts)
    ensures Settled(recipients, RcptResults(recipients, rcpts), rcpts, None)
  {
  }

  lemma VerdictsSettled(recipients: seq<string>, rcpts: seq<ReadResult>, final: ReadResult)
    requires |rcpts| == |recipients|
    ensures Settled(recipients, Verdicts(recipients, rcpts, final), rcpts, Some(final))
  {
  }

  lemma MessageSent(server: Server, conn: Conn, recipients: seq<string>, rcpts: seq<ReadResult>, body: string)
    requires |rcpts| == |recipients|
    ensures var a := SendMessage(server, conn, recipients, rcpts, body);
            a.result.Ok? ==>
              && a.conn.sent == conn.sent + [Line(C.Data), StuffBody(body), Line(C.Quit)]
              && a.rcpts == rcpts && a.final.Some? && a.result.value == Verdicts(recipients, rcpts, a.final.value)
  {
  }

  lemma AfterMailAccounted(server: Server, conn: Conn, recipients: seq<string>, body: string)
    ensures Accounted(recipients, body, conn.sent, AfterMail(server, conn, recipients, body))
  {
    var lines := RcptLines(recipients);
    var r := AskEach(server, conn, lines, |lines|);
    RepliesTo(server, conn, lines, |lines|);
    assert lines[..|lines|] == lines;
    if !Panicking(r.replies) {
      if AnyPositive(r.replies) {
        MessageSent(server, r.conn, recipients, r.replies, body);
        var a := SendMessage(server, r.conn, recipients, r.replies, body);
        if a.result.Ok? {
          VerdictsSettled(recipients, r.replies, a.final.value);
          assert [Line(C.Data), StuffBody(body), Line(C.Quit)] == [Line(C.Data), StuffBody(body)] + [Line(C.Quit)];
        }
      } else {
        NoneAcceptedSettled(recipients, r.replies);
      }
    }
  }

  /** The writes before the recipients: EHLO, HELO if EHLO was refused, MAIL. */
  ghost predicate OpeningLines(host: string, sender: string, size: nat, sent: seq<string>) {
    var mail := Line(C.MailFrom(sender, [SizeParameter(size)]));
    sent == [Line(C.Ehlo(host)), mail] || sent == [Line(C.Ehlo(host)), Line(C.Helo(host)), mail]
  }

  lemma HelloSent(server: Server, conn: Conn, host: string)
    ensures var (failed, conn') := SayHello(server, conn, host);
            failed.None? ==> conn'.sent == conn.sent + [Line(C.Ehlo(host))]
                             || conn'.sent == conn.sent + [Line(C.Ehlo(host)), Line(C.Helo(host))]
  {
  }

  /** A conversation that ends well got past MAIL. */
  lemma GotPastMail(server: Server, host: string, sender: string, recipients: seq<string>, body: string) returns (conn: Conn)
    ensures var a := Converse(server, host, sender, recipients, body);
            a.result.Ok? ==> a == AfterMail(server, conn, recipients, body) && OpeningLines(host, sender, |body|, conn.sent)
  {
    var (greeting, c0) := Receive(Open(server));
    var (failed, c1) := SayHello(server, c0, host);
    var (mail, c2) := Ask(server, c1, Line(C.MailFrom(sender, [SizeParameter(|body|)])));
    HelloSent(server, c0, host);
    AskSent(server, c1, Line(C.MailFrom(sender, [SizeParameter(|body|)])));
    OpeningIs(host, sender, |body|, c1.sent, c2.sent);
    conn := c2;
  }

  lemma AskSent(server: Server, conn: Conn, bytes: string)
    ensures Ask(server, conn, bytes).1.sent == conn.sent + [bytes]
  {
  }

  lemma OpeningIs(host: string, sender: string, size: nat, hello: seq<string>, sent: seq<string>)
    requires sent == hello + [Line(C.MailFrom(sender, [SizeParameter(size)]))]
    ensures hello == [] + [Line(C.Ehlo(host))] || hello == [] + [Line(C.Ehlo(host)), Line(C.Helo(host))] ==>
              OpeningLines(host, sender, size, sent)
  {
  }

  lemma EveryConversationAccounted(server: Server, host: string, sender: string, recipients: seq<string>, body: string)
    ensures var a := Converse(server, host, sender, recipients, body);
            a.result.Ok? ==>
              exists opening :: OpeningLines(host, sender, |body|, opening) && Accounted(recipients, body, opening, a)
  {
    var conn := GotPastMail(server, host, sender, recipients, body);
    AfterMailAccounted(server, conn, recipients, body);
  }
}
