/** The client as the program runs it: reading replies byte by byte, stuffing the body, and walking
    through a conversation while it fills in the recipients' results. */
module SmtpClient {
  import opened Text
  import opened Reply
  import opened Delivery
  import opened Client
  import C = Command

  class Connection {
    const server: Server
    var sent: seq<string>
    var inbox: string
    var ended: bool

    ghost function Model(): Conn
      reads this
    {
      Conn(sent, inbox, ended)
    }

    constructor (server: Server)
      ensures this.server == server && Model() == Open(server)
    {
      this.server := server;
      sent := [];
      inbox := server.says([]);
      ended := server.hangsUp([]);
    }

    method WriteAll(bytes: string)
      modifies this
      ensures Model() == Send(server, old(Model()), bytes)
    {
      sent := sent + [bytes];
      inbox := inbox + server.says(sent);
      ended := server.hangsUp(sent);
    }

    /** The next byte; if there is none, the server has closed the connection or keeps silent. */
    method ReadByte() returns (b: Result<char, ReadError>)
      modifies this`inbox
      ensures old(inbox) == "" ==> b == Err(OutOfBytes(ended)) && inbox == ""
      ensures old(inbox) != "" ==> b == Ok(old(inbox)[0]) && inbox == old(inbox)[1..]
    {
      if inbox == "" {
        b := Err(if ended then ConnectionClosed else TimedOut);
      } else {
        b := Ok(inbox[0]);
        inbox := inbox[1..];
      }
    }
  }

  method ReadResponse(conn: Connection) returns (r: ReadResult)
    modifies conn`inbox
    ensures (r, conn.Model()) == Receive(old(conn.Model()))
  {
    var lines: seq<string> := [];
    var code: nat := 0;
    var lineBuffer := "";
    while true
      invariant ReadLoop(code, lines, lineBuffer, conn.inbox) == ReadReply(old(conn.inbox))
      decreases |conn.inbox|
    {
      var byte := conn.ReadByte();
      if byte.Err? {
        return Err(byte.error);
      }
      lineBuffer := lineBuffer + [byte.value];
      if EndsInCrlf(lineBuffer) {
        match TakeLine(code, lines, lineBuffer[..|lineBuffer| - 2])
        case Stop(result) =>
          return result;
        case More(c, ls) =>
          code, lines := c, ls;
          lineBuffer := "";
      }
    }
  }

  method SendLine(conn: Connection, line: string) returns (r: ReadResult)
    modifies conn
    ensures (r, conn.Model()) == Ask(conn.server, old(conn.Model()), line)
  {
    conn.WriteAll(line);
    r := ReadResponse(conn);
  }

  method Ehlo(conn: Connection, host: string) returns (failed: Option<DeliveryError>)
    modifies conn
    ensures (failed, conn.Model()) == SayHello(conn.server, old(conn.Model()), host)
  {
    var response := SendLine(conn, Line(C.Ehlo(host)));
    if response.Err? {
      return Some(ErrorOf(response.error));
    }
    if !IsPositive(response) {
      response := SendLine(conn, Line(C.Helo(host)));
      if !IsPositive(response) {
        return Some(Complaint(response, EhloStage));
      }
    }
    failed := None;
  }

  lemma {:induction false} StuffLinesNext(input: string)
    requires input != ""
    ensures var n := LineLength(input);
            StuffLines(Chunks(input)) == StuffLine(StripEol(input[..n])) + StuffLines(Chunks(input[n..]))
  {
    var n := LineLength(input);
    assert Chunks(input)[1..] == Chunks(input[n..]);
  }

  method AppendStuffed(buffer: string, content: string) returns (out: string)
    ensures out == buffer + StuffLine(content)
  {
    out := buffer;
    if content != "" && content[0] == '.' {
      out := out + ".";
    }
    out := out + content;
    out := out + CRLF;
  }

  /** One body line moved from the input to the output. */
  method StuffNext(input: string, buffer: string) returns (rest: string, out: string)
    requires input != ""
    ensures |rest| < |input| && out + StuffLines(Chunks(rest)) == buffer + StuffLines(Chunks(input))
  {
    var lineEnd := LineLength(input);
    var content := StripEol(input[..lineEnd]);
    StuffLinesNext(input);
    out := AppendStuffed(buffer, content);
    rest := input[lineEnd..];
    Associate(buffer, StuffLine(content), StuffLines(Chunks(rest)));
  }

  lemma Associate(a: string, b: string, c: string)
    ensures a + b + c == a + (b + c)
  {
  }

  /** The bytes of the body as sent: one pass over the input, a line at a time. */
  method Stuff(body: string) returns (out: string)
    ensures out == StuffBody(body)
  {
    var input := body;
    out := "";
    ghost var text := StuffLines(Chunks(body));
    assert out + StuffLines(Chunks(input)) == text;
    while input != ""
      invariant out + StuffLines(Chunks(input)) == text
      decreases |input|
    {
      input, out := StuffNext(input, out);
    }
    assert out + "" == out;
    out := out + "." + CRLF;
  }

  /** What is known after the first `i` recipients have been asked, none of them causing a panic. */
  ghost predicate AskedSoFar(server: Server, conn0: Conn, recipients: seq<string>, commands: seq<string>, i: nat,
                             conn: Conn, replies: seq<ReadResult>, results: Results, accepted: nat)
  {
    && i <= |recipients| == |commands| && |replies| == i && !Panicking(replies)
    && AskEach(server, conn0, commands, i) == Asked(conn, replies)
    && results == RcptResults(recipients, replies)
    && (accepted > 0 <==> AnyPositive(replies))
  }

  lemma {:induction false} AskedNext(server: Server, conn0: Conn, recipients: seq<string>, commands: seq<string>, i: nat,
                  conn: Conn, replies: seq<ReadResult>, results: Results, accepted: nat, reply: ReadResult, conn': Conn)
    requires AskedSoFar(server, conn0, recipients, commands, i, conn, replies, results, accepted) && i < |recipients|
    requires Ask(server, conn, commands[i]) == (reply, conn')
    ensures AskEach(server, conn0, commands, i + 1) == Asked(conn', replies + [reply])
    ensures !Panics(reply) ==>
              AskedSoFar(server, conn0, recipients, commands, i + 1, conn', replies + [reply],
                         results + [(recipients[i], RcptResult(reply))], if IsPositive(reply) then accepted + 1 else accepted)
  {
    AnyPositiveNext(replies, reply);
  }

  /** A panic while reading a reply ends the asking. */
  lemma AskedNoMore(server: Server, conn0: Conn, commands: seq<string>, i: nat, replies: seq<ReadResult>, reply: ReadResult,
                    conn: Conn)
    requires i < |commands| && AskEach(server, conn0, commands, i + 1) == Asked(conn, replies + [reply]) && Panics(reply)
    ensures AskEach(server, conn0, commands, |commands|) == Asked(conn, replies + [reply]) && Panicking(replies + [reply])
  {
    AskEachStuck(server, conn0, commands, i + 1, |commands|);
  }

  /** RCPT for recipient `i`. */
  method AskRecipient(conn: Connection, ghost conn0: Conn, recipients: seq<string>, ghost commands: seq<string>, i: nat,
                      results: Results, accepted: nat, ghost replies: seq<ReadResult>)
    returns (results': Results, accepted': nat, panicked: bool, ghost replies': seq<ReadResult>)
    requires i < |recipients| && commands == RcptLines(recipients)
    requires AskedSoFar(conn.server, conn0, recipients, commands, i, conn.Model(), replies, results, accepted)
    modifies conn
    ensures panicked ==> Panicking(replies')
                         && AskEach(conn.server, conn0, commands, |commands|) == Asked(conn.Model(), replies')
    ensures !panicked ==> AskedSoFar(conn.server, conn0, recipients, commands, i + 1, conn.Model(), replies', results', accepted')
  {
    ghost var before := conn.Model();
    var reply := SendLine(conn, Line(C.RcptTo(recipients[i], [])));
    AskedNext(conn.server, conn0, recipients, commands, i, before, replies, results, accepted, reply, conn.Model());
    replies', panicked := replies + [reply], Panics(reply);
    if panicked {
      AskedNoMore(conn.server, conn0, commands, i, replies, reply, conn.Model());
      return results, accepted, panicked, replies';
    }
    results' := results + [(recipients[i], RcptResult(reply))];
    accepted' := if IsPositive(reply) then accepted + 1 else accepted;
  }

  /** RCPT for each recipient in turn, recording a result for each. */
  method AskRecipients(conn: Connection, recipients: seq<string>)
    returns (results: Results, accepted: nat, panicked: bool, ghost replies: seq<ReadResult>)
    modifies conn
    ensures var asked := AskEach(conn.server, old(conn.Model()), RcptLines(recipients), |recipients|);
            asked == Asked(conn.Model(), replies) && panicked == Panicking(replies)
    ensures !panicked ==> |replies| == |recipients| && results == RcptResults(recipients, replies)
    ensures !panicked ==> (accepted > 0 <==> AnyPositive(replies))
  {
    results, accepted, panicked, replies := [], 0, false, [];
    ghost var commands, conn0 := RcptLines(recipients), conn.Model();
    NobodyAsked(conn.server, conn0, recipients, commands);
    var i := 0;
    while i < |recipients|
      invariant AskedSoFar(conn.server, conn0, recipients, commands, i, conn.Model(), replies, results, accepted)
    {
      results, accepted, panicked, replies := AskRecipient(conn, conn0, recipients, commands, i, results, accepted, replies);
      if panicked {
        return;
      }
      i := i + 1;
    }
    EverybodyAsked(conn.server, conn0, recipients, commands, conn.Model(), replies, results, accepted);
  }

  lemma NobodyAsked(server: Server, conn0: Conn, recipients: seq<string>, commands: seq<string>)
    requires |commands| == |recipients|
    ensures AskedSoFar(server, conn0, recipients, commands, 0, conn0, [], [], 0)
  {
  }

  lemma {:induction false} EverybodyAsked(server: Server, conn0: Conn, recipients: seq<string>, commands: seq<string>, conn: Conn,
                       replies: seq<ReadResult>, results: Results, accepted: nat)
    requires AskedSoFar(server, conn0, recipients, commands, |recipients|, conn, replies, results, accepted)
    ensures AskEach(server, conn0, commands, |recipients|) == Asked(conn, replies) && !Panicking(replies)
    ensures |replies| == |recipients| && results == RcptResults(recipients, replies) && (accepted > 0 <==> AnyPositive(replies))
  {
  }

  lemma AnyPositiveNext(replies: seq<ReadResult>, reply: ReadResult)
    ensures AnyPositive(replies + [reply]) <==> AnyPositive(replies) || IsPositive(reply)
  {
    var all := replies + [reply];
    forall i | 0 <= i < |replies| ensures all[i] == replies[i] {}
    assert all[|replies|] == reply;
  }

  lemma {:induction false} AskEachStuck(server: Server, conn: Conn, commands: seq<string>, i: nat, n: nat)
    requires i <= n <= |commands| && Panicking(AskEach(server, conn, commands, i).replies)
    ensures AskEach(server, conn, commands, n) == AskEach(server, conn, commands, i)
  {
    if i < n { AskEachStuck(server, conn, commands, i, n - 1); }
  }

  /** The message was refused: every recipient accepted so far has failed after all. */
  method MarkFailed(ghost recipients: seq<string>, ghost replies: seq<ReadResult>, results: Results, final: ReadResult)
    returns (marked: Results)
    requires |replies| == |recipients| && results == RcptResults(recipients, replies) && !IsPositive(final)
    ensures marked == Verdicts(recipients, replies, final)
  {
    marked := results;
    var i := 0;
    while i < |marked|
      invariant 0 <= i <= |marked| == |recipients|
      invariant forall k :: 0 <= k < i ==> marked[k] == (recipients[k], Verdict(replies[k], final))
      invariant forall k :: i <= k < |marked| ==> marked[k] == results[k]
    {
      if marked[i].1.Success? {
        marked := marked[i := (marked[i].0, Failure(Complaint(final, BodyStage)))];
      }
      i := i + 1;
    }
  }

  method Quit(conn: Connection) returns (panicked: bool)
    modifies conn
    ensures var (r, after) := Ask(conn.server, old(conn.Model()), Line(C.Quit));
            panicked == Panics(r) && conn.Model() == after
  {
    var r := SendLine(conn, Line(C.Quit));
    panicked := Panics(r);
  }

  /** From DATA on, with at least one recipient accepted. */
  method Transfer(conn: Connection, ghost recipients: seq<string>, ghost replies: seq<ReadResult>, results: Results, body: string)
    returns (r: Result<Results, DeliveryError>)
    requires |replies| == |recipients| && results == RcptResults(recipients, replies)
    modifies conn
    ensures var a := SendMessage(conn.server, old(conn.Model()), recipients, replies, body);
            r == a.result && conn.Model() == a.conn
  {
    var go := SendLine(conn, Line(C.Data));
    if go.Err? {
      return Err(ErrorOf(go.error));
    }
    if go.value.code != 354 {
      return Err(Rejection(go.value, DataStage));
    }
    var text := Stuff(body);
    var final := SendLine(conn, text);
    if final.Err? {
      return Err(ErrorOf(final.error));
    }
    var settled := results;
    if !IsPositive(final) {
      settled := MarkFailed(recipients, replies, results, final);
    } else {
      assert results == Verdicts(recipients, replies, final);
    }
    var panicked := Quit(conn);
    r := if panicked then Err(Panicked) else Ok(settled);
  }

  /** One whole delivery attempt on a connection just opened. */
  method TryDeliver(conn: Connection, host: string, sender: string, recipients: seq<string>, body: string)
    returns (r: Result<Results, DeliveryError>)
    requires conn.Model() == Open(conn.server)
    modifies conn
    ensures var a := Converse(conn.server, host, sender, recipients, body);
            r == a.result && conn.Model() == a.conn
  {
    var greeting := ReadResponse(conn);
    if !IsPositive(greeting) {
      return Err(Complaint(greeting, Connect));
    }
    var failed := Ehlo(conn, host);
    if failed.Some? {
      return Err(failed.value);
    }
    var mail := SendLine(conn, Line(C.MailFrom(sender, [SizeParameter(|body|)])));
    if !IsPositive(mail) {
      return Err(Complaint(mail, MailStage));
    }
    r := DeliverAfterMail(conn, recipients, body);
  }

  method DeliverAfterMail(conn: Connection, recipients: seq<string>, body: string)
    returns (r: Result<Results, DeliveryError>)
    modifies conn
    ensures var a := AfterMail(conn.server, old(conn.Model()), recipients, body);
            r == a.result && conn.Model() == a.conn
  {
    var results, accepted, panicked, replies := AskRecipients(conn, recipients);
    if panicked {
      return Err(Panicked);
    }
    if accepted == 0 {
      var failed := Quit(conn);
      return if failed then Err(Panicked) else Ok(results);
    }
    r := Transfer(conn, recipients, replies, results, body);
  }
}
