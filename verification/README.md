# MyMTA in Dafny: models and proofs

MyMTA is a mail transfer agent written in Rust: an SMTP server, an SMTP delivery client, a
delivery scheduler, a message spool, and the codecs between them. This project models its logic in
Dafny and proves what the parts promise, alone and together. Sockets, clocks, identifiers and other
machines' answers are parameters, so every theorem holds for all of them.

Objects the source updates in place are classes here (`Session.SmtpSession`, `SmtpClient.Connection`,
`Server.BufWriter`, `Queues.DestinationQueue`, `QueueManager.QueueManager`, `Message.ParsedMessage`,
`Spool.DiskSpool`, `Dns.DnsCache`, `Dns.RealResolver`), and loops are loops. Each such method is
proved against a specification function of the old state, and the properties below are proved
of those functions. Strings are sequences of bytes, one `char` each; which of them are UTF-8, and
what the program makes of those that are not, is part of the model.

## How the files build on each other

- `Text`, `Utf8`, `Utf8Laws`, `Numbers`: bytes, lines, words, decimals; which bytes are text.
- `Answer`, `Phrases`, `Reply`, `Decoding`: the server's replies, their wording, the wire format with
  its reader, and the reader on bytes that are not text.
- `Command`, `CommandLaws`: the command parser, and what every line means, byte by byte.
- `Session`, `SessionHistory`, `SessionRules`, `SecondMessage`: the session, what every history of it
  guarantees, which state and reply each history calls for, and where recipients are carried over.
- `Server`, `Politeness`: the pipelining handler, and that all it ever writes can be read.
- `Delivery`, `Client`, `ClientHistory`, `SmtpClient`, `ClientLines`: the client against any server at
  all, and which line each history of replies calls for.
- `DotStuffing`, `Peer`, `TextTransfer`, `EndToEnd`, `DeliveryTheorems`, `Reports`: the client against
  this server, both as it is and as it would be if it flushed every reply, down to its disk.
- `Sorting`, `MxResolve`, `MxLaws`, `Fallback`: finding destinations and trying them.
- `Retry`, `Queues`, `Scheduler`, `QueueManager`: backoff, one destination's queue, runs of it, and
  all destinations together.
- `Message`, `MessageLaws`, `Spool`, `Intake`: parsing and printing messages, the spool and crashes,
  and how a collected message gets there.
- `Dns`, `Cidr`, `Dkim`, `DkimLaws`: the resolver's cache, SPF network matching, DKIM text transforms.

The methods are proved against specification functions. What those functions mean is told again
without them, from inputs and histories alone, in the modules of laws and rules.

## Results about the source

Some properties one would expect do not hold of the code; for these the exact condition is proved.

- An end of data does not clear the envelope. A later message over the same connection also goes to
  the earlier recipients, unless none were on record (`SessionHistory.OwnRecipientsIff`,
  `SecondMessage.RecipientsLinger`).
- The reply to an end of data is written but not flushed (`Server.HandleConnection`). The client of
  this repository therefore waits in vain: against this handler a delivery is reported as timed out
  if and only if the server takes the message, which is spooled all the same
  (`DeliveryTheorems.ShippedDelivery`). With every reply flushed, the report is the intended one
  (`DeliveryTheorems.EndToEndDelivery`).
- The server offers 8BITMIME but reads every line as UTF-8, and hangs up on a line that is not. A
  message with such a line is never taken if it is within the limit up to there
  (`DeliveryTheorems.IllegibleBody`).
- An end of data is acknowledged whatever becomes of the store, whose failure is only logged
  (`Intake.AcknowledgedAnyway`, `Intake.LostByFailure`). And a delivery with an empty body to a valid
  recipient is reported as a success while nothing is spooled (`Reports.EmptyBodyIsLost`). So even
  with every reply flushed, what the client reports of a message within the limit agrees with the
  disk if and only if the body is not empty and the store completes, or the server does not take
  the message (`Reports.ReportsMatchDisk`).
- A line of message text is taken as a command if and only if the message outgrows the limit: the
  session then starts over, and at least the final dot is still to come
  (`EndToEnd.TextBecomesCommands`).
  Since a body can grow on its way, this can happen to one whose declared size was accepted
  (`DotStuffing.BlankLinesDouble`).
- `QueueManager` rebuilds a failed message from its id, so it gives a message up only if the
  schedule allows a single attempt, and otherwise retries for ever without delay
  (`QueueManager.GivenUpOverRun`, `QueueManager.ManagerGivesUpIff`). `DestinationQueue` itself, given
  its message back, bounds and spaces the retries.
- The delay of the first retry, documented as the initial delay, is zero: the queue asks for the delay
  of the attempt that failed, not of the one to come (`Queues.FailureIs`, `Retry.WaitAfter`).
- Capped backoff is not the stepwise recurrence when the multiplier shrinks delays, the first one is
  over the cap, and neither the multiplier nor the cap is zero (`Retry.RecurrenceIff`).
- `list_queue` misreads queue ids that end in `.msg` (`Spool.ListingIff`, `Spool.ExtendedIdMisread`).
  The session never makes such an id; it can only come from another caller of the public `store`.
- Two stores under one queue id can leave a torn file (`Spool.NeverTornIff`).
- Printing a parsed message can produce a line over 998 bytes, which then no longer parses
  (`Message.ParsePrintParse`, `Message.FoldedDoesNotReprint`).
- `fold_signature` documents lines of at most 76 characters. With the leading space of a continuation
  counted, that holds if and only if the signature has at most 151 (`Dkim.FoldedWithinIff`,
  `Dkim.FoldedTooLong`).
- `ip_in_cidr6` runs out of segments for prefix lengths from 144 on when the addresses are
  equal, and `ip_in_cidr4` overflows beyond 32; the mechanism parser admits both
  (`Cidr.IpInCidr6`, `Cidr.Cidr4IsPrefix`).
- The reply reader panics, which the model reports as `Panicked`, if and only if the first decoded
  line that is no continuation is shorter than three bytes or has a character across its third and
  fourth, the lines before it having passed the check of their code (`Reply.ReadPanicsIff`,
  `Decoding.BytesPanicIff`, `Reply.ShortLinesPanic`, `Decoding.StrayBytePanics`); with this server it
  never does (`Politeness.EveryTranscriptReads`).

## Model

| member | source | states |
|---|---|---|
| DeliveryTheorems.EndToEndDelivery | src/delivery/client.rs:160-267 | the client run against a fresh session, for every sender, recipient list, body and pair of limits: with replies flushed the result is the intended one, without it is a timeout exactly when the server takes the message, and with a body that is not text an I/O error; and unless the message outgrows the limit, the server's answers and spooled message are exactly the intended ones |
| DeliveryTheorems.ShippedDelivery | src/smtp/server.rs:97-113 | against the handler as it is, the delivery is reported as timed out if and only if the sender is valid, some recipient is accepted, the body is UTF-8 and both sizes fit; the message is then spooled under its sender and accepted recipients; with every other UTF-8 body the report is the intended one |
| DeliveryTheorems.IllegibleBody | src/smtp/server.rs:87-143 | a message that would be taken but for a line that is not UTF-8, and fits up to there, is reported as an I/O error and nothing is spooled |
| DeliveryTheorems.SentIsFlushed | src/smtp/server.rs:91-143 | the bytes the client is sent, over all its writes, are the flushed bytes of the pipelining handler |
| DeliveryTheorems.OrdinaryDelivery | src/smtp/session.rs:190-209 | with valid addresses and a body within the limits, success for exactly the first recipients up to the limit and a transient failure for all others |
| DeliveryTheorems.NeverOutOfSequence | src/smtp/session.rs:161-231 | over every such conversation, refused, completed or broken off, unless its message outgrows the limit, the server answers no command as out of sequence |
| Reports.ReportsMatchSpool | src/delivery/client.rs:199-266 | with replies flushed, the recipients reported are exactly those accepted for a message the server takes, and none otherwise; what is handed to the spool is that message, for them, with its body normalised, and nothing if the body is empty or the message not taken |
| Reports.ReportsMatchDisk | src/smtp/server.rs:101-179 | a success is reported exactly when the message can be read from the disk, for the reported recipients, if and only if the body is not empty and the store completes, or the server does not take the message |
| Reports.EmptyBodyIsLost | src/smtp/session.rs:98-104 | an empty body for one valid recipient is reported as delivered and nothing is spooled |
| EndToEnd.AfterMailOutcome | src/delivery/client.rs:199-266 | from MAIL on, every recipient's fate is its own refusal or what the message drew, whether the message fits or overflows |
| EndToEnd.RcptsAnswered | src/smtp/session.rs:190-209 | after any number of RCPT commands the replies read, the recipients on record and the answers given all agree with the list of recipients |
| EndToEnd.MessageOverflows | src/smtp/session.rs:255-285 | a message over the limit is refused to the client for every accepted recipient, and the lines still arriving cannot make its reader fail |
| EndToEnd.TextBecomesCommands | src/smtp/session.rs:277-282 | some line of the text is handled as a command if and only if the message outgrows the limit; the session has then started over, with no recipients and nothing spooled |
| EndToEnd.ServerServes | src/smtp/session.rs:114-145 | the actual session, driven line by line, meets everything the delivery theorem relies on |
| Client.EveryConversationAccounted | src/delivery/client.rs:160-267 | against any server whatever: a conversation that ends well lists every recipient once in order, successes are exactly those with positive RCPT and message replies, failures are permanent exactly when their error is, and DATA was sent exactly when some recipient was accepted |
| ClientHistory.EveryLineIsDue | src/delivery/client.rs:160-435 | against any server whatever, every line written is the one due after the replies so far: EHLO after a positive greeting, HELO if and only if the answer to EHLO was read and is not 2xx, MAIL if and only if one of them was answered 2xx, one RCPT each, DATA if and only if some recipient was, the text if and only if 354 came, QUIT at the end; and the result is the error of the reply that stopped it, or each recipient with its own fate |
| SmtpClient.TryDeliver | src/delivery/client.rs:160-267 | the imperative client has the result and leaves the connection of the specified conversation |
| SmtpClient.DeliverAfterMail | src/delivery/client.rs:199-266 | recipients, message and QUIT have the specified result, marking recipients failed in place when the message is refused |
| SmtpClient.AskRecipients | src/delivery/client.rs:199-230 | one RCPT per recipient in order, a result recorded for each, and whether any was accepted |
| SmtpClient.MarkFailed | src/delivery/client.rs:240-262 | rewriting the results in place gives every accepted recipient, and no other, the message's failure |
| SmtpClient.Stuff | src/delivery/client.rs:364-404 | the one pass over the body produces the specified stuffed text |
| SmtpClient.ReadResponse | src/delivery/client.rs:478-545 | the byte-by-byte loop reads what the recursive reader reads and consumes the same bytes; the end of the stream is an I/O error, silence a timeout |
| DotStuffing.DotStuffingRoundTrip | src/smtp/session.rs:255-285 | for every body: fed line by line, every line but the last continues and exactly the last ends the message with the normalised body, or, if that does not fit, the message is refused before its end |
| DotStuffing.StuffedLine | src/delivery/client.rs:385-396 | a stuffed line is never the final dot, and unstuffing it restores the line |
| DotStuffing.UnstuffIs | src/smtp/session.rs:264-270 | of two leading dots one is dropped, a single one stays |
| DotStuffing.BodyLinesOf | src/delivery/client.rs:364-404 | the bytes sent break into exactly one line per body line and the final dot |
| DotStuffing.NormalForm | src/smtp/session.rs:257-275 | a body arrives unchanged if and only if it is in CRLF form; what arrives is in that form and survives a second transfer unchanged |
| DotStuffing.BlankLinesDouble | src/delivery/client.rs:385-402 | a body of bare line feeds arrives twice as long as it was declared |
| DotStuffing.BodyUtf8 | src/delivery/client.rs:364-404 | the lines sent are UTF-8 if and only if the body is, and otherwise exactly as far as the body's own lines are |
| TextTransfer.TextFits | src/smtp/session.rs:255-285 | the text lines of a message that fits lead the handler to one 250 and one spooled message, none if the body is empty |
| TextTransfer.QuitNeverPanics | src/delivery/client.rs:429-435 | reading the reply to QUIT never fails on a short line, whatever is still unread |
| TextTransfer.SentInAllIs | src/smtp/server.rs:91-143 | whatever the client writes, it has been sent the greeting and the visible answers in order and nothing else |
| Reply.RepliesRoundTrip | src/smtp/response.rs:36-44 | any run of replies with three-digit codes and lines free of CRLF is read back reply by reply, with nothing left over or taken from what follows |
| Reply.ReadWritten | src/delivery/client.rs:478-545 | one reply is read back off the front of any stream, consuming exactly its bytes |
| Reply.CodeSurvivesIff | src/delivery/client.rs:507-530 | a one-line reply is read back as it was if and only if its code has three digits |
| Reply.ReadPanicsIff | src/delivery/client.rs:515-538 | the reader slices out of range if and only if the first line that is no continuation is shorter than three bytes or has a character across its third and fourth, every line before it having passed its code check |
| Reply.ShortLinesPanic | src/delivery/client.rs:515-538 | a line of two digits makes it do so, and so does one with an accented letter in the third place |
| Decoding.DecodedFirst | src/delivery/client.rs:508-541 | decoding each line when it is complete gives the same reply or error, and leaves the same for later, as reading bytes decoded beforehand |
| Decoding.BytesPanicIff | src/delivery/client.rs:510-538 | whatever bytes arrive, the panic condition holds of the lines as decoded, and of nothing else |
| Decoding.StrayBytePanics | src/delivery/client.rs:510-518 | two digits and one byte that is not UTF-8 make the reader panic |
| Utf8.LossyKeepsIff | src/delivery/client.rs:512-513 | decoding leaves a string alone if and only if it is UTF-8, and never shortens it |
| Utf8Laws.IsUtf8Iff | src/delivery/client.rs:512 | what decoding leaves alone is exactly the encodings of sequences of characters |
| Utf8Laws.ReplacedIs | src/delivery/client.rs:512 | elsewhere one replacement stands for the longest run of bytes that begins some character, or for one byte |
| Reply.Serialize | src/smtp/response.rs:36-44 | the loop writes the specified wire form |
| Reply.ReadLineAlone | src/delivery/client.rs:515-538 | a complete line with a code and no dash is a whole reply, whatever follows the code |
| Reply.BareCode | src/delivery/client.rs:535-537 | a bare 250 is a reply with one empty line |
| Reply.NoCode | src/delivery/client.rs:515-524 | a line without a code is reported as it is |
| Phrases.RenderEncodable | src/smtp/response.rs:49-145 | every reply the server can word fits the wire format if its host name and the quoted input have no line feed |
| Phrases.EhloOffers | src/smtp/response.rs:69-82 | the EHLO reply offers pipelining, the size limit, eight-bit text, enhanced codes and help |
| Phrases.NamesItself | src/smtp/response.rs:49-57 | the greeting is a 220 and the farewell a 221 with the name of the host |
| Politeness.EveryTranscriptReads | src/smtp/server.rs:84-143 | whatever bytes a client sends, reading the server's output yields its replies one by one and never an error; lines after the first that is not UTF-8 are not looked at |
| Politeness.ServerIsPolite | src/smtp/session.rs:114-285 | every step of a deployed server keeps its session clean and words its reply readably |
| Politeness.WordingIsWorded | src/smtp/response.rs:16-34 | every reply has at least one line, as the handler and the wire format need |
| Server.HandleConnection | src/smtp/server.rs:91-143 | for every pattern of buffer observations, what is written followed by what is held back is the transcript of answering line by line; nothing is held back when receiving text, when closing, or when the buffer was seen empty; and then exactly all is flushed but a last reply to message text; lines after the first that is not UTF-8 are not taken |
| Server.HandleLine | src/smtp/server.rs:115-135 | one command line: its reply joins those held back, all are written in order exactly when flushing is due |
| Server.HandleText | src/smtp/server.rs:97-113 | one text line: the session, the spooled message and the reply written at once are those of the specification |
| Server.ClosedStays | src/smtp/server.rs:132-135 | nothing after QUIT is looked at |
| Session.SmtpSession.Process | src/smtp/session.rs:114-124 | the object's new state and reply are those of the specified command handling, parse errors included |
| Session.SmtpSession.Handle | src/smtp/session.rs:126-145 | each command changes the object as specified |
| Session.SmtpSession.AcceptSender | src/smtp/session.rs:161-188 | MAIL: refused out of sequence or when some SIZE parameter exceeds the limit, else recorded |
| Session.SmtpSession.AcceptRecipient | src/smtp/session.rs:190-209 | RCPT: refused out of sequence or beyond the limit, else appended |
| Session.SmtpSession.BeginData | src/smtp/session.rs:211-231 | DATA: a fresh queue id and an empty buffer after a recipient, else refused |
| Session.SmtpSession.Feed | src/smtp/session.rs:255-285 | a text line ends the message, overflows it with a reset, or extends the buffer |
| Session.SmtpSession.TakeData | src/smtp/session.rs:98-104 | the buffer is handed out and emptied, and an empty buffer yields nothing |
| SessionRules.EveryReplyDue | src/smtp/session.rs:112-285 | in every run the state, envelope and buffer are those the history shows, and every line draws the reply due after it: MAIL is accepted if and only if a greeting came, no MAIL is open and no excessive size is declared; RCPT if and only if a MAIL is open and the limit is not reached; DATA if and only if a RCPT followed; text lines if and only if a 354 is open; RSET never undoes a greeting |
| SessionHistory.EveryRunExplained | src/smtp/session.rs:147-285 | over every run the envelope holds, in order, exactly the sender and recipients the history shows as accepted since the last reset, the buffer is the text since the 354, and limits are never exceeded |
| SessionHistory.DataIsEarned | src/smtp/session.rs:211-231 | every 354 follows an accepted MAIL and then an accepted RCPT, neither undone by a reset or an earlier end of data |
| SessionHistory.SpooledIsCollected | src/smtp/server.rs:97-108 | what is spooled at an end of data is the unstuffed text since the 354 for the accepted recipients, and nothing exactly when no line came between |
| SessionHistory.OwnRecipientsIff | src/smtp/session.rs:258-263 | the recipients of a transaction are its own if and only if none were on record when its MAIL was accepted |
| SecondMessage.RecipientsLinger | src/smtp/session.rs:258-263 | for all valid addresses: after a first message, a second transaction naming one other recipient has both on its envelope |
| Command.ValidateAddressIff | src/smtp/command.rs:201-251 | an address is accepted if and only if it is empty or a local part of 1 to 64 bytes, an at sign, and a bracketed literal or dot-separated valid labels, 255 bytes at most |
| Command.ParsePrint | src/smtp/command.rs:63-120 | every canonical command is parsed back from its print |
| Command.ParserRange | src/smtp/command.rs:63-183 | the commands the parser can produce are exactly the canonical ones |
| Command.ParseIgnoresPadding | src/smtp/command.rs:63-66 | surrounding white space never changes what a line means |
| CommandLaws.PartsMean | src/smtp/command.rs:63-183 | a line is parsed to what its first word and the rest spell: verbs and FROM: and TO: in any letter case, the path in brackets, the parameters after it, and each mistake as what it is |
| CommandLaws.EveryLineMeans | src/smtp/command.rs:63-120 | every line that is not blank has such parts |
| Text.CasesAre | src/smtp/command.rs:75 | letter case concerns the 26 letters of ASCII |
| Text.SpacesAre | src/smtp/command.rs:64 | white space is the space and the control characters from tab to carriage return |
| CommandLaws.AddressFaultIs | src/smtp/command.rs:201-235 | which complaint an address draws, by the part before or after its last at sign |
| CommandLaws.LabelFaultIs | src/smtp/command.rs:224-251 | the complaint about a domain is the one about its first bad label |
| CommandLaws.LabelIs | src/smtp/command.rs:224-247 | a label is valid if and only if it has 1 to 63 letters, digits and hyphens and a hyphen at neither end |
| MxResolve.ResolveMail | src/delivery/mx_resolve.rs:78-112 | the object code of resolution computes the specified destinations or failure |
| MxResolve.ResolvedByPreference | src/delivery/mx_resolve.rs:78-142 | destinations ascend by preference, keep the records' order among equals, and are exactly those of the records with an address |
| MxResolve.ResolveFailsIff | src/delivery/mx_resolve.rs:78-178 | resolution fails if and only if the exchangers, or without any the domain itself, have no address at all |
| MxLaws.ResolutionIs | src/delivery/mx_resolve.rs:78-180 | from the answers alone: resolution fails if and only if no exchanger, or without any the domain itself, has an AAAA or A address; otherwise each exchanger that has one gives a destination, by preference and then in order, named in lower case without final dots |
| MxLaws.LookedUpIff | src/delivery/mx_resolve.rs:112-135 | an address belongs to a destination if and only if the AAAA or the A answer contains it; all AAAA addresses come first |
| Sorting.StableSortUnique | src/delivery/mx_resolve.rs:88-92 | two sorted sequences that agree key by key are equal, so a stable sort is determined by its promise |
| Sorting.StableSortIsStable | src/delivery/mx_resolve.rs:88-92 | the sort used is one |
| Fallback.SelectDestination | src/delivery/mx_resolve.rs:180-193 | the first destination with an address not yet attempted, none if and only if there is none |
| Fallback.Deliver | src/delivery/client.rs:115-157 | the loop ends having tried, in increasing order and each once, exactly the destinations that offer an address of their own, up to the first conclusive attempt |
| Fallback.EveryAddressAttempted | src/delivery/client.rs:136-150 | on total failure every address of every destination was part of an attempt at that destination or an earlier one |
| Fallback.SuccessIsLast | src/delivery/client.rs:115-150 | destinations are tried in order, none twice; every attempt but the last failed, and a success is the last |
| Fallback.ExhaustedIff | src/delivery/client.rs:153-156 | no attempt is made, and exhaustion reported, if and only if no destination has an address; otherwise the last attempt's error is reported |
| Fallback.ResolvedIsAttempted | src/delivery/mx_resolve.rs:78-112 | a domain that resolves leads to an attempt, the first at its first destination |
| Fallback.Connect | src/delivery/client.rs:167-171 | addresses are tried in order until one answers; failure if and only if none does |
| Fallback.DeliveredByOne | src/delivery/client.rs:115-171 | a delivery that succeeds has the results of one conversation, all recipients accounted for, with the first peer that answers at the destination tried last |
| Fallback.NobodyAnswers | src/delivery/client.rs:136-157 | if nobody answers anywhere, the error names the addresses tried last |
| Retry.RecurrenceIff | src/queue/retry.rs:49-61 | the capped power equals the stepwise capped recurrence at every attempt if and only if the multiplier is at least one or zero, or the first delay is within the cap, or the cap is zero |
| Retry.WaitAfter | src/queue/retry.rs:49-61 | no wait after the first failure, the initial delay after the second, multiplied once more by each further one, and never more than the cap |
| Retry.DelaysGrow | src/queue/retry.rs:49-61 | with a multiplier of at least one, delays never shrink and stay at the cap once there |
| Retry.TotalWaitBounded | src/queue/retry.rs:49-66 | all waits of a message together are at most its attempts less two times the cap |
| Queues.DestinationQueue.Start | src/queue/manager.rs:73-89 | the first ready message of least priority value leaves the queue and takes a slot; nothing if and only if none is ready |
| Queues.DestinationQueue.Add | src/queue/manager.rs:62-69 | a new message goes to the end |
| Queues.DestinationQueue.Succeeded | src/queue/manager.rs:92-96 | a slot is released |
| Queues.DestinationQueue.Failed | src/queue/manager.rs:99-124 | a slot is released and the message is back with its delay, or dropped at the limit |
| Queues.FailureIs | src/queue/manager.rs:102-125 | a failed message goes to the end of the queue if and only if one more attempt is left, with its id and priority, one attempt older, due after its delay |
| Queues.BestIsUnique | src/queue/manager.rs:76-84 | the choice of the next message is determined |
| Queues.DrainIsStableSort | src/queue/manager.rs:73-89 | with all messages ready, deliveries start in exactly the stable order by priority |
| Scheduler.EveryRunBalanced | src/queue/manager.rs:52-125 | over every run, each id enqueued is waiting, outstanding, delivered or given up, as often as it was enqueued; slots in use are the outstanding picks and within the limit |
| Scheduler.StartsBounded | src/queue/manager.rs:73-124 | in every run no message is started more often than the schedule allows |
| Scheduler.RetriesSpaced | src/queue/manager.rs:103-122 | after every run from an empty queue, a message that failed is not started before its delay after that failure has passed |
| Scheduler.LeavesIff | src/queue/manager.rs:102-125 | after every run a failure takes a message out if and only if it was started exactly as often as the schedule allows, at least once; otherwise it waits its delay again |
| Scheduler.NothingToStartIff | src/queue/manager.rs:73-93 | after every run nothing can be started if and only if every waiting message has failed and its delay has not passed |
| Scheduler.PrioritiesKept | src/queue/manager.rs:62-125 | wherever a message is after a run, it has the priority it arrived with |
| Scheduler.StepUsesWork | src/queue/manager.rs:73-124 | every step but an arrival strictly decreases the work left |
| Scheduler.RunsEnd | src/queue/manager.rs:73-124 | after every run from an empty queue, no continuation without arrivals is longer than the work left then |
| QueueManager.QueueManager.EnqueueToDomain | src/queue/manager.rs:192-199 | the message joins its destination's queue, made with the default limit if new, and no other queue changes |
| QueueManager.QueueManager.Enqueue | src/queue/manager.rs:174-189 | the spooled envelope decides destination and priority; an unreadable one is an error and one without recipients changes nothing |
| QueueManager.DestinationIs | src/queue/manager.rs:159-173 | the destination is the domain of the first recipient, in lower case |
| QueueManager.QueueManager.NextForDelivery | src/queue/manager.rs:203-214 | in whatever order destinations are asked, one with a free slot starts its best message and the others are untouched; nothing only if none can start |
| QueueManager.QueueManager.OnDeliverySuccess | src/queue/manager.rs:217-228 | the message leaves the spool and its destination's slot is released |
| QueueManager.QueueManager.OnDeliveryFailure | src/queue/manager.rs:231-248 | the destination handles the failure of a message rebuilt with attempt 0 and priority 1 |
| QueueManager.EveryFleetBalanced | src/queue/manager.rs:192-248 | over every run of events over all destinations each stays balanced |
| QueueManager.Play | src/queue/manager.rs:192-248 | over any sequence of calls on a new manager object, its queues are those of a ledger of the events they came to, in which every destination is balanced |
| QueueManager.PlayOne | src/queue/manager.rs:192-248 | one call on the object is one event of the ledger, or none |
| QueueManager.LedgerFollows | src/queue/manager.rs:192-248 | an event of the ledger does to its queues what the operations do |
| QueueManager.GivenUpOverRun | src/queue/manager.rs:231-248 | over every run, what a destination gives up is every failed delivery if the schedule allows at most one attempt, and nothing otherwise |
| QueueManager.ManagerGivesUpIff | src/queue/manager.rs:231-248 | a message alone in its queue, however often its delivery fails, is dropped if and only if the schedule allows at most one attempt, and otherwise is back at once on its first retry |
| Message.PrintedParses | src/message/parser.rs:171-179 | printing any message with proper headers parses to the same body and headers, values trimmed, or else exactly to the complaints about its overlong lines |
| Message.ParsePrintParse | src/message/parser.rs:53-141 | parse, print, parse: accepted if and only if no printed line is too long, with the same body and headers up to outer white space, and a fixed point from then on |
| Message.FoldedDoesNotReprint | src/message/parser.rs:171-179 | a message whose subject is folded after 600 characters, with 600 more to follow, is accepted, and its printed form is refused |
| Message.SplitsAfterHeaders | src/message/parser.rs:57-65 | the first blank line of a printed message is the one after its headers, whatever the body |
| Message.ReadMessage | src/message/parser.rs:53-99 | the object built, or all complaints in order, are those of the specified parser |
| Message.ParseHeaders | src/message/parser.rs:103-141 | the loop over physical lines yields the specified headers and complaints |
| MessageLaws.FieldsRead | src/message/parser.rs:103-141 | headers folded at spaces or tabs are read with each fold as one space |
| MessageLaws.ComplaintsAre | src/message/parser.rs:103-141 | each faulty line draws one complaint, which says what is wrong with it, and no other line draws any |
| MessageLaws.LongLinesAre | src/message/parser.rs:71-79 | a line over 998 bytes draws a complaint with its number, counted from one, and its length |
| MessageLaws.ParseIs | src/message/parser.rs:53-100 | a message is accepted if and only if no line is faulty or over 998 bytes and From and Date are there; otherwise the complaints come in that order |
| MessageLaws.SplitIs | src/message/parser.rs:58-64 | the text is cut at the first empty line between CRLFs, or else between line feeds, or else is all header |
| Message.ParsedMessage.EnsureMessageId | src/message/parser.rs:152-157 | a message id is appended exactly if there was none in any case of letters |
| Message.FirstValueIs | src/message/parser.rs:144-149 | a header is looked up by name in any letter case, and the first of the name counts |
| Message.ParsedMessage.PrependReceived | src/message/parser.rs:160-168 | the trace header comes first, all else unchanged |
| Message.ReceivedIs | src/message/parser.rs:160-168 | the value of the trace is what follows the name, or the line as it is |
| Message.ParsedMessage.Serialize | src/message/parser.rs:171-179 | the loop writes the specified bytes |
| Intake.SpoolMessage | src/smtp/server.rs:149-179 | a collected message is parsed, decorated and stored, or stored raw if it does not parse; the disk after any number of successful system calls |
| Intake.DecorationKeepsMessage | src/smtp/server.rs:149-168 | the spooled text of a message that parses reads back with its body and all its headers, unless the decoration makes a line too long |
| Intake.DecorationOrder | src/smtp/server.rs:158-160 | the trace comes first and the original headers follow in order |
| Intake.DecorationHasId | src/smtp/server.rs:158-159 | a message id is present afterwards; if there was none it is the last header and has the given value |
| Intake.TraceReads | src/message/envelope.rs:82-100 | the words of the trace: name and address of the client, this host, the queue id and the date |
| Intake.RawOtherwise | src/smtp/server.rs:163-170 | a text that does not parse is stored as it came |
| Intake.CollectedIsReadBack | src/smtp/server.rs:149-175 | a message handed over is read back with its envelope and final text if its store completes; every other id, and on failure its own, reads as before |
| Intake.AcknowledgedAnyway | src/smtp/server.rs:101-109 | an end of data that hands a message over draws the same 250 whatever the disk does, and the message can be read back if and only if all system calls of its store succeed |
| Intake.LostByFailure | src/smtp/server.rs:172-178 | with a disk that fails at once it is acknowledged and not to be found |
| Spool.CutIff | src/spool/disk.rs:119-134 | both parts come back if and only if the separator does not begin inside the head, however often the tail contains it |
| Spool.CutIs | src/spool/disk.rs:119-134 | a file is cut at its first separator, and has no parts if and only if it has none |
| Spool.UnreadableIs | src/spool/disk.rs:112-134 | a file without a separator is told from one whose envelope cannot be read |
| Spool.FileRoundTrip | src/spool/disk.rs:40-66 | a file built by store is parsed to the same envelope and message |
| Spool.CrashSafe | src/spool/disk.rs:72-83 | for every interleaving of writers with distinct ids, every failure and a crash at any moment, each spooled file is its old content or a whole new one |
| Spool.CrashReads | src/spool/disk.rs:112-134 | what is read after a crash is the envelope and message of some store of that id or what was there before |
| Spool.SharedIdTears | src/spool/disk.rs:58-60 | two stores under one id have an interleaving that leaves an incomplete file |
| Spool.NeverTornIff | src/spool/disk.rs:72-83 | no interleaving tears a file if and only if the ids are distinct |
| Spool.ListingIff | src/spool/disk.rs:86-97 | the listing names exactly the spooled ids if and only if none of them ends in the extension |
| Spool.ExtendedIdMisread | src/spool/disk.rs:86-97 | a message stored under an id with the extension is listed under one that cannot be read |
| Spool.DiskSpool.Store | src/spool/disk.rs:40-83 | the disk after any number of successful system calls |
| Spool.StoreIsSteps | src/spool/disk.rs:72-83 | what a store leaves is the disk its system calls lead to, so the crash theorems speak of it |
| Spool.DiskSpool.ListQueue | src/spool/disk.rs:86-97 | the set of names listed, in whatever order the directory is read |
| Spool.StoreThenRead | src/spool/disk.rs:40-134 | a completed store is read back whole, and every other message, or on failure all, reads as before |
| Spool.CompletedIs | src/spool/disk.rs:68-83 | a completed store leaves its file whole and synced, no temporary file, and every other file as it was |
| Spool.RemoveThenRead | src/spool/disk.rs:137-141 | a removed message is not found, all others read as before |
| Dns.LookupIff | src/dns/cache.rs:82-187 | a lookup returns records if and only if the latest change about that name, in any case, and type inserted them and they have not expired; likewise failures; never both |
| Dns.DnsCache.Insert | src/dns/cache.rs:82-142 | an entry with its capped lifetime replaces whatever the key had |
| Dns.DnsCache.InsertNegative | src/dns/cache.rs:155-168 | a failure replaces whatever the key had |
| Dns.RealResolver.Resolve | src/dns/resolver.rs:334-432 | the cache is asked first, then the name servers, whose answer or failure, by kind, is kept if it may be |
| Dns.EveryAnswerJustified | src/dns/resolver.rs:334-432 | in every run, however the cache accesses of different questions interleave, each answer is what the name servers said at that moment or at an earlier one whose capped lifetime has not passed: the same records, or the same kind of failure |
| Dns.AskIsJustified | src/dns/resolver.rs:334-415 | one question keeps every cache entry traceable to a reply |
| Dns.AskIsSteps | src/dns/resolver.rs:334-415 | a question with no other in between is a run of such steps, to the same cache and answer |
| Dns.Remembered | src/dns/resolver.rs:334-360 | records, and the failure that there are none, answer the same question when it is put again before they expire and no other reply has come, whatever happens in between |
| Dns.Forgotten | src/dns/resolver.rs:419-433 | every other failure leaves the cache as it was, and each is reported by its kind |
| Dns.ResolveChain | src/dns/resolver.rs:174-203 | a chain resolves if and only if it ends within the depth limit, and to the only name it can end in |
| Dns.LoopNeverEnds | src/dns/resolver.rs:186-191 | a chain that returns to a name has no end, so stopping there loses nothing |
| Cidr.AndHighMask | src/auth/spf.rs:321-327 | masking with the high bits is dropping the low ones |
| Cidr.Cidr4IsPrefix | src/auth/spf.rs:318-327 | the IPv4 test compares exactly the leading bits, and overflows if and only if the length exceeds 32 |
| Cidr.IpInCidr6 | src/auth/spf.rs:330-353 | the segment loop and partial mask compare exactly the leading bits of the 128-bit addresses; the index fails if and only if the length is 144 or more and the addresses are equal |
| Cidr.PrefixShorter | src/auth/spf.rs:318-353 | a match at one length implies a match at every shorter one |
| Dkim.CanonicalizeBody | src/auth/dkim.rs:343-392 | the loops compute the specified canonical body |
| DkimLaws.SimpleBodyIs | src/auth/dkim.rs:345-355 | the simple form is the body, with CRLF behind it if and only if it did not end so |
| DkimLaws.RelaxedBodyIs | src/auth/dkim.rs:356-390 | the relaxed form writes each line up to the last that is not blank, without white space at its end and with CRLF; if none is left it is CRLF |
| Dkim.CanonicalBodyIdempotent | src/auth/dkim.rs:343-392 | canonicalizing a body twice is canonicalizing it once |
| Dkim.RelaxedSameIff | src/auth/dkim.rs:356-390 | two bodies have the same relaxed form if and only if their lines agree without white space at their ends and blank lines at the end |
| Dkim.EndingsIgnored | src/auth/dkim.rs:356-390 | the relaxed form does not depend on LF or CRLF or white space before them |
| Dkim.SpaceAtEndIgnored | src/auth/dkim.rs:366-375 | white space behind a body does not change its relaxed form |
| Dkim.CanonicalValueIdempotent | src/auth/dkim.rs:442-461 | the relaxed form of a header value consists of its words and is its own relaxed form |
| Dkim.CanonicalValueIff | src/auth/dkim.rs:442-461 | two values have the same relaxed form if and only if, unfolded, they have the same words |
| Dkim.FoldingIgnored | src/auth/dkim.rs:452-457 | folding a value at any place does not change its relaxed form |
| Dkim.BuildHashInput | src/auth/dkim.rs:402-439 | grouping by name and taking last values gives the specified hash input |
| DkimLaws.HashInputIs | src/auth/dkim.rs:402-461 | the input is, in the order of the signed names, one line ended by CRLF for each that is present: the name in lower case, a colon, and its last value, as it is or as its words |
| DkimLaws.HashInputLines | src/auth/dkim.rs:402-461 | when nothing spans lines, those are its lines |
| Dkim.HeaderIrrelevant | src/auth/dkim.rs:402-439 | a header that is not signed, or that another of its name follows, may come or go anywhere without changing the hash input |
| Dkim.FoldSignature | src/auth/dkim.rs:464-484 | the loop computes the specified folding |
| Dkim.FoldRoundTrip | src/auth/dkim.rs:464-484 | removing the folds restores every signature without carriage returns |
| Dkim.PiecesAre | src/auth/dkim.rs:465-482 | the pieces between folds make up the signature and are 76 characters long, the last at most |
| Dkim.FoldedWithinIff | src/auth/dkim.rs:464-484 | every line of the output, leading space included, is within 76 characters if and only if the signature has at most 151 |
| Dkim.FoldedTooLong | src/auth/dkim.rs:464-484 | at 152 characters the second line has 77 |

## Left out

- Sockets, async polling, locks and TLS: a peer says something, and may hang up, after each write; a peer that does neither lets the client time out; writing never fails; and steps of one object happen one after another.
- ESMTP capabilities: parsed by the client from the EHLO reply and used for nothing on the modelled path.
- HTTP API, CLI, configuration files, logging and display of errors; connection failures carry a reason but not the operating system's text.
- RSA and Ed25519 signing, SHA-256, Base64, UUIDs, date formatting and JSON: queue ids, message ids and dates are parameters, and the envelope codec is assumed faithful and free of raw line feeds.
- The receipt time of an envelope: it appears only, already formatted, in the trace header.
- Text outside ASCII: white space and letter case are those of ASCII.
- DeliveryTheorems.EndToEndDelivery: of a message that outgrows the limit only the client's side is given (`EndToEnd.TextBecomesCommands` says what the server does next), and if such a message breaks off at a line that is not UTF-8, only that the client does not time out.
- Peer.Machine: held-back replies that a handler loses when it gives up reading in mid-write, because this client never sends commands and message text in one write.
- Message.ReadMessage: input that is not UTF-8 is not decoded first; what a session has collected always is UTF-8.
- Dkim.FoldSignature: signatures are Base64, so that no cut falls inside a character.
- Bytes flushed beyond the guaranteed point: a buffered writer may flush earlier than `Server.BufWriter` says, when its buffer is full.
- QueueManager.Play: its workers finish only deliveries that are underway, as the source asks of its callers.
- Floating point in the retry schedule: delays and times are reals, and neither overflows.
- Integer widths: attempts, priorities, slots and sizes do not wrap around; only the declared SIZE and reply codes have their ranges.
- Cidr.Cidr4IsPrefix: an overflow in the subtraction is a failure, as in builds with overflow checks; the wrapped result of a build without them is not modelled.
- SPF record parsing and evaluation, DMARC, and the placeholder verification functions.
- Dkim.CanonicalizeBody: full conformance to section 3.4 of RFC 6376 is not claimed, because the source does not compress white space inside lines; and a body that is not UTF-8 is not decoded first.
- Spool.DiskSpool.Store: queue ids that are not plain file names, and handles that stay open across a rename by another writer of the same id, are not modelled.
- QueueManager.QueueManager.OnDeliveryFailure: says nothing about the spool, because the source leaves a given-up message there.
- Dns.RealResolver.Resolve: failures are told apart by kind, without the names and messages they carry.
- The mock resolver's programmed answers other than its chain of canonical names.
