/** What the client reports as delivered, against what the server has taken and what is on its disk. */
module Reports {
  import opened Text
  import opened Utf8
  import opened Answer
  import opened Session
  import opened Politeness
  import opened DotStuffing
  import opened Client
  import opened Peer
  import opened EndToEnd
  import opened DeliveryTheorems
  import opened Spool
  import opened Intake
  import C = Command

  function Succeeded(results: Results): seq<string> {
    if results == [] then []
    else
      var n := |results| - 1;
      Succeeded(results[..n]) + if results[n].1.Success? then [results[n].0] else []
  }

  lemma {:induction false} OutcomeSucceeds(cfg: Config, render: Wording, recipients: seq<string>, body: string, i: nat)
    requires i < |recipients| && |Normal(body)| <= cfg.maxMessageSize
    ensures RecipientOutcome(cfg, render, recipients, body, i).Success?
            <==> RcptAnswer(cfg, AcceptedOf(cfg, recipients, i), recipients[i]) == Accepted
  {
  }

  lemma {:induction false} SucceededNext(results: Results)
    requires results != []
    ensures var n := |results| - 1;
            Succeeded(results) == Succeeded(results[..n]) + if results[n].1.Success? then [results[n].0] else []
  {
  }

  lemma {:induction false} SucceededAre(cfg: Config, render: Wording, recipients: seq<string>, body: string, n: nat)
    requires n <= |recipients| && |Normal(body)| <= cfg.maxMessageSize
    ensures Succeeded(Outcomes(cfg, render, recipients, body)[..n]) == AcceptedOf(cfg, recipients, n)
  {
    if n > 0 {
      SucceededAre(cfg, render, recipients, body, n - 1);
      var all := Outcomes(cfg, render, recipients, body);
      assert all[..n][..n - 1] == all[..n - 1];
      SucceededNext(all[..n]);
      OutcomeSucceeds(cfg, render, recipients, body, n - 1);
    }
  }

  /** The recipients a delivery reports as reached. */
  function Reported(a: Attempt): seq<string> {
    if a.result.Ok? then Succeeded(a.result.value) else []
  }

  lemma {:induction false} OutcomeReports(cfg: Config, render: Wording, sender: string, recipients: seq<string>, body: string)
    requires MailAnswer(cfg, sender, |body|) == Accepted && |Normal(body)| <= cfg.maxMessageSize
    ensures var r := DeliveryOutcome(cfg, render, sender, recipients, body);
            r.Ok? && Succeeded(r.value) == AcceptedOf(cfg, recipients, |recipients|)
  {
    var all := Outcomes(cfg, render, recipients, body);
    SucceededAre(cfg, render, recipients, body, |recipients|);
    assert all[..|recipients|] == all;
  }

  lemma {:induction false} NobodySucceeds(cfg: Config, render: Wording, recipients: seq<string>, body: string, n: nat)
    requires n <= |recipients| && AcceptedOf(cfg, recipients, |recipients|) == []
    ensures Succeeded(Outcomes(cfg, render, recipients, body)[..n]) == []
  {
    if n > 0 {
      NobodySucceeds(cfg, render, recipients, body, n - 1);
      var all := Outcomes(cfg, render, recipients, body);
      assert all[..n][..n - 1] == all[..n - 1];
      SucceededNext(all[..n]);
      NoneAcceptedAt(cfg, recipients, |recipients|, n - 1);
    }
  }

  lemma {:induction false} NoneAcceptedAt(cfg: Config, recipients: seq<string>, n: nat, i: nat)
    requires i < n <= |recipients| && AcceptedOf(cfg, recipients, n) == []
    ensures RcptAnswer(cfg, AcceptedOf(cfg, recipients, i), recipients[i]) != Accepted
  {
    if i < n - 1 { NoneAcceptedAt(cfg, recipients, n - 1, i); }
  }

  /** Where replies are flushed: the recipients the client reports as reached are those the server
      accepted for a message it takes, and nobody otherwise; and what the server hands to its spool
      is that message, for those recipients, unless its body is empty. */
  lemma {:induction false} ReportsMatchSpool(c: Connection, host: string, sender: string, recipients: seq<string>, body: string)
    requires Deployed(c) && Addressed(host, sender, recipients, body) && !Overruns(c.cfg, recipients, body)
    ensures var m := MachineOf(c, true);
            var a := Converse(m.server, host, sender, recipients, body);
            if Takes(c.cfg, sender, recipients, body) then
              && Reported(a) == AcceptedOf(c.cfg, recipients, |recipients|) != []
              && TakenAs(c.cfg, sender, recipients, body, ServerRun(m, a).spooled)
            else Reported(a) == [] && ServerRun(m, a).spooled == []
  {
    var m := MachineOf(c, true);
    var a := Converse(m.server, host, sender, recipients, body);
    var lines, run := EndToEndDelivery(c, true, host, sender, recipients, body);
    DeliveredRun(m, c, host, sender, recipients, body, a, lines, run);
    TakesIff(m, c, sender, recipients, body);
    if Takes(c.cfg, sender, recipients, body) {
      OutcomeReports(c.cfg, m.render, sender, recipients, body);
    } else {
      NotTaken(m, c, host, sender, recipients, body, a, lines, run);
    }
  }

  lemma NotTaken(m: Machine, c: Connection, host: string, sender: string, recipients: seq<string>, body: string, a: Attempt,
                 lines: seq<string>, run: Run)
    requires Delivered(m, c, host, sender, recipients, body, a, lines, run) && m.flushesText
    requires !Overruns(c.cfg, recipients, body) && !Takes(c.cfg, sender, recipients, body)
    ensures Reported(a) == [] && run.spooled == []
  {
    TakesIff(m, c, sender, recipients, body);
    OutcomeIs(c.cfg, m.render, sender, recipients, body);
    if MailAnswer(c.cfg, sender, |body|) == Accepted && !BreaksOff(c.cfg, recipients, body) {
      if IsUtf8(body) { LegibleText(body); }
      assert AcceptedOf(c.cfg, recipients, |recipients|) == [];
      NobodySucceeds(c.cfg, m.render, recipients, body, |recipients|);
      var all := Outcomes(c.cfg, m.render, recipients, body);
      assert all[..|recipients|] == all;
    }
  }

  // ---------------------------------------------------------------- and what is on the disk

  /** The disk when all that the server handed over has been stored, or has not. */
  function DiskAfterRun(codec: Codec, disk: Disk, spooled: seq<Spooled>, how: Storing): Disk {
    if spooled == [] then disk
    else
      var n := |spooled| - 1;
      DiskAfter(codec, DiskAfterRun(codec, disk, spooled[..n], how), spooled[n], how)
  }

  lemma {:induction false} OneStored(codec: Codec, disk: Disk, spooled: seq<Spooled>, how: Storing)
    requires codec.Faithful() && |spooled| == 1 && FinalPath(spooled[0].envelope.id) !in disk
    ensures var s := spooled[0];
            Spool.Read(codec, DiskAfterRun(codec, disk, spooled, how), s.envelope.id)
            == if how.Completes() then Ok((s.envelope, how.Final(s))) else Err(NotFound)
  {
    assert spooled[..0] == [];
    CollectedIsReadBack(codec, disk, spooled[0], how, spooled[0].envelope.id);
  }

  /** Reports and disk agree, a success being reported exactly when there is a message to be read under
      the id the server gave it, if and only if the body is not empty and the store completes, or
      the server does not take the message at all. */
  lemma {:induction false} ReportsMatchDisk(c: Connection, host: string, sender: string, recipients: seq<string>, body: string,
                         codec: Codec, disk: Disk, how: Storing)
    requires Deployed(c) && Addressed(host, sender, recipients, body) && !Overruns(c.cfg, recipients, body)
    requires codec.Faithful() && FinalPath(c.ids(2 + |recipients|)) !in disk
    ensures var m := MachineOf(c, true);
            var a := Converse(m.server, host, sender, recipients, body);
            var id := c.ids(2 + |recipients|);
            var read := Spool.Read(codec, DiskAfterRun(codec, disk, ServerRun(m, a).spooled, how), id);
            && (read.Ok? ==> read.value.0.recipients == Reported(a) && read.value.0.sender == sender
                             && read.value.1 == how.Final(Spooled(read.value.0, Normal(body))))
            && ((Reported(a) != [] <==> read.Ok?)
                <==> (body != "" && how.Completes()) || !Takes(c.cfg, sender, recipients, body))
  {
    var m := MachineOf(c, true);
    var a := Converse(m.server, host, sender, recipients, body);
    var lines, run := EndToEndDelivery(c, true, host, sender, recipients, body);
    DeliveredRun(m, c, host, sender, recipients, body, a, lines, run);
    ReportsMatchSpool(c, host, sender, recipients, body);
    if run.spooled != [] {
      SpooledId(m, c, host, sender, recipients, body, a, lines, run);
      OneStored(codec, disk, run.spooled, how);
    }
  }

  lemma SpooledId(m: Machine, c: Connection, host: string, sender: string, recipients: seq<string>, body: string, a: Attempt,
                  lines: seq<string>, run: Run)
    requires Delivered(m, c, host, sender, recipients, body, a, lines, run) && !Overruns(c.cfg, recipients, body)
    requires run.spooled != []
    ensures |run.spooled| == 1 && run.spooled[0].envelope.id == c.ids(2 + |recipients|)
  {
  }

  /** An empty body for one valid recipient is reported as delivered, and nothing is spooled. */
  lemma EmptyBodyIsLost(c: Connection, host: string, sender: string, recipient: string)
    requires Deployed(c) && Addressed(host, sender, [recipient], "") && C.ValidateAddress(sender).Ok?
    requires ValidRecipient(recipient) && c.cfg.maxRecipients > 0
    ensures var m := MachineOf(c, true);
            var a := Converse(m.server, host, sender, [recipient], "");
            a.result.Ok? && Succeeded(a.result.value) == [recipient] && ServerRun(m, a).spooled == []
  {
    EmptyIsTaken(c.cfg, sender, recipient);
    ReportsMatchSpool(c, host, sender, [recipient], "");
    OneRecipient(c.cfg, recipient);
  }

  lemma EmptyIsTaken(cfg: Config, sender: string, recipient: string)
    requires C.ValidateAddress(sender).Ok? && ValidRecipient(recipient) && cfg.maxRecipients > 0
    ensures Takes(cfg, sender, [recipient], "") && !Overruns(cfg, [recipient], "")
  {
    NormalForm("");
    LegibleText("");
    OneRecipient(cfg, recipient);
  }

  lemma {:induction false} OneRecipient(cfg: Config, recipient: string)
    requires ValidRecipient(recipient) && cfg.maxRecipients > 0
    ensures AcceptedOf(cfg, [recipient], 1) == [recipient] && SomeValid([recipient])
  {
    RcptAccepted(cfg, [], recipient);
    assert AcceptedOf(cfg, [recipient], 0) == [];
    assert ValidRecipient([recipient][0]);
  }
}
