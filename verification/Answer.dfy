/** The replies the server gives, by meaning, with their codes. */
module Answer {
  import opened Text
  import opened Reply
  import C = Command

  datatype Config = Config(hostname: string, maxMessageSize: nat, maxRecipients: nat)

  datatype Misplaced = MailBeforeHello | RcptBeforeMail | DataBeforeRcpt | DataBeforeMail

  datatype Answer =
    | Welcome
    | Goodbye
    | Accepted
    | Queued(id: string)
    | EhloAccepted(client: string)
    | HeloAccepted(client: string)
    | StartMail
    | NoCommand
    | Unrecognized(verb: string)
    | BadSyntax(fault: C.SyntaxFault)
    | BadSequence(what: Misplaced)
    | TooLarge
    | TooManyRecipients
    | BadAddress(problem: C.AddressFault)
    | HelpText
    | CannotVerify

  function Code(a: Answer): nat {
    match a
    case Welcome => 220
    case Goodbye => 221
    case Accepted => 250
    case Queued(_) => 250
    case EhloAccepted(_) => 250
    case HeloAccepted(_) => 250
    case StartMail => 354
    case NoCommand => 500
    case Unrecognized(_) => 500
    case BadSyntax(_) => 501
    case BadSequence(_) => 503
    case TooLarge => 552
    case TooManyRecipients => 452
    case BadAddress(_) => 553
    case HelpText => 214
    case CannotVerify => 252
  }

  // ---------------------------------------------------------------- answers on the wire

  /** How answers are put into words; module Phrases has the server's own way. */
  type Wording = Answer -> Response

  function Wire(render: Wording, answers: seq<Answer>): string {
    if answers == [] then ""
    else WireLines(render(answers[0]).code, render(answers[0]).messages) + Wire(render, answers[1..])
  }

  lemma {:induction false} WireAppend(render: Wording, a: seq<Answer>, b: seq<Answer>)
    ensures Wire(render, a + b) == Wire(render, a) + Wire(render, b)
  {
    if a == [] {
      assert a + b == b;
    } else {
      assert (a + b)[1..] == a[1..] + b;
      WireAppend(render, a[1..], b);
    }
  }

  lemma WireOne(render: Wording, a: Answer)
    requires render(a).messages != []
    ensures Wire(render, [a]) == ToWire(render(a))
  {
    assert [a][1..] == [];
  }
}
