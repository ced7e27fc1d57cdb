/** What a delivery attempt can report. */
module Delivery {
  import opened Text

  datatype SocketAddr = SocketAddr(ip: string, port: nat)

  datatype Stage = Connect | EhloStage | MailStage | RcptStage | DataStage | BodyStage

  datatype DeliveryError =
    | ResolutionFailed(domain: string, reason: string)
    | ConnectionFailed(attempted: seq<SocketAddr>, reason: string)
    | Rejected(code: nat, message: string, stage: Stage)
    | ProtocolError(received: string)
    | Timeout
    | IoError
    | Panicked                      // not an error the source returns: it panics
  {
    predicate IsPermanent() {
      match this
      case Rejected(code, _, _) => 500 <= code < 600
      case ProtocolError(_) => true
      case _ => false
    }
  }

  datatype RecipientResult =
    | Success
    | PermanentFailure(error: DeliveryError)
    | TransientFailure(error: DeliveryError)

  function Failure(e: DeliveryError): RecipientResult {
    if e.IsPermanent() then PermanentFailure(e) else TransientFailure(e)
  }

  datatype DeliveryResult = DeliveryResult(
    recipients: seq<(string, RecipientResult)>,
    connected: bool,
    mxServer: Option<string>)
}
