/**
 * The outbound mail gateway (`IEmailService`), reduced to what the auth
 * services can observe: a message is either recorded in the outbox or the
 * send fails with the EmailError of that kind of message.
 */
module Mail {
  import opened Wrappers
  import opened Errors

  /** The four messages of `IEmailService`, with the arguments the services pass. */
  datatype Email =
    | VerificationCode(token: string, code: string)
    | VerificationSuccess(to: string)
    | ForgotPasswordCode(token: string, code: string)
    | PasswordResetSuccess(to: string)

  /** The message of the EmailError each send method's final catch block throws. */
  function FailureMessage(m: Email): string
  {
    match m
    case VerificationCode(_, _) => "Terjadi kesalahan saat mengirim email"
    case VerificationSuccess(_) => "Terjadi kesalahan saat mengirim email konfirmasi"
    case ForgotPasswordCode(_, _) => "Terjadi kesalahan saat mengirim email"
    case PasswordResetSuccess(_) => "Terjadi kesalahan saat mengirim email konfirmasi reset password"
  }

  /** Sending `m` while the gateway is `up` (or not): the message is recorded exactly when the send succeeds. */
  function Deliver(outbox: seq<Email>, up: bool, m: Email): (r: (seq<Email>, Result<(), AppError>))
    ensures r.1.Ok? <==> up
    ensures r.1.Ok? ==> r.0 == outbox + [m]
    ensures r.1.Err? ==> r.0 == outbox && r.1.error.EmailError? && Status(r.1.error) == 500
  {
    if up then (outbox + [m], Ok(())) else (outbox, Err(EmailError(FailureMessage(m))))
  }

  /** The gateway: whether the mail provider accepts messages, and what it has accepted. */
  class Mailer {
    var available: bool
    var outbox: seq<Email>

    constructor (available: bool)
      ensures this.available == available && outbox == []
    {
      this.available := available;
      outbox := [];
    }

    method Send(m: Email) returns (r: Result<(), AppError>)
      modifies this
      ensures available == old(available)
      ensures (outbox, r) == Deliver(old(outbox), available, m)
    {
      if available {
        outbox := outbox + [m];
        r := Ok(());
      } else {
        r := Err(EmailError(FailureMessage(m)));
      }
    }
  }
}
