/** The per-connection SMTP transaction state machine: authentication,
    MAIL, RCPT, DATA, RSET and QUIT, each a pure transition from a session
    and the command's argument to the next session and a reply. */
module Smtp {
  import opened Wrappers
  import opened NetMail
  import opened SaslPlain
  import Reconcile
  import Wire

  /** The session state: authenticated or not, the envelope sender once
      MAIL succeeded, and the envelope recipients in RCPT order. */
  datatype Session = Session(auth: bool, sender: Option<Address>, recipients: seq<Address>)

  /** The session a new connection starts with. */
  const Initial := Session(false, None, [])

  /** An enhanced status code class.subject.detail (section 3 of RFC 3463). */
  datatype EnhancedCode = EnhancedCode(classDigit: nat, subject: nat, detail: nat)

  /** The outcome of one command: success, an SMTP error reply, a rejected
      PLAIN credential, or a PLAIN message that is not three NUL-separated
      fields. */
  datatype Reply =
    | Ok
    | SmtpError(code: nat, enhanced: EnhancedCode, message: string)
    | AuthError(message: string)
    | MalformedPlain

  /** 530 5.7.0: authentication is required first (section 6 of RFC 4954). */
  const AuthRequired := SmtpError(530, EnhancedCode(5, 7, 0), "authentication required")
  const SenderAlreadySpecified := SmtpError(503, EnhancedCode(5, 5, 1), "sender already specified")
  const MailAfterRcpt := SmtpError(503, EnhancedCode(5, 5, 1), "bad sequence of commands: MAIL FROM after RCPT TO")
  const InvalidSender := SmtpError(550, EnhancedCode(5, 1, 7), "invalid sender address")
  const RcptBeforeMail := SmtpError(503, EnhancedCode(5, 5, 1), "bad sequence of commands: RCPT TO before MAIL FROM")
  const InvalidRecipient := SmtpError(550, EnhancedCode(5, 1, 3), "invalid recipient address")
  const SenderNotSpecified := SmtpError(503, EnhancedCode(5, 5, 1), "sender not specified")
  const NoRecipients := SmtpError(503, EnhancedCode(5, 5, 1), "no recipients specified")
  const InvalidFormat := SmtpError(550, EnhancedCode(5, 6, 0), "invalid message format")
  const BadCredentials := AuthError("invalid username or password")

  /** 554 5.3.0 carrying the relay's error text verbatim. */
  function RelayFailed(cause: string): Reply
  {
    SmtpError(554, EnhancedCode(5, 3, 0), cause)
  }

  /** The single configured identity the PLAIN credential is checked against. */
  datatype Credentials = Credentials(senderEmail: string, senderPassword: string)

  /** A session and the reply of the command that produced it. */
  datatype Transition = Transition(next: Session, reply: Reply)

  const PlainMechanism := "PLAIN"

  /** The advertised SASL mechanisms. */
  function AuthMechanisms(): (r: seq<string>)
    ensures |r| == 1 && r[0] == PlainMechanism
  {
    [PlainMechanism]
  }

  /** AUTH PLAIN with the client's response. The authorization identity is
      ignored; the authentication identity and password must both equal the
      configured ones. Success only sets `auth`; failure changes nothing. */
  function Auth(s: Session, creds: Credentials, response: string): (t: Transition)
    ensures t.reply.Ok? <==>
      && DecodePlain(response).Some?
      && DecodePlain(response).value.authcid == creds.senderEmail
      && DecodePlain(response).value.passwd == creds.senderPassword
    ensures t.reply.Ok? ==> t.next == s.(auth := true)
    ensures !t.reply.Ok? ==> t.next == s
    ensures DecodePlain(response).None? ==> t.reply == MalformedPlain
  {
    match DecodePlain(response)
    case None => Transition(s, MalformedPlain)
    case Some(m) =>
      if m.authcid == creds.senderEmail && m.passwd == creds.senderPassword then
        Transition(s.(auth := true), Ok)
      else
        Transition(s, BadCredentials)
  }

  /** MAIL FROM. Errors in this order: not authenticated, a sender already
      set, recipients already given, an unparseable address. */
  function Mail(s: Session, from: string, p: MailParsers): (t: Transition)
    ensures !s.auth ==> t.reply == AuthRequired
    ensures s.auth && s.sender.Some? ==> t.reply == SenderAlreadySpecified
    ensures s.auth && s.sender.None? && |s.recipients| > 0 ==> t.reply == MailAfterRcpt
    ensures s.auth && s.sender.None? && |s.recipients| == 0 && p.parseAddress(from).None? ==>
      t.reply == InvalidSender
    ensures t.reply.Ok? <==>
      s.auth && s.sender.None? && |s.recipients| == 0 && p.parseAddress(from).Some?
    ensures t.reply.Ok? ==> t.next == s.(sender := p.parseAddress(from))
    ensures !t.reply.Ok? ==> t.next == s
  {
    if !s.auth then Transition(s, AuthRequired)
    else if s.sender.Some? then Transition(s, SenderAlreadySpecified)
    else if |s.recipients| > 0 then Transition(s, MailAfterRcpt)
    else match p.parseAddress(from)
      case None => Transition(s, InvalidSender)
      case Some(a) => Transition(s.(sender := Some(a)), Ok)
  }

  /** RCPT TO. Errors in this order: not authenticated, no sender yet, an
      unparseable address. Success appends exactly one recipient at the end. */
  function Rcpt(s: Session, to: string, p: MailParsers): (t: Transition)
    ensures !s.auth ==> t.reply == AuthRequired
    ensures s.auth && s.sender.None? ==> t.reply == RcptBeforeMail
    ensures s.auth && s.sender.Some? && p.parseAddress(to).None? ==> t.reply == InvalidRecipient
    ensures t.reply.Ok? <==> s.auth && s.sender.Some? && p.parseAddress(to).Some?
    ensures t.reply.Ok? ==>
      && t.next.auth == s.auth && t.next.sender == s.sender
      && |t.next.recipients| == |s.recipients| + 1
      && t.next.recipients[..|s.recipients|] == s.recipients
      && t.next.recipients[|s.recipients|] == p.parseAddress(to).value
    ensures !t.reply.Ok? ==> t.next == s
  {
    if !s.auth then Transition(s, AuthRequired)
    else if s.sender.None? then Transition(s, RcptBeforeMail)
    else match p.parseAddress(to)
      case None => Transition(s, InvalidRecipient)
      case Some(a) =>
        var t := Transition(s.(recipients := s.recipients + [a]), Ok);
        assert t.next.recipients[..|s.recipients|] == s.recipients;
        t
  }

  /** The message DATA hands on before reconciliation: the input itself
      when it parses, otherwise the fallback message when that parses. */
  function Parsed(p: MailParsers, sender: Address, rcpts: seq<Address>, raw: string): (r: Option<Message>)
    ensures r.Some? <==> p.readMessage(raw).Some? || p.readMessage(Reconcile.FallbackText(p, sender, rcpts, raw)).Some?
    ensures p.readMessage(raw).Some? ==> r == p.readMessage(raw)
    ensures r.Some? && p.readMessage(raw).None? ==>
      r == p.readMessage(Wire.Concat(Wire.HeaderLines(Reconcile.FallbackHeader(p, sender, rcpts), Reconcile.FallbackOrder))
                         + Wire.CRLF + raw)
  {
    match p.readMessage(raw)
    case Some(m) => Some(m)
    case None => p.readMessage(Reconcile.FallbackText(p, sender, rcpts, raw))
  }

  /** The reply to DATA and the message handed to the relay handler, if it
      was called. */
  datatype DataOutcome = DataOutcome(reply: Reply, delivered: Option<Message>)

  /** DATA. Errors before any parsing: not authenticated, no sender, no
      recipients. Unusable input gives 550 5.6.0 without calling the
      handler; otherwise the handler is called once with the reconciled
      message and its error becomes 554 5.3.0. DATA leaves the session as it
      was: clearing the envelope is RSET's job. */
  function Data(s: Session, raw: string, p: MailParsers, handler: Message -> Option<string>): (o: DataOutcome)
    ensures !s.auth ==> o == DataOutcome(AuthRequired, None)
    ensures s.auth && s.sender.None? ==> o == DataOutcome(SenderNotSpecified, None)
    ensures s.auth && s.sender.Some? && |s.recipients| == 0 ==> o == DataOutcome(NoRecipients, None)
    ensures o.delivered.Some? <==>
      s.auth && s.sender.Some? && |s.recipients| > 0 && Parsed(p, s.sender.value, s.recipients, raw).Some?
    ensures s.auth && s.sender.Some? && |s.recipients| > 0 && o.delivered.None? ==>
      o.reply == InvalidFormat
    ensures o.delivered.Some? ==>
      && o.delivered.value == Reconcile.Reconciled(p, Parsed(p, s.sender.value, s.recipients, raw).value,
                                                   s.sender.value, s.recipients)
      && o.reply == (match handler(o.delivered.value)
                     case None => Ok
                     case Some(e) => RelayFailed(e))
    ensures o.reply.Ok? ==> o.delivered.Some? && handler(o.delivered.value).None?
  {
    if !s.auth then DataOutcome(AuthRequired, None)
    else if s.sender.None? then DataOutcome(SenderNotSpecified, None)
    else if |s.recipients| == 0 then DataOutcome(NoRecipients, None)
    else match Parsed(p, s.sender.value, s.recipients, raw)
      case None => DataOutcome(InvalidFormat, None)
      case Some(m) =>
        var msg := Reconcile.Reconciled(p, m, s.sender.value, s.recipients);
        match handler(msg)
        case None => DataOutcome(Ok, Some(msg))
        case Some(e) => DataOutcome(RelayFailed(e), Some(msg))
  }

  /** RSET: forget the envelope, keep the authentication. */
  function Reset(s: Session): (r: Session)
    ensures r.auth == s.auth && r.sender.None? && |r.recipients| == 0
  {
    s.(sender := None, recipients := [])
  }

  /** The commands the protocol server hands to the session. */
  datatype Command =
    | AuthCmd(response: string)
    | MailCmd(from: string)
    | RcptCmd(to: string)
    | DataCmd(raw: string)
    | RsetCmd
    | QuitCmd

  /** What a session is given besides its commands. */
  datatype Context = Context(creds: Credentials, parsers: MailParsers, handler: Message -> Option<string>)

  /** One command on a session. Each command touches only its own part of
      the session; QUIT (Logout) always succeeds and changes nothing, and DATA
      changes nothing either. */
  function Step(s: Session, c: Command, ctx: Context): (t: Transition)
    ensures c.AuthCmd? ==> t == Auth(s, ctx.creds, c.response)
    ensures c.MailCmd? ==> t == Mail(s, c.from, ctx.parsers)
    ensures c.RcptCmd? ==> t == Rcpt(s, c.to, ctx.parsers)
    ensures c.DataCmd? ==> t.reply == Data(s, c.raw, ctx.parsers, ctx.handler).reply
    ensures c.QuitCmd? ==> t == Transition(s, Ok)
    ensures c.DataCmd? ==> t.next == s
    ensures c.RsetCmd? ==> t.reply.Ok? && t.next.auth == s.auth && t.next.sender.None? && |t.next.recipients| == 0
    ensures c.AuthCmd? ==> t.next.sender == s.sender && t.next.recipients == s.recipients
    ensures c.MailCmd? ==> t.next.auth == s.auth && t.next.recipients == s.recipients
    ensures c.RcptCmd? ==> t.next.auth == s.auth && t.next.sender == s.sender
  {
    match c
    case AuthCmd(response) => Auth(s, ctx.creds, response)
    case MailCmd(from) => Mail(s, from, ctx.parsers)
    case RcptCmd(to) => Rcpt(s, to, ctx.parsers)
    case DataCmd(raw) => Transition(s, Data(s, raw, ctx.parsers, ctx.handler).reply)
    case RsetCmd => Transition(Reset(s), Ok)
    case QuitCmd => Transition(s, Ok)
  }

  /** The session after a sequence of commands. */
  function Run(s: Session, cmds: seq<Command>, ctx: Context): Session
    decreases |cmds|
  {
    if |cmds| == 0 then s else Run(Step(s, cmds[0], ctx).next, cmds[1..], ctx)
  }

  /** The session invariant: nothing is set before authentication, and
      recipients only exist once a sender does. */
  predicate Valid(s: Session)
  {
    && (!s.auth ==> s.sender.None? && |s.recipients| == 0)
    && (|s.recipients| > 0 ==> s.sender.Some?)
  }

  /** A new session is valid and its (empty) envelope round-trips. */
  lemma InitialValid(p: MailParsers)
    ensures Valid(Initial)
    ensures EnvelopeRoundTrips(p, Initial)
  {
  }

  /** Every command keeps the invariant, never drops authentication, and
      DATA never changes the session. */
  lemma StepKeepsValid(s: Session, c: Command, ctx: Context)
    requires Valid(s)
    ensures Valid(Step(s, c, ctx).next)
    ensures s.auth ==> Step(s, c, ctx).next.auth
    ensures c.DataCmd? ==> Step(s, c, ctx).next == s
  {
  }

  /** Any run of commands from a valid session ends in a valid session and
      keeps authentication once gained. */
  lemma {:induction false} RunKeepsValid(s: Session, cmds: seq<Command>, ctx: Context)
    requires Valid(s)
    ensures Valid(Run(s, cmds, ctx))
    ensures s.auth ==> Run(s, cmds, ctx).auth
    decreases |cmds|
  {
    if |cmds| > 0 {
      StepKeepsValid(s, cmds[0], ctx);
      RunKeepsValid(Step(s, cmds[0], ctx).next, cmds[1..], ctx);
    }
  }

  /** Every envelope address came out of ParseAddress, so with faithful
      parsers it round-trips through Address.String. */
  predicate EnvelopeRoundTrips(p: MailParsers, s: Session)
  {
    && (s.sender.Some? ==> RoundTrips(p, s.sender.value))
    && AllRoundTrip(p, s.recipients)
  }

  /** Every command keeps the envelope made of parsed addresses. */
  lemma StepKeepsRoundTrips(s: Session, c: Command, ctx: Context)
    requires Faithful(ctx.parsers)
    requires EnvelopeRoundTrips(ctx.parsers, s)
    ensures EnvelopeRoundTrips(ctx.parsers, Step(s, c, ctx).next)
  {
    var p := ctx.parsers;
    var next := Step(s, c, ctx).next;
    if c.RcptCmd? && Step(s, c, ctx).reply.Ok? {
      assert p.parseAddress(c.to).Some?;
      forall i | 0 <= i < |next.recipients| ensures RoundTrips(p, next.recipients[i]) {
        if i < |s.recipients| {
          assert next.recipients[i] == s.recipients[i];
        }
      }
    }
  }

  /** From the initial session, every run keeps the envelope made of
      parsed addresses. */
  lemma {:induction false} RunKeepsRoundTrips(s: Session, cmds: seq<Command>, ctx: Context)
    requires Faithful(ctx.parsers)
    requires EnvelopeRoundTrips(ctx.parsers, s)
    ensures EnvelopeRoundTrips(ctx.parsers, Run(s, cmds, ctx))
    decreases |cmds|
  {
    if |cmds| > 0 {
      StepKeepsRoundTrips(s, cmds[0], ctx);
      RunKeepsRoundTrips(Step(s, cmds[0], ctx).next, cmds[1..], ctx);
    }
  }

  /** The transaction phases of a valid session. */
  datatype Phase = Unauthenticated | Authenticated | SenderSet | RecipientsOpen

  function PhaseOf(s: Session): Phase
  {
    if !s.auth then Unauthenticated
    else if s.sender.None? then Authenticated
    else if |s.recipients| == 0 then SenderSet
    else RecipientsOpen
  }

  datatype Verb = AUTH | MAIL | RCPT | DATA | RSET | QUIT

  function VerbOf(c: Command): Verb
  {
    match c
    case AuthCmd(_) => AUTH
    case MailCmd(_) => MAIL
    case RcptCmd(_) => RCPT
    case DataCmd(_) => DATA
    case RsetCmd => RSET
    case QuitCmd => QUIT
  }

  /** The command ordering of section 4.1.4 of RFC 5321 with authentication
      required first: which accepted command may move which phase where. */
  predicate Allowed(from: Phase, v: Verb, to: Phase)
  {
    match v
    case AUTH => to == (if from == Unauthenticated then Authenticated else from)
    case MAIL => from == Authenticated && to == SenderSet
    case RCPT => (from == SenderSet || from == RecipientsOpen) && to == RecipientsOpen
    case DATA => from == RecipientsOpen && to == RecipientsOpen
    case RSET => to == (if from == Unauthenticated then Unauthenticated else Authenticated)
    case QUIT => to == from
  }

  /** Every accepted command follows the ordering, and every rejected one
      leaves the session unchanged. */
  lemma StepFollowsOrdering(s: Session, c: Command, ctx: Context)
    requires Valid(s)
    ensures var t := Step(s, c, ctx);
      && (t.reply.Ok? ==> Allowed(PhaseOf(s), VerbOf(c), PhaseOf(t.next)))
      && (!t.reply.Ok? ==> t.next == s)
  {
  }

  /** The PLAIN login of the configured identity succeeds whatever
      authorization identity is sent, and a wrong password fails. */
  lemma PlainLogin(s: Session, creds: Credentials, authzid: string, password: string)
    requires Carriable(PlainMessage(authzid, creds.senderEmail, password))
    ensures Auth(s, creds, EncodePlain(PlainMessage(authzid, creds.senderEmail, password))).reply.Ok?
      <==> password == creds.senderPassword
  {
    DecodeEncodePlain(PlainMessage(authzid, creds.senderEmail, password));
  }

  /** The ordinary submission goes through: from a new connection, AUTH PLAIN
      with the configured login, MAIL FROM and RCPT TO with parseable
      addresses are each accepted and leave an authenticated session whose
      envelope is exactly those two addresses. */
  lemma SubmissionAccepted(ctx: Context, authzid: string, from: string, to: string)
    requires Carriable(PlainMessage(authzid, ctx.creds.senderEmail, ctx.creds.senderPassword))
    requires ctx.parsers.parseAddress(from).Some? && ctx.parsers.parseAddress(to).Some?
    ensures var login := AuthCmd(EncodePlain(PlainMessage(authzid, ctx.creds.senderEmail, ctx.creds.senderPassword)));
      var s1 := Step(Initial, login, ctx);
      var s2 := Step(s1.next, MailCmd(from), ctx);
      var s3 := Step(s2.next, RcptCmd(to), ctx);
      && s1.reply.Ok? && s2.reply.Ok? && s3.reply.Ok?
      && Run(Initial, [login, MailCmd(from), RcptCmd(to)], ctx)
         == Session(true, ctx.parsers.parseAddress(from), [ctx.parsers.parseAddress(to).value])
  {
    var m := PlainMessage(authzid, ctx.creds.senderEmail, ctx.creds.senderPassword);
    DecodeEncodePlain(m);
    var cmds := [AuthCmd(EncodePlain(m)), MailCmd(from), RcptCmd(to)];
    var s1 := Step(Initial, cmds[0], ctx).next;
    var s2 := Step(s1, cmds[1], ctx).next;
    var s3 := Step(s2, cmds[2], ctx).next;
    assert cmds[1..] == [MailCmd(from), RcptCmd(to)];
    assert cmds[1..][1..] == [RcptCmd(to)];
    assert Run(s3, cmds[1..][1..][1..], ctx) == s3;
    assert Run(Initial, cmds, ctx) == Run(s1, cmds[1..], ctx) == Run(s2, cmds[1..][1..], ctx);
  }

  /** Unparseable input with a readable fallback delivers the fallback
      message unchanged: From is the sender, To lists every recipient,
      Subject is the placeholder and the body is the input verbatim. */
  lemma DataDeliversFallback(s: Session, raw: string, p: MailParsers, handler: Message -> Option<string>)
    requires Faithful(p) && EnvelopeRoundTrips(p, s)
    requires s.auth && s.sender.Some? && |s.recipients| > 0
    requires p.readMessage(raw).None?
    requires p.readMessage(Reconcile.FallbackText(p, s.sender.value, s.recipients, raw))
      == Some(Reconcile.FallbackMessage(p, s.sender.value, s.recipients, raw))
    ensures Data(s, raw, p, handler).delivered
      == Some(Reconcile.FallbackMessage(p, s.sender.value, s.recipients, raw))
  {
    Reconcile.FallbackNeedsNoPatch(p, s.sender.value, s.recipients, raw);
  }

  /** Whatever DATA hands to the relay names every envelope recipient in
      To, Cc or Bcc and the envelope sender in From, provided the message's
      first Bcc value was empty or readable. */
  lemma DataCoversEnvelope(s: Session, raw: string, p: MailParsers, handler: Message -> Option<string>)
    requires Faithful(p) && EnvelopeRoundTrips(p, s)
    requires Data(s, raw, p, handler).delivered.Some?
    requires Reconcile.BccReadable(p, Parsed(p, s.sender.value, s.recipients, raw).value.header)
    ensures var m := Data(s, raw, p, handler).delivered.value;
      && (forall i :: 0 <= i < |s.recipients| ==> s.recipients[i].address in Reconcile.Present(p, m.header))
      && Reconcile.SenderInFrom(p, m.header, s.sender.value)
  {
    var m := Parsed(p, s.sender.value, s.recipients, raw).value;
    Reconcile.RecipientsCovered(p, m, s.sender.value, s.recipients);
    Reconcile.SenderCovered(p, m, s.sender.value, s.recipients);
  }
}
