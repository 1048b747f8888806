/** Registration as a saga over two services: check the email, issue a certificate, create the bank user,
    and revoke the certificate when the bank refuses. Any number of handlers interleave, also with one
    token, and any call may fail before its effect or lose its reply after it. */
module Registration {
  import opened Wrappers
  import opened Encoding
  import opened Certificates
  import CaService
  import Ledger
  import LedgerChain
  import Columns
  import Text

  const ROLLBACK_REASON := "registration_rollback"

  datatype Token = Token(jti: string, sub: string, ownerId: string)

  /** What became of a remote call: answered, done without the answer arriving, or not done. */
  datatype Fate = Delivered | Lost | NotDone

  datatype Ending = TokenRefused | EmailTaken | CheckFailed | IssueFailed | RolledBack | RollbackFailed | Registered

  datatype Phase =
    | Arrived
    | Vetted
    | Issued(serial: string)
    | Compensating(serial: string)
    | Ended(ending: Ending)

  datatype Handler = Handler(token: Token, phase: Phase)

  /** Both services and the handlers. `stranded` are owners whose certificate an ended handler left behind,
      `half` are users whose creation was reported to the handler as an error. */
  datatype System = System(
    certs: Certs, bank: Ledger.State, used: set<string>, handlers: seq<Handler>,
    stranded: set<string>, half: set<string>)

  datatype Setup = Setup(ca: CaService.Ca, bank: LedgerChain.Config, horizon: int)

  datatype Body = Body(csrPem: string, fullName: string, csrAccepted: bool, emailAccepted: bool)

  datatype Op =
    | Arrive(token: Token)
    | CheckEmail(k: nat, fate: Fate)
    | Issue(k: nat, body: Body, serialBytes: CaService.SerialBytes, issuedAt: int, checkedAt: int, fate: Fate)
    | CreateBankUser(k: nat, fullName: string, draw: Random16, fate: Fate)
    | Compensate(k: nat, at: int, fate: Fate)
    | MarkUsed(k: nat, fate: Fate)

  /** Both services trim the owner id they are given. */
  function Owner(t: Token): string {
    Text.Trim(t.ownerId)
  }

  function Email(t: Token): string {
    Text.Lower(t.sub)
  }

  function Move(s: System, k: nat, phase: Phase): System
    requires k < |s.handlers|
  {
    s.(handlers := s.handlers[k := s.handlers[k].(phase := phase)])
  }

  predicate EmailKnown(users: seq<Ledger.User>, email: string) {
    exists i :: 0 <= i < |users| && Text.Lower(users[i].email) == Text.Lower(Text.Trim(email))
  }

  // ---- the steps ----

  function StepArrive(s: System, t: Token): System {
    var phase := if t.jti in s.used || t.sub == "" || t.ownerId == "" then Ended(TokenRefused) else Arrived;
    s.(handlers := s.handlers + [Handler(t, phase)])
  }

  function StepCheckEmail(s: System, k: nat, fate: Fate): System
    requires k < |s.handlers|
  {
    var email := Email(s.handlers[k].token);
    if fate != Delivered || Text.Trim(email) == "" || !Columns.ValidText(Text.Trim(email)) then
      Move(s, k, Ended(CheckFailed))
    else if EmailKnown(s.bank.users, email) then Move(s, k, Ended(EmailTaken))
    else Move(s, k, Vetted)
  }

  function IssueInput(t: Token, body: Body): CaService.RegisterInput {
    CaService.RegisterInput(body.csrPem, t.ownerId, body.fullName, Email(t), true, body.csrAccepted, body.emailAccepted)
  }

  function StepIssue(c: Setup, s: System, k: nat, body: Body, serial: string, issuedAt: int, checkedAt: int, fate: Fate)
    : System
    requires k < |s.handlers|
  {
    var t := s.handlers[k].token;
    if fate == NotDone then Move(s, k, Ended(IssueFailed))
    else
      var (certs, reply) := CaService.RegisterUser(c.ca, s.certs, IssueInput(t, body), serial, issuedAt, checkedAt);
      var s' := s.(certs := certs);
      if reply != Ok then Move(s', k, Ended(IssueFailed))
      else if fate == Delivered then Move(s', k, Issued(serial))
      else Move(s'.(stranded := s.stranded + {Owner(t)}), k, Ended(IssueFailed))
  }

  function StepCreateUser(c: Setup, s: System, k: nat, fullName: string, draw: Random16, fate: Fate): System
    requires k < |s.handlers| && s.handlers[k].phase.Issued?
  {
    var t, serial := s.handlers[k].token, s.handlers[k].phase.serial;
    if fate == NotDone then Move(s, k, Compensating(serial))
    else
      var (bank, o) := Ledger.CreateUser(c.bank, s.bank, t.ownerId, Email(t), fullName, NewUuid(draw));
      var s' := s.(bank := bank);
      if !o.Done? then Move(s', k, Compensating(serial))
      else if fate == Delivered then Move(s', k, Ended(Registered))
      else Move(s'.(half := s.half + {Owner(t)}), k, Compensating(serial))
  }

  function StepCompensate(s: System, k: nat, at: int, fate: Fate): System
    requires k < |s.handlers| && s.handlers[k].phase.Compensating?
  {
    var t, serial := s.handlers[k].token, s.handlers[k].phase.serial;
    if fate == NotDone then Move(s.(stranded := s.stranded + {Owner(t)}), k, Ended(RollbackFailed))
    else
      var certs := CaService.RevokeCertificate(s.certs, serial, ROLLBACK_REASON, at).0;
      Move(s.(certs := certs), k, Ended(if fate == Delivered then RolledBack else RollbackFailed))
  }

  function StepMarkUsed(s: System, k: nat, fate: Fate): System
    requires k < |s.handlers|
  {
    if fate == NotDone then s else s.(used := s.used + {s.handlers[k].token.jti})
  }

  /** A step that is not the next one of its handler does nothing. */
  function Step(c: Setup, s: System, op: Op): System {
    match op
    case Arrive(t) => StepArrive(s, t)
    case CheckEmail(k, fate) =>
      if k < |s.handlers| && s.handlers[k].phase.Arrived? then StepCheckEmail(s, k, fate) else s
    case Issue(k, body, serialBytes, issuedAt, checkedAt, fate) =>
      if k < |s.handlers| && s.handlers[k].phase.Vetted?
      then StepIssue(c, s, k, body, Hex(serialBytes), issuedAt, checkedAt, fate) else s
    case CreateBankUser(k, fullName, draw, fate) =>
      if k < |s.handlers| && s.handlers[k].phase.Issued? then StepCreateUser(c, s, k, fullName, draw, fate) else s
    case Compensate(k, at, fate) =>
      if k < |s.handlers| && s.handlers[k].phase.Compensating? then StepCompensate(s, k, at, fate) else s
    case MarkUsed(k, fate) =>
      if k < |s.handlers| && s.handlers[k].phase == Ended(Registered) then StepMarkUsed(s, k, fate) else s
  }

  function Run(c: Setup, s: System, ops: seq<Op>): System {
    if ops == [] then s else Step(c, Run(c, s, ops[..|ops| - 1]), ops[|ops| - 1])
  }

  // ---- the invariant ----

  predicate IssuerSerial(ca: CaService.Ca, serial: string) {
    serial == ca.signer.serial || (ca.root.Some? && serial == ca.root.value.serial)
  }

  /** The gateway draws owner ids with `crypto.randomUUID()`, so the bank keeps them as they are. */
  predicate Minted(c: Setup, t: Token) {
    t.ownerId == "" || c.bank.uuid(Owner(t)) == Some(Owner(t))
  }

  /** The run ends before any certificate of it expires, drawn serials are not those of the issuers, and
      tokens are the gateway's own. */
  ghost predicate Admissible(c: Setup, op: Op) {
    && (op.Issue? ==>
          && op.checkedAt <= c.horizon <= CaService.Expiry(c.ca, op.issuedAt)
          && !IssuerSerial(c.ca, Hex(op.serialBytes)))
    && (op.Arrive? ==> Minted(c, op.token))
  }

  ghost predicate TokensOk(c: Setup, s: System) {
    forall k :: 0 <= k < |s.handlers| ==> Minted(c, s.handlers[k].token)
  }

  predicate Holds(h: Handler) {
    h.phase.Issued? || h.phase.Compensating?
  }

  predicate UserExists(s: System, o: string) {
    exists i :: 0 <= i < |s.bank.users| && s.bank.users[i].id == o
  }

  predicate Held(s: System, o: string) {
    exists k :: 0 <= k < |s.handlers| && Holds(s.handlers[k]) && Owner(s.handlers[k].token) == o
  }

  predicate HasActive(certs: Certs, o: string, now: int) {
    exists s :: s in certs && ActiveClient(certs, s, now) && certs[s].ownerId == o
  }

  /** Client records outlive the run and are kept apart from issuer records. */
  ghost predicate CertsOk(c: Setup, certs: Certs) {
    && OneActive(certs, c.horizon)
    && forall s :: s in certs && certs[s].certType == CLIENT ==>
         (certs[s].notAfter == NO_TIME || certs[s].notAfter >= c.horizon) && !IssuerSerial(c.ca, s)
  }

  /** A handler between issuing and its end holds the active certificate of its owner, and alone. */
  ghost predicate HoldersOk(c: Setup, certs: Certs, handlers: seq<Handler>) {
    && (forall k :: 0 <= k < |handlers| && Holds(handlers[k]) ==>
          var serial := handlers[k].phase.serial;
          && ActiveClient(certs, serial, c.horizon) && certs[serial].ownerId == Owner(handlers[k].token)
          && serial != "" && Text.Trimmed(serial))
    && forall k, k' :: 0 <= k < k' < |handlers| && Holds(handlers[k]) && Holds(handlers[k']) ==>
         Owner(handlers[k].token) != Owner(handlers[k'].token)
  }

  /** The active certificate of an owner is accounted for in exactly one way. */
  ghost predicate AccountedFor(c: Setup, s: System, o: string) {
    var settled := UserExists(s, o) && o !in s.half;
    && (HasActive(s.certs, o, c.horizon) <==> Held(s, o) || o in s.stranded || settled)
    && !(settled && o in s.stranded) && !(settled && Held(s, o)) && !(o in s.stranded && Held(s, o))
    && (o in s.half ==> UserExists(s, o))
  }

  ghost predicate Accounted(c: Setup, s: System) {
    forall o :: AccountedFor(c, s, o)
  }

  ghost predicate Inv(c: Setup, s: System) {
    CertsOk(c, s.certs) && HoldersOk(c, s.certs, s.handlers) && Accounted(c, s)
  }

  ghost predicate InStep(c: Setup, s: System) {
    forall o :: HasActive(s.certs, o, c.horizon) <==> UserExists(s, o)
  }

  /** No handler is running yet, and both services agree. */
  ghost predicate Initial(c: Setup, s: System) {
    s.handlers == [] && s.stranded == {} && s.half == {} && CertsOk(c, s.certs) && InStep(c, s)
  }
}
