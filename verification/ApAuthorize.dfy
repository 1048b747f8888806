/** `authorize`: which requests the AP exchange lets in. Ticket, authenticator and certificate are judged by ordered
    checks at four readings of the clock. */
module ApAuthorize {
  import opened Wrappers
  import opened Integers

  /** Times are nanoseconds. */
  const FRESHNESS: int := 300 * SECOND

  const CERT_TYPE_CLIENT := "client"
  const CLIENT_CA_ISSUER := "client-ca"

  /** `expiresAt` is in Unix seconds; what stands after it may be missing. */
  datatype Ticket = Ticket(
    clientId: string, certSerial: string, scope: string, expiresAt: int64,
    certType: string, issuerId: string, issuerSerial: string, chain: seq<string>)

  /** `timestamp` is in Unix seconds. */
  datatype Authenticator = Authenticator(clientId: string, nonce: string, requestId: string, timestamp: int64)

  /** What the CA answers about the certificate of the ticket, with times in Unix seconds. */
  datatype CertInfo = CertInfo(
    active: bool, revokedAt: int64, notBefore: int64, notAfter: int64, ownerId: string,
    certType: string, issuerId: string, issuerSerial: string, chain: seq<string>)

  /** `None` stands for a ciphertext that does not open or does not parse, and for a CA that does not answer. */
  datatype Request = Request(ticket: Option<Ticket>, authenticator: Option<Authenticator>, cert: Option<CertInfo>)

  datatype AuthError =
    | InvalidTicket | WrongScope | InvalidAuthenticator | BadRequest | StaleRequest | CaUnavailable | CertRejected

  function Stamp(a: Authenticator): int {
    UnixInstant(a.timestamp)
  }

  /** `absDuration`: negating the smallest `int64` overflows. */
  function AbsDuration(d: int64): int64 {
    if d < 0 then Wrap64(-(d as int)) else d
  }

  /** The freshness check, on a difference that saturates. */
  predicate Fresh(a: Authenticator, now: int) {
    AbsDuration(Saturate64(now - Stamp(a))) <= FRESHNESS
  }

  /** What the check lets through: timestamps within five minutes, and timestamps so far ahead of the clock that the
      saturated difference cannot be negated. */
  lemma FreshExactly(a: Authenticator, now: int)
    ensures Fresh(a, now) <==>
      -300_000_000_000 <= now - Stamp(a) <= 300_000_000_000 || Stamp(a) - now >= 0x8000_0000_0000_0000
  {
  }

  /** The same for a clock after 1970, in terms of the number in the request: a timestamp beyond the range of
      `time.Unix` wraps into the far past and is stale. */
  lemma FreshTimestamps(a: Authenticator, now: int)
    requires now >= 0
    ensures var ahead := a.timestamp * 1_000_000_000 - now;
            Fresh(a, now) <==>
              && a.timestamp <= 0x7FFF_FFFF_FFFF_FFFF - 62_135_596_800
              && (-300_000_000_000 <= ahead <= 300_000_000_000 || ahead >= 0x8000_0000_0000_0000)
  {
    hide Fresh;
    FreshExactly(a, now);
  }

  /** The clock readings of one `authorize`: two for the expiry of the ticket, one for the freshness, one for the
      certificate. */
  datatype Glances = Glances(first: int, second: int, now: int, last: int)

  ghost predicate Ordered(t: Glances) {
    t.first <= t.second <= t.now <= t.last
  }

  /** The expiry check compares two readings. */
  predicate Expired(expires: int, t: Glances) {
    t.first > expires || t.second == expires
  }

  /** What the check lets through: tickets live at both readings, and tickets that expire at the first
      reading or after it and before the second. */
  lemma ExpiryExactly(expires: int, t: Glances)
    requires Ordered(t)
    ensures !Expired(expires, t) <==> t.second < expires || t.first <= expires < t.second
  {
  }

  /** `decryptTicket` refuses a ticket without one of its fields. */
  predicate Complete(ticket: Ticket) {
    ticket.clientId != "" && ticket.certSerial != "" && ticket.scope != "" && ticket.expiresAt != 0
  }

  /** The status and the validity of a certificate at a reading in whole seconds. */
  predicate CertLive(c: CertInfo, now: int) {
    var unix := now / SECOND;
    c.active && c.revokedAt <= 0 && c.notBefore <= unix && !(c.notAfter > 0 && unix >= c.notAfter)
  }

  /** `validateClientCertificateMetadata`. */
  predicate ClientCert(c: CertInfo) {
    c.certType == CERT_TYPE_CLIENT && c.issuerId == CLIENT_CA_ISSUER && c.chain != []
  }

  /** `validateTicketCertificateMetadata`: what the ticket says of the certificate must be so. */
  predicate TicketMatches(k: Ticket, c: CertInfo) {
    && (k.certType == "" || k.certType == c.certType) && (k.issuerId == "" || k.issuerId == c.issuerId)
    && (k.issuerSerial == "" || k.issuerSerial == c.issuerSerial) && (k.chain == [] || k.chain == c.chain)
  }

  predicate CertAccepted(k: Ticket, c: CertInfo, now: int) {
    CertLive(c, now) && (c.ownerId == "" || c.ownerId == k.clientId) && ClientCert(c) && TicketMatches(k, c)
  }

  /** The checks in order, and the first that fails. */
  function Authorize(r: Request, scope: string, t: Glances): Option<AuthError> {
    if r.ticket.None? || !Complete(r.ticket.value) then Some(InvalidTicket)
    else if Expired(UnixInstant(r.ticket.value.expiresAt), t) then Some(InvalidTicket)
    else if r.ticket.value.scope != scope then Some(WrongScope)
    else if r.authenticator.None? then Some(InvalidAuthenticator)
    else
      var a := r.authenticator.value;
      if a.clientId != r.ticket.value.clientId then Some(InvalidAuthenticator)
      else if a.timestamp == 0 || a.nonce == "" || a.requestId == "" then Some(BadRequest)
      else if !Fresh(a, t.now) then Some(StaleRequest)
      else if r.cert.None? then Some(CaUnavailable)
      else if !CertAccepted(r.ticket.value, r.cert.value, t.last) then Some(CertRejected)
      else None
  }

  // ---- what lets a request in ----

  /** A ticket with all its fields that passes the two readings of the expiry check (`ExpiryExactly`). */
  ghost predicate TicketStands(r: Request, scope: string, t: Glances) {
    && r.ticket.Some?
    && var k := r.ticket.value;
       var expires := UnixInstant(k.expiresAt);
       && |k.clientId| > 0 && |k.certSerial| > 0 && |k.scope| > 0 && k.expiresAt != 0
       && t.first <= expires && t.second != expires
  }

  /** The holder of the ticket made the authenticator, completely. */
  ghost predicate Authentic(r: Request) {
    && r.ticket.Some? && r.authenticator.Some?
    && var a := r.authenticator.value;
       a.clientId == r.ticket.value.clientId && a.timestamp != 0 && |a.nonce| > 0 && |a.requestId| > 0
  }

  ghost predicate WithinWindow(a: Authenticator, now: int) {
    -300_000_000_000 <= now - UnixInstant(a.timestamp) <= 300_000_000_000
    || UnixInstant(a.timestamp) - now >= 0x8000_0000_0000_0000
  }

  /** The CA knows the certificate as an active client certificate of the holder, valid at the last reading in whole
      seconds, and as the ticket describes it. */
  ghost predicate CertStands(r: Request, t: Glances) {
    && r.ticket.Some? && r.cert.Some?
    && var k, c, second := r.ticket.value, r.cert.value, t.last / 1_000_000_000;
       && c.active && c.revokedAt <= 0 && c.notBefore <= second && (c.notAfter <= 0 || second < c.notAfter)
       && c.ownerId in {"", k.clientId} && c.certType == "client" && c.issuerId == "client-ca" && |c.chain| > 0
       && k.certType in {"", c.certType} && k.issuerId in {"", c.issuerId}
       && k.issuerSerial in {"", c.issuerSerial} && (|k.chain| == 0 || k.chain == c.chain)
  }

  ghost predicate MayEnter(r: Request, scope: string, t: Glances) {
    && TicketStands(r, scope, t) && r.ticket.value.scope == scope && Authentic(r)
    && WithinWindow(r.authenticator.value, t.now) && CertStands(r, t)
  }

  lemma CertExactly(r: Request, t: Glances)
    requires r.ticket.Some? && r.cert.Some?
    ensures CertAccepted(r.ticket.value, r.cert.value, t.last) <==> CertStands(r, t)
  {
  }

  /** A request is let in exactly when all of this holds, and otherwise the answer names the first that fails. */
  lemma AuthorizeExactly(r: Request, scope: string, t: Glances)
    ensures var answer := Authorize(r, scope, t);
            var ticket, authentic := TicketStands(r, scope, t), Authentic(r);
            var named := r.ticket.Some? && r.authenticator.Some?
                         && r.authenticator.value.clientId == r.ticket.value.clientId;
            && (answer == None <==> MayEnter(r, scope, t))
            && (answer == Some(InvalidTicket) <==> !ticket)
            && (answer == Some(WrongScope) <==> ticket && r.ticket.value.scope != scope)
            && (answer == Some(InvalidAuthenticator) <==> ticket && r.ticket.value.scope == scope && !named)
            && (answer == Some(BadRequest) <==> ticket && r.ticket.value.scope == scope && named && !authentic)
            && (answer == Some(StaleRequest) <==>
                  && ticket && r.ticket.value.scope == scope && authentic
                  && !WithinWindow(r.authenticator.value, t.now))
            && (answer == Some(CaUnavailable) <==>
                  && ticket && r.ticket.value.scope == scope && authentic
                  && WithinWindow(r.authenticator.value, t.now) && r.cert.None?)
            && (answer == Some(CertRejected) <==>
                  && ticket && r.ticket.value.scope == scope && authentic
                  && WithinWindow(r.authenticator.value, t.now) && r.cert.Some? && !CertStands(r, t))
  {
    hide UnixInstant, Fresh, CertAccepted, CertStands;
    if r.ticket.Some? {
      if r.authenticator.Some? {
        FreshExactly(r.authenticator.value, t.now);
      }
      if r.cert.Some? {
        CertExactly(r, t);
      }
    }
    NoCert(r, t);
  }

  lemma NoCert(r: Request, t: Glances)
    ensures r.ticket.None? || r.cert.None? ==> !CertStands(r, t)
  {
  }
}
