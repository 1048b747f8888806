/** `TransferMoney`: the order of the gate's checks in front of the bank. A request reaches the bank only
    authorised, signed and marked, and a request turned away leaves the replay store and the bank alone. */
module TransferGate {
  import opened Wrappers
  import opened Encoding
  import opened ApAuthorize
  import opened ApExchange
  import BankService
  import Ledger
  import LedgerChain
  import LedgerHistory

  const SCOPE_TRANSFER := "transfer:create"

  /** The decrypted payload, its currency already VND where it named none. `signatureValid` is the verdict of
      the signature check over it. */
  datatype Payload = Payload(scope: string, requestId: string, transfer: Ledger.Request, signatureValid: bool)

  datatype GateError = Unauthorized(error: AuthError) | InvalidPayload | WrongPayloadScope | RequestMismatch
                     | InvalidSignature | ReplayDetected

  datatype Answer = Turned(error: GateError) | Passed(outcome: Ledger.Outcome)

  /** `decryptTransferPayload` also refuses amounts that are not positive and missing fields. */
  predicate PayloadOk(p: Option<Payload>) {
    && p.Some?
    && var t := p.value.transfer;
       t.amount > 0 && t.fromNumber != "" && t.toNumber != "" && t.key != ""
  }

  /** The checks between the authorisation and the mark. */
  function Vet(a: Authenticator, p: Option<Payload>): Option<GateError> {
    if !PayloadOk(p) then Some(InvalidPayload)
    else if p.value.scope != "" && p.value.scope != SCOPE_TRANSFER then Some(WrongPayloadScope)
    else if p.value.requestId != "" && p.value.requestId != a.requestId then Some(RequestMismatch)
    else if !p.value.signatureValid then Some(InvalidSignature)
    else None
  }

  function CallerOf(r: Request): Ledger.Caller
    requires r.ticket.Some? && r.authenticator.Some?
  {
    var ticket := r.ticket.value;
    Ledger.Caller(ticket.clientId, ticket.certSerial, ticket.scope, r.authenticator.value.nonce)
  }

  /** What lets a request through to the bank: it may enter for transfers, its payload is complete, for this scope
      and this request if it says so, signed, and the store does not remember it. */
  ghost predicate Admits(h: HashFn, keys: Keys, r: Request, p: Option<Payload>, at: Glances, markAt: int) {
    && MayEnter(r, "transfer:create", at)
    && p.Some? && p.value.signatureValid
    && p.value.scope in {"", "transfer:create"} && p.value.requestId in {"", r.authenticator.value.requestId}
    && p.value.transfer.amount > 0 && |p.value.transfer.fromNumber| > 0 && |p.value.transfer.toNumber| > 0
    && |p.value.transfer.key| > 0
    && var key := ReplayKey(h, r.authenticator.value);
       key !in keys || keys[key] < markAt
  }

  /** The request as steps of the AP exchange and of the bank: `Begin`, then `Mark` when it gets that far, then
      the transfer when the mark is accepted. */
  function Gate(h: HashFn, c: LedgerChain.Config, s: System, bank: Ledger.State, r: Request, p: Option<Payload>,
                at: Glances, markAt: int, id: string, t: Ledger.Readings): (System, Ledger.State, Answer)
  {
    var s1 := Step(h, s, Begin(r, SCOPE_TRANSFER, at));
    var refused := Authorize(r, SCOPE_TRANSFER, at);
    if refused.Some? then (s1, bank, Turned(Unauthorized(refused.value)))
    else
      var vetted := Vet(r.authenticator.value, p);
      if vetted.Some? then (s1, bank, Turned(vetted.value))
      else
        var s2 := Step(h, s1, Mark(|s.flows|, markAt));
        if s2.accepted == s.accepted then (s2, bank, Turned(ReplayDetected))
        else
          var (bank', o) := Ledger.Transfer(c, bank, CallerOf(r), p.value.transfer, id, t);
          (s2, bank', Passed(o))
  }

  /** The answer to a payload names the first of its checks that fails. */
  lemma VetExactly(a: Authenticator, p: Option<Payload>)
    ensures var whole := p.Some? && p.value.transfer.amount > 0 && |p.value.transfer.fromNumber| > 0
                         && |p.value.transfer.toNumber| > 0 && |p.value.transfer.key| > 0;
            var scoped := whole && p.value.scope in {"", "transfer:create"};
            var meant := scoped && p.value.requestId in {"", a.requestId};
            && (Vet(a, p) == None <==> meant && p.value.signatureValid)
            && (Vet(a, p) == Some(InvalidPayload) <==> !whole)
            && (Vet(a, p) == Some(WrongPayloadScope) <==> whole && !scoped)
            && (Vet(a, p) == Some(RequestMismatch) <==> scoped && !meant)
            && (Vet(a, p) == Some(InvalidSignature) <==> meant && !p.value.signatureValid)
  {
  }

  /** A request reaches the bank exactly when every check passes and its key is not live. */
  lemma PassesExactly(h: HashFn, c: LedgerChain.Config, s: System, bank: Ledger.State, r: Request, p: Option<Payload>,
                      at: Glances, markAt: int, id: string, t: Ledger.Readings)
    ensures Gate(h, c, s, bank, r, p, at, markAt, id, t).2.Passed? <==> Admits(h, s.keys, r, p, at, markAt)
  {
    hide ReplayKey, MayEnter, Authorize, Vet, Ledger.Transfer;
    AuthorizeExactly(r, SCOPE_TRANSFER, at);
    if r.authenticator.Some? {
      VetExactly(r.authenticator.value, p);
    }
    EnteredHasAuthenticator(r, at);
  }

  lemma EnteredHasAuthenticator(r: Request, at: Glances)
    ensures MayEnter(r, SCOPE_TRANSFER, at) ==> r.ticket.Some? && r.authenticator.Some?
  {
  }

  /** An authenticator moves money once. After a request that changed the bank, and any further run of the
      bank, no request with its nonce changes the bank: not one that the replay store has forgotten, nor one
      with other contents. The ledger's unique nonces carry this where the replay window does not. */
  lemma ReplayMovesNothing(h: HashFn, c: LedgerChain.Config, s: System, bank: Ledger.State, r: Request,
                           p: Option<Payload>, at: Glances, markAt: int, id: string, t: Ledger.Readings,
                           ops: seq<Ledger.Op>, s': System, r': Request, p': Option<Payload>, at': Glances,
                           markAt': int, id': string, t': Ledger.Readings)
    requires r.authenticator.Some? && r'.authenticator.Some?
    requires r'.authenticator.value.nonce == r.authenticator.value.nonce
    requires Gate(h, c, s, bank, r, p, at, markAt, id, t).1 != bank
    ensures var bank2 := Ledger.Run(c, Gate(h, c, s, bank, r, p, at, markAt, id, t).1, ops);
            Gate(h, c, s', bank2, r', p', at', markAt', id', t').1 == bank2
  {
    hide ReplayKey, Fresh, Ledger.Transfer, Ledger.Run;
    var bank1 := Gate(h, c, s, bank, r, p, at, markAt, id, t).1;
    if Gate(h, c, s', Ledger.Run(c, bank1, ops), r', p', at', markAt', id', t').2.Passed? {
      LedgerHistory.NonceMovesMoneyOnce(c, bank, CallerOf(r), p.value.transfer, id, t, ops,
                                        CallerOf(r'), p'.value.transfer, id', t');
    }
  }

  class Handler {
    const h: HashFn
    const bank: BankService.Bank
    var keys: Keys
    ghost var flows: seq<Flow>
    ghost var accepted: seq<Accept>

    ghost function View(): System
      reads this
    {
      System(keys, flows, accepted)
    }

    constructor (h: HashFn, bank: BankService.Bank)
      ensures this.h == h && this.bank == bank && View() == ApExchange.Run(h, [])
    {
      this.h, this.bank, keys := h, bank, map[];
      flows, accepted := [], [];
    }

    method AuthorizeRequest(r: Request, at: Glances) returns (refused: Option<AuthError>)
      modifies this
      ensures refused == Authorize(r, SCOPE_TRANSFER, at)
      ensures View() == Step(h, old(View()), Begin(r, SCOPE_TRANSFER, at))
    {
      hide ReplayKey, Fresh;
      refused := Authorize(r, SCOPE_TRANSFER, at);
      if refused.None? {
        flows := flows + [Authorized(r.authenticator.value, at.now)];
      }
    }

    /** `markReplay` when the replay store answers. */
    method MarkReplay(ghost k: nat, a: Authenticator, now: int) returns (ok: bool)
      requires k < |flows| && flows[k].Authorized? && flows[k].who == a
      modifies this
      ensures View() == Step(h, old(View()), Mark(k, now))
      ensures ok <==> accepted != old(accepted)
    {
      hide ReplayKey;
      var key := ReplayKey(h, a);
      ok := !Live(keys, key, now);
      if ok {
        keys := keys[key := now + REPLAY_TTL];
        accepted := accepted + [Accept(a, flows[k].at, now)];
      }
      flows := flows[k := Closed];
    }

    /** The checks in order; the first that fails answers. */
    method TransferMoney(r: Request, p: Option<Payload>, at: Glances, markAt: int,
                         draw: Random16, t: Ledger.Readings) returns (answer: Answer)
      modifies this, bank
      ensures (View(), bank.Tables(), answer)
           == Gate(h, bank.c, old(View()), old(bank.Tables()), r, p, at, markAt, NewUuid(draw), t)
      ensures answer.Passed? <==> Admits(h, old(keys), r, p, at, markAt)
      ensures answer.Passed? ==>
        var k := r.ticket.value;
        var who := Ledger.Caller(k.clientId, k.certSerial, k.scope, r.authenticator.value.nonce);
        (bank.Tables(), answer.outcome)
        == Ledger.Transfer(bank.c, old(bank.Tables()), who, p.value.transfer, NewUuid(draw), t)
      ensures answer.Turned? ==> keys == old(keys) && bank.Tables() == old(bank.Tables())
    {
      hide ReplayKey, Fresh, Ledger.Transfer, Authorize, Admits;
      PassesExactly(h, bank.c, View(), bank.Tables(), r, p, at, markAt, NewUuid(draw), t);
      ghost var k := |flows|;
      var refused := AuthorizeRequest(r, at);
      if refused.Some? {
        return Turned(Unauthorized(refused.value));
      }
      AuthorizedHasAuthenticator(r, at);
      if !PayloadOk(p) {
        return Turned(InvalidPayload);
      }
      if p.value.scope != "" && p.value.scope != SCOPE_TRANSFER {
        return Turned(WrongPayloadScope);
      }
      if p.value.requestId != "" && p.value.requestId != r.authenticator.value.requestId {
        return Turned(RequestMismatch);
      }
      if !p.value.signatureValid {
        return Turned(InvalidSignature);
      }
      var marked := MarkReplay(k, r.authenticator.value, markAt);
      if !marked {
        return Turned(ReplayDetected);
      }
      var outcome := bank.Transfer(CallerOf(r), p.value.transfer, draw, t);
      answer := Passed(outcome);
    }
  }

  lemma AuthorizedHasAuthenticator(r: Request, at: Glances)
    requires Authorize(r, SCOPE_TRANSFER, at).None?
    ensures r.ticket.Some? && r.authenticator.Some?
  {
    hide Fresh;
  }
}
