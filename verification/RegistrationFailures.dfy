/** A run that leaves certificates and users out of step: one lost reply is enough. */
module RegistrationFailures {
  import opened Wrappers
  import opened Encoding
  import opened Certificates
  import opened Registration
  import opened RegistrationRuns
  import CaService
  import RegistrationHandler
  import Columns
  import Ledger
  import LedgerChain
  import Text

  const NOTHING := System(map[], Ledger.State([], [], [], LedgerChain.GENESIS), {}, [], {}, {})

  const APPLICANT := Body("csr", "A", true, true)

  function Applicants(owner: string): Token {
    Token("jti", "a@b", owner)
  }

  /** The CA issues, and its answer never reaches the gateway. */
  function LostReply(owner: string, b: CaService.SerialBytes, at: int): seq<Op> {
    [Arrive(Applicants(owner)), CheckEmail(0, Delivered), Issue(0, APPLICANT, b, at, at, Lost)]
  }

  lemma ApplicantText()
    ensures Text.Lower("a@b") == "a@b" && Text.Trim("a@b") == "a@b" && Columns.ValidText("a@b")
    ensures Text.Trim("csr") == "csr" && Text.Trim("A") == "A" && '@' in "a@b"
  {
    assert "a@b"[0] == 'a' && "a@b"[2] == 'b' && "a@b"[1] == '@';
    assert "csr"[0] == 'c' && "csr"[2] == 'r' && "A"[0] == 'A';
    assert Text.Lower("a@b") == "a@b";
    assert "a@b"[1..] == "@b" && "@b"[1..] == "b" && "b"[1..] == "";
  }

  lemma FirstIssueSucceeds(c: Setup, owner: string, b: CaService.SerialBytes, at: int)
    requires CaService.EnsureIssuerChain(c.ca, map[], at).1 == Ok && !IssuerSerial(c.ca, Hex(b))
    requires Text.Trim(owner) != ""
    ensures CaService.RegisterUser(c.ca, map[], IssueInput(Applicants(owner), APPLICANT), Hex(b), at, at).1 == Ok
  {
    hide Text.Trim, Text.Lower;
    ApplicantText();
    assert CaService.InputOk(IssueInput(Applicants(owner), APPLICANT));
    var chained := CaService.EnsureIssuerChain(c.ca, map[], at).0;
    forall s | s in chained ensures IssuerSerial(c.ca, s) && chained[s].certType != CLIENT {
    }
  }

  function With(phase: Phase, owner: string): System {
    NOTHING.(handlers := [Handler(Applicants(owner), phase)])
  }

  lemma LostReplySteps(c: Setup, owner: string, b: CaService.SerialBytes, at: int)
    requires CaService.EnsureIssuerChain(c.ca, map[], at).1 == Ok && !IssuerSerial(c.ca, Hex(b))
    requires Text.Trim(owner) == owner != ""
    ensures var s := Run(c, NOTHING, LostReply(owner, b, at));
            && s.stranded == {owner} && s.half == {} && s.bank.users == []
            && s.handlers == [Handler(Applicants(owner), Ended(IssueFailed))]
  {
    hide Text.Trim, Text.Lower, CaService.RegisterUser, Columns.ValidText, Run;
    ApplicantText();
    FirstIssueSucceeds(c, owner, b, at);
    var ops := LostReply(owner, b, at);
    NoSteps(c, ops);
    RegistrationHandler.RunStep(c, NOTHING, ops, 0);
    assert Run(c, NOTHING, ops[..1]) == With(Arrived, owner);
    RegistrationHandler.RunStep(c, NOTHING, ops, 1);
    assert Run(c, NOTHING, ops[..2]) == With(Vetted, owner);
    RegistrationHandler.RunStep(c, NOTHING, ops, 2);
    assert ops[..3] == ops;
  }

  lemma NoSteps(c: Setup, ops: seq<Op>)
    ensures Run(c, NOTHING, ops[..0]) == NOTHING
  {
  }

  /** From empty services one registration whose issuing answer is lost leaves its owner with an active
      certificate and without an account. */
  lemma LostReplyOutOfStep(c: Setup, owner: string, b: CaService.SerialBytes, at: int)
    requires CaService.EnsureIssuerChain(c.ca, map[], at).1 == Ok && !IssuerSerial(c.ca, Hex(b))
    requires at <= c.horizon <= CaService.Expiry(c.ca, at)
    requires Text.Trim(owner) == owner != "" && c.bank.uuid(owner) == Some(owner)
    ensures var ops := LostReply(owner, b, at);
            var s := Run(c, NOTHING, ops);
            && Initial(c, NOTHING) && (forall i :: 0 <= i < |ops| ==> Admissible(c, ops[i])) && Quiet(s)
            && HasActive(s.certs, owner, c.horizon) && !UserExists(s, owner) && !InStep(c, s)
  {
    hide Text.Trim, Run, HasActive, UserExists, IssuerSerial, InStep;
    var ops := LostReply(owner, b, at);
    NothingIsInitial(c);
    LostReplySteps(c, owner, b, at);
    RegistrationsStayInStep(c, NOTHING, ops);
    NoUsers(Run(c, NOTHING, ops), owner);
    OutOfStep(c, Run(c, NOTHING, ops), owner);
  }

  lemma NothingIsInitial(c: Setup)
    ensures Initial(c, NOTHING)
  {
  }

  lemma NoUsers(s: System, owner: string)
    requires s.bank.users == []
    ensures !UserExists(s, owner)
  {
  }

  lemma OutOfStep(c: Setup, s: System, owner: string)
    requires HasActive(s.certs, owner, c.horizon) && !UserExists(s, owner)
    ensures !InStep(c, s)
  {
  }
}
