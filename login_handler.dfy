/**
 * `C2R_LoginHandler`: the realm's answer to a client's login. A session
 * already logging in is refused, as is an empty account or password. An
 * unknown account is registered with the given password, and a known one
 * must match its password. Then a gate is asked for a login key, and the
 * gate's address, the key and the gate id go back to the client. Every
 * answer that is sent schedules the session to be closed.
 *
 * The zone database is a map from account to password. The gate chosen for
 * the account and the gate's reply are inputs. The one-second close timer
 * and the coroutine lock on the account are not part of this model.
 */
module LoginHandler {
  import opened ActorTypes

  /**
   * `ErrorCode.ERR_AccountAlreadyOnline`, `ERR_LoginInfoEmpty` and
   * `ERR_LoginPasswordError`. ErrorCode is not part of this model: only the
   * facts that these are distinct and non-zero are used.
   */
  const ERR_AccountAlreadyOnline: int := 200101
  const ERR_LoginInfoEmpty: int := 200102
  const ERR_LoginPasswordError: int := 200103

  /** `C2R_Login`: `None` stands for a null string. */
  datatype C2R_Login = C2R_Login(Account: Option<string>, Password: Option<string>)

  predicate IsNullOrEmpty(s: Option<string>) {
    s.None? || |s.value| == 0
  }

  /** What the handler does with a login, before the gate is asked. */
  datatype Decision = Reject(error: int) | Register | Proceed

  /**
   * The checks of `Run`, in their order: the session lock, then empty
   * fields, then the account's stored password (`accounts` is the zone
   * database).
   */
  function Decide(hasLock: bool, request: C2R_Login, accounts: map<string, string>): (d: Decision)
    ensures d == Reject(ERR_AccountAlreadyOnline) <==> hasLock
    ensures d == Reject(ERR_LoginInfoEmpty) <==>
              !hasLock && (IsNullOrEmpty(request.Account) || IsNullOrEmpty(request.Password))
    ensures d == Register <==>
              !hasLock && !IsNullOrEmpty(request.Account) && !IsNullOrEmpty(request.Password)
              && request.Account.value !in accounts
    ensures d == Reject(ERR_LoginPasswordError) <==>
              !hasLock && !IsNullOrEmpty(request.Account) && !IsNullOrEmpty(request.Password)
              && request.Account.value in accounts && accounts[request.Account.value] != request.Password.value
    ensures d == Proceed <==>
              !hasLock && !IsNullOrEmpty(request.Account) && !IsNullOrEmpty(request.Password)
              && request.Account.value in accounts && accounts[request.Account.value] == request.Password.value
  {
    if hasLock then Reject(ERR_AccountAlreadyOnline)
    else if IsNullOrEmpty(request.Account) || IsNullOrEmpty(request.Password) then Reject(ERR_LoginInfoEmpty)
    else if request.Account.value !in accounts then Register
    else if accounts[request.Account.value] != request.Password.value then Reject(ERR_LoginPasswordError)
    else Proceed
  }

  /** The zone database after a decision: only a registration writes, and it writes exactly the request's pair. */
  function AccountsAfter(d: Decision, request: C2R_Login, accounts: map<string, string>): (r: map<string, string>)
    requires d == Register ==> request.Account.Some? && request.Password.Some?
    ensures d != Register ==> r == accounts
    ensures d == Register ==> r.Keys == accounts.Keys + {request.Account.value}
                              && r[request.Account.value] == request.Password.value
                              && forall a :: a in accounts && a != request.Account.value ==> r[a] == accounts[a]
  {
    if d == Register then accounts[request.Account.value := request.Password.value] else accounts
  }

  /**
   * Once an account is registered, logging in again with the same password
   * proceeds and with any other password is refused; nothing else in the
   * database changes.
   */
  lemma RegisteredAccountChecksPassword(request: C2R_Login, accounts: map<string, string>, other: string)
    requires Decide(false, request, accounts) == Register
    requires |other| > 0 && Some(other) != request.Password
    ensures var after := AccountsAfter(Register, request, accounts);
            && Decide(false, request, after) == Proceed
            && Decide(false, C2R_Login(request.Account, Some(other)), after) == Reject(ERR_LoginPasswordError)
  {
    var after := AccountsAfter(Register, request, accounts);
    assert request.Account.value in after;
  }

  /** A login that passed the checks passes them again once its decision is applied: registration is done once. */
  lemma AcceptedLoginIsStable(request: C2R_Login, accounts: map<string, string>)
    requires Decide(false, request, accounts) != Reject(ERR_AccountAlreadyOnline)
    requires Decide(false, request, accounts) != Reject(ERR_LoginInfoEmpty)
    ensures Decide(false, request, AccountsAfter(Decide(false, request, accounts), request, accounts)) == Proceed
            || Decide(false, request, accounts) == Reject(ERR_LoginPasswordError)
  {
    var d := Decide(false, request, accounts);
    if d == Register {
      assert request.Account.value in AccountsAfter(d, request, accounts);
    }
  }

  /** Where the gate for this account lives: `StartSceneConfig.ActorId` and `InnerIPPort`. */
  datatype GateConfig = GateConfig(actorId: ActorId, innerIPPort: string)

  /** The gate's answer to `R2G_GetLoginKey`: a `G2R_GetLoginKey`, or the exception the call raised. */
  datatype GateAnswer = G2R_GetLoginKey(Key: int, GateId: int) | GateRaised(failure: Failure)

  /** The realm's session with the client. */
  class Session {
    /** `GetComponent<SessionLockComponent>() != null`. */
    var hasLock: bool
    /** How many `CloseSession(session)` were started. */
    var closesScheduled: nat

    constructor (hasLock: bool)
      ensures this.hasLock == hasLock && closesScheduled == 0
    {
      this.hasLock := hasLock;
      closesScheduled := 0;
    }
  }

  /** The zone's database: one record per account. */
  class ZoneDB {
    var accounts: map<string, string>

    constructor (accounts: map<string, string>)
      ensures this.accounts == accounts
    {
      this.accounts := accounts;
    }

    /** `Save` of a new `AccountInfo`. */
    method Save(account: string, password: string)
      modifies this
      ensures accounts == old(accounts)[account := password]
    {
      accounts := accounts[account := password];
    }
  }

  /** `R2C_Login`: `Address` is `None` while it is null. */
  class R2C_Login {
    var Error: int
    var Address: Option<string>
    var Key: int
    var GateId: int

    constructor ()
      ensures Error == ERR_Success && Address == None && Key == 0 && GateId == 0
    {
      Error := ERR_Success;
      Address := None;
      Key := 0;
      GateId := 0;
    }
  }

  /** `CloseSession(session).Coroutine()`: the close is scheduled, it happens a second later. */
  method CloseSession(session: Session)
    modifies session
    ensures session.closesScheduled == old(session.closesScheduled) + 1
    ensures session.hasLock == old(session.hasLock)
  {
    session.closesScheduled := session.closesScheduled + 1;
  }

  /**
   * `Run`. The lock a session takes for the checks is released on every
   * path, the exception of the gate call included. `gateRequest` is the
   * `R2G_GetLoginKey` call made, with its destination, if one was made.
   */
  method Run(session: Session, request: C2R_Login, response: R2C_Login, zoneDB: ZoneDB,
             gate: GateConfig, answer: GateAnswer)
    returns (raised: Option<Failure>, gateRequest: Option<(ActorId, string)>)
    modifies session, response, zoneDB
    ensures var d := Decide(old(session.hasLock), request, old(zoneDB.accounts));
            && session.hasLock == old(session.hasLock)
            && zoneDB.accounts == AccountsAfter(d, request, old(zoneDB.accounts))
            && (d.Reject? ==>
                  && raised == None && gateRequest == None
                  && response.Error == d.error
                  && response.Address == old(response.Address) && response.Key == old(response.Key)
                  && response.GateId == old(response.GateId)
                  && session.closesScheduled == old(session.closesScheduled) + 1)
            && (!d.Reject? ==> gateRequest == Some((gate.actorId, request.Account.value)))
            && (!d.Reject? && answer.G2R_GetLoginKey? ==>
                  && raised == None
                  && response.Error == old(response.Error)
                  && response.Address == Some(gate.innerIPPort)
                  && response.Key == answer.Key && response.GateId == answer.GateId
                  && session.closesScheduled == old(session.closesScheduled) + 1)
            && (!d.Reject? && answer.GateRaised? ==>
                  && raised == Some(answer.failure)
                  && response.Error == old(response.Error) && response.Address == old(response.Address)
                  && response.Key == old(response.Key) && response.GateId == old(response.GateId)
                  && session.closesScheduled == old(session.closesScheduled))
  {
    if session.hasLock {
      response.Error := ERR_AccountAlreadyOnline;
      CloseSession(session);
      return None, None;
    }
    if IsNullOrEmpty(request.Account) || IsNullOrEmpty(request.Password) {
      response.Error := ERR_LoginInfoEmpty;
      CloseSession(session);
      return None, None;
    }
    var account, password := request.Account.value, request.Password.value;
    session.hasLock := true;
    if account !in zoneDB.accounts {
      zoneDB.Save(account, password);
    } else if zoneDB.accounts[account] != password {
      response.Error := ERR_LoginPasswordError;
      CloseSession(session);
      session.hasLock := false;
      return None, None;
    }
    gateRequest := Some((gate.actorId, account));
    match answer {
      case GateRaised(failure) =>
        session.hasLock := false;
        return Some(failure), gateRequest;
      case G2R_GetLoginKey(key, gateId) =>
        response.Address := Some(gate.innerIPPort);
        response.Key := key;
        response.GateId := gateId;
        CloseSession(session);
    }
    session.hasLock := false;
    raised := None;
  }
}
