/** The Connected state (states/connected.go): the state a client is in before
    it logs in. */
module ConnectedHandler {
  import opened Wrappers
  import opened Collection
  import opened Objects
  import opened Packets
  import opened Text
  import opened StateMachine

  const MinNameBytes: nat := 3
  const MaxNameBytes: nat := 20

  const LoginFailed: string := "Invalid username or password"
  const UserExists: string := "User already exists"
  const RegisterFailed: string := "Error registering user (internal server error) - please try again later"

  /** The three ways validateUsername can reject a name. */
  datatype NameError = TooShort | TooLong | OuterSpace

  /** The text of each validation error. */
  function NameErrorText(e: NameError): string
  {
    match e
    case TooShort => "username must be at least 3 characters long"
    case TooLong => "username must be at most 20 characters long"
    case OuterSpace => "leading or trailing whitespace"
  }

  /** The denial reason registration sends for a rejected name. */
  function InvalidNameReason(e: NameError): string
  {
    "Invalid username: " + NameErrorText(e)
  }

  /** Each validation failure has its own message. */
  lemma NameErrorTextsDistinct(e1: NameError, e2: NameError)
    ensures e1 != e2 ==> NameErrorText(e1) != NameErrorText(e2)
  {
    if e1 != e2 {
      var t1, t2 := NameErrorText(e1), NameErrorText(e2);
      assert t1[0] != t2[0] || t1[20] != t2[20];
    }
  }

  /** validateUsername: the byte length must lie in [3, 20] and the name must
      neither start nor end with a space; the checks run in that order. */
  function ValidateUsername(name: string): (r: Option<NameError>)
    ensures r.None? <==> MinNameBytes <= Utf8Len(name) <= MaxNameBytes && !HasOuterSpace(name)
    ensures r == Some(TooShort) <==> Utf8Len(name) < MinNameBytes
    ensures r == Some(TooLong) <==> MaxNameBytes < Utf8Len(name)
    ensures r == Some(OuterSpace) <==> MinNameBytes <= Utf8Len(name) <= MaxNameBytes && HasOuterSpace(name)
  {
    TrimSpaceFixedPoint(name);
    if Utf8Len(name) < MinNameBytes then Some(TooShort)
    else if Utf8Len(name) > MaxNameBytes then Some(TooLong)
    else if name != TrimSpace(name) then Some(OuterSpace)
    else None
  }

  /** Name checks on concrete names: two bytes are too few, three are
      enough, a trailing space is refused. */
  lemma ValidateUsernameExamples()
    ensures ValidateUsername("ab") == Some(TooShort)
    ensures ValidateUsername("abc") == None
    ensures ValidateUsername("abc ") == Some(OuterSpace)
    ensures ValidateUsername("abcdefghijklmnopqrstu") == Some(TooLong)
  {
    assert !HasOuterSpace("abc");
    assert HasOuterSpace("abc ");
  }

  /** The reaction that changes nothing. */
  function Ignore(): Reaction
  {
    Reaction(Connected, [], None)
  }

  /** OnEnter: tell the client its id. */
  function OnEnter(self: Id): (acts: seq<Action>)
    ensures acts == [SendAs(self, IdMsg(self))]
  {
    [SendAs(self, NewId(self))]
  }

  /** handleGuestLoginRequest: no credential check of any kind. */
  function HandleGuestLogin(self: Id, senderId: Id, username: string): (r: Reaction)
    ensures senderId != self ==> r == Ignore()
    ensures senderId == self ==>
              && r.actions == [SendAs(self, NewOkResponse())]
              && r.next == Some(InGame(FreshPlayer(username), false))
    ensures r.state == Connected
    ensures forall a :: a in r.actions ==> a.SendAs?
  {
    if senderId != self then Ignore()
    else Reaction(Connected, [SendAs(self, NewOkResponse())], Some(InGame(FreshPlayer(username), false)))
  }

  /** The user's stored hash matches the password. */
  predicate CredentialsMatch(accounts: Accounts, backend: Backend, username: string, password: string)
  {
    username in accounts && backend.matches(accounts[username], password)
  }

  /** handleLoginRequest: looks the name up exactly as given; a missing user and
      a wrong password give the same denial. */
  function HandleLogin(self: Id, accounts: Accounts, backend: Backend, senderId: Id, username: string, password: string): (r: Reaction)
    ensures senderId != self ==> r == Ignore()
    ensures r.state == Connected
    ensures r.next.Some? <==> senderId == self && CredentialsMatch(accounts, backend, username, password)
    ensures r.next.Some? ==>
              && r.actions == [SendAs(self, NewOkResponse())]
              && r.next.value == InGame(FreshPlayer(username), false)
    ensures senderId == self && !CredentialsMatch(accounts, backend, username, password) ==>
              r.actions == [SendAs(self, NewDenyResponse(LoginFailed))]
    ensures forall a :: a in r.actions ==> a.SendAs?
  {
    if senderId != self then Ignore()
    else
      var failMessage := NewDenyResponse(LoginFailed);
      if username !in accounts then Reaction(Connected, [SendAs(self, failMessage)], None)
      else if !backend.matches(accounts[username], password) then Reaction(Connected, [SendAs(self, failMessage)], None)
      else Reaction(Connected, [SendAs(self, NewOkResponse())], Some(InGame(FreshPlayer(username), false)))
  }

  /** The replies and effects of handleRegisterRequest for the client's own
      request, given the outcome of validating the name as typed and its
      lower-cased form: refuse an invalid name, then a name already taken, then
      a failed hash or store; otherwise store the user and reply Ok. */
  function RegisterActions(self: Id, accounts: Accounts, backend: Backend, lower: string, invalid: Option<NameError>): (acts: seq<Action>)
    ensures |acts| > 0 && acts[|acts| - 1].SendAs?
    ensures forall a :: a in acts ==> a.SendAs? || a.CreateUser?
  {
    match invalid
    case Some(e) => [SendAs(self, NewDenyResponse(InvalidNameReason(e)))]
    case None =>
      if lower in accounts then [SendAs(self, NewDenyResponse(UserExists))]
      else if backend.hashed.None? || !backend.storeOk then [SendAs(self, NewDenyResponse(RegisterFailed))]
      else [CreateUser(lower, backend.hashed.value), SendAs(self, NewOkResponse())]
  }

  /** handleRegisterRequest: a request from another sender is dropped; the
      client's own request is answered by RegisterActions. Registration never
      changes state. */
  function HandleRegister(self: Id, accounts: Accounts, backend: Backend, senderId: Id, username: string, password: string): (r: Reaction)
    ensures senderId != self ==> r == Ignore()
    ensures r.state == Connected && r.next == None
    ensures forall a :: a in r.actions ==> a.SendAs? || a.CreateUser?
  {
    if senderId != self then Ignore()
    else Reaction(Connected, RegisterActions(self, accounts, backend, ToLower(username), ValidateUsername(username)), None)
  }

  /** HandleMessage: the three requests are handled; every other kind of
      message is ignored. */
  function HandleMessage(self: Id, accounts: Accounts, backend: Backend, senderId: Id, msg: Msg): (r: Reaction)
    ensures r.state == Connected
    ensures !(msg.LoginRequest? || msg.GuestLoginRequest? || msg.RegisterRequest?) ==> r == Ignore()
    ensures senderId != self ==> r == Ignore()
    ensures forall a :: a in r.actions ==> a.SendAs? || a.CreateUser?
    ensures r.next.Some? ==> r.next.value.InGame? && !r.next.value.loopStarted
  {
    match msg
    case LoginRequest(username, password) => HandleLogin(self, accounts, backend, senderId, username, password)
    case GuestLoginRequest(username) => HandleGuestLogin(self, senderId, username)
    case RegisterRequest(username, password) => HandleRegister(self, accounts, backend, senderId, username, password)
    case _ => Ignore()
  }

  /** A successful registration: the name is valid, its lower-cased form is
      new, hashing and storing succeed. */
  predicate RegisterSucceeds(accounts: Accounts, backend: Backend, username: string)
  {
    && ValidateUsername(username).None?
    && ToLower(username) !in accounts
    && backend.hashed.Some?
    && backend.storeOk
  }

  /** The four branches of handleRegisterRequest, one lemma each. */
  lemma RegisterRejectsName(self: Id, accounts: Accounts, backend: Backend, username: string, password: string)
    requires ValidateUsername(username).Some?
    ensures HandleRegister(self, accounts, backend, self, username, password).actions
              == [SendAs(self, NewDenyResponse(InvalidNameReason(ValidateUsername(username).value)))]
  {
  }

  lemma RegisterRejectsDuplicate(self: Id, accounts: Accounts, backend: Backend, username: string, password: string)
    requires ValidateUsername(username).None? && ToLower(username) in accounts
    ensures HandleRegister(self, accounts, backend, self, username, password).actions
              == [SendAs(self, NewDenyResponse(UserExists))]
  {
  }

  lemma RegisterReportsFailure(self: Id, accounts: Accounts, backend: Backend, username: string, password: string)
    requires ValidateUsername(username).None? && ToLower(username) !in accounts
    requires backend.hashed.None? || !backend.storeOk
    ensures HandleRegister(self, accounts, backend, self, username, password).actions
              == [SendAs(self, NewDenyResponse(RegisterFailed))]
  {
  }

  lemma RegisterStores(self: Id, accounts: Accounts, backend: Backend, username: string, password: string)
    requires RegisterSucceeds(accounts, backend, username)
    ensures HandleRegister(self, accounts, backend, self, username, password).actions
              == [CreateUser(ToLower(username), backend.hashed.value), SendAs(self, NewOkResponse())]
  {
  }

  /** A user is stored, and Ok is sent, exactly when the request is the
      client's own and registration succeeds; a stored user goes under the
      lower-cased name and never over an existing one. */
  lemma {:induction false} RegisterOutcome(self: Id, accounts: Accounts, backend: Backend, senderId: Id, username: string, password: string)
    ensures (exists a :: a in HandleRegister(self, accounts, backend, senderId, username, password).actions && a.CreateUser?) <==>
              senderId == self && RegisterSucceeds(accounts, backend, username)
    ensures SendAs(self, NewOkResponse()) in HandleRegister(self, accounts, backend, senderId, username, password).actions <==>
              senderId == self && RegisterSucceeds(accounts, backend, username)
    ensures forall a :: a in HandleRegister(self, accounts, backend, senderId, username, password).actions && a.CreateUser? ==>
              a.name == ToLower(username) && a.name !in accounts
  {
    var acts := HandleRegister(self, accounts, backend, senderId, username, password).actions;
    if senderId != self {
    } else if ValidateUsername(username).Some? {
      RegisterRejectsName(self, accounts, backend, username, password);
    } else if ToLower(username) in accounts {
      RegisterRejectsDuplicate(self, accounts, backend, username, password);
    } else if backend.hashed.None? || !backend.storeOk {
      RegisterReportsFailure(self, accounts, backend, username, password);
    } else {
      RegisterStores(self, accounts, backend, username, password);
      assert acts[0].CreateUser?;
    }
  }

  /** A duplicate is detected on the lower-cased name: once "alice" exists,
      "Alice" is refused. */
  lemma RegisterDuplicateCaseFolded(self: Id, backend: Backend, hash: string)
    ensures HandleRegister(self, map["alice" := hash], backend, self, "Alice", "pw").actions
              == [SendAs(self, NewDenyResponse(UserExists))]
  {
    assert ToLower("Alice") == "alice";
    assert ValidateUsername("Alice") == None by {
      assert !HasOuterSpace("Alice");
    }
  }

  /** Missing user and wrong password are indistinguishable to the client. */
  lemma LoginFailuresIndistinguishable(self: Id, accounts: Accounts, backend: Backend, missing: string, known: string, p1: string, p2: string)
    requires missing !in accounts
    requires known in accounts && !backend.matches(accounts[known], p2)
    ensures HandleLogin(self, accounts, backend, self, missing, p1) == HandleLogin(self, accounts, backend, self, known, p2)
  {
  }

  /** Login does not lower-case: a name that is stored only in lower case is
      refused when typed with upper-case letters. Together with registration
      storing the lower-cased name, a user who registered as "Alice" can only
      log in as "alice". */
  lemma LoginIsCaseSensitive(self: Id, backend: Backend, hash: string, password: string)
    requires backend.matches(hash, password)
    ensures HandleLogin(self, map["alice" := hash], backend, self, "Alice", password).next == None
    ensures HandleLogin(self, map["alice" := hash], backend, self, "alice", password).next
              == Some(InGame(FreshPlayer("alice"), false))
  {
    assert "Alice" != "alice" by { assert "Alice"[0] != "alice"[0]; }
  }
}
