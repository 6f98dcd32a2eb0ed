/**
  The account routes: sign-up, password sign-in, and the password-recovery
  pair (issue a recovery token, redeem it). bcrypt's `hash` and `compare`
  are external functions passed in as parameters.
 */
module AccountRoutes {
  import opened Schema
  import opened Http
  import opened Email

  const EmailInUse := "User with same email already exists."
  const InvalidCredentials := "Invalid credentials."
  const NoPassword := "User does not have a password. Use social login."
  /** `new UnauthorizedError()` is thrown without a message; the class's default is not part of this model. */
  const NoMessage := ""
  /** `expiresIn: "7d"`. */
  const SessionLifetimeDays: nat := 7

  // ---------------------------------------------------------------------
  // POST /users
  // ---------------------------------------------------------------------

  /** Organization `o` takes in new users of this e-mail's domain. */
  ghost predicate AutoJoins(s: Store, email: string, o: Id): (b: bool)
    ensures b ==> '@' in email && o in s.organizations
    ensures b ==> && s.organizations[o].shouldAttachUsersByDomain
                  && s.organizations[o].domain.Some?
                  && '@' !in s.organizations[o].domain.value
  {
    && o in s.organizations
    && DomainOf(email).Some?
    && s.organizations[o].domain == DomainOf(email)
    && s.organizations[o].shouldAttachUsersByDomain
  }

  /** `select from organizations where domain = ? and should_attach_users_by_domain`. */
  ghost function AutoJoinOrganization(s: Store, email: string): (r: Option<Id>)
    ensures r.Some? ==> AutoJoins(s, email, r.value)
    ensures r.None? ==> forall o :: !AutoJoins(s, email, o)
    ensures r.Some? && OrgDomainsUnique(s.organizations) ==> forall o :: AutoJoins(s, email, o) ==> o == r.value
  {
    if exists o :: AutoJoins(s, email, o) then
      var o :| AutoJoins(s, email, o); Some(o)
    else
      None
  }

  /** Sign-up. The e-mail must be unused; the user row and, when an
      organization attaches users of the e-mail's domain, a membership in it
      with the default role are inserted in one transaction. */
  ghost function CreateAccount(s: Store, hash: string -> Hash, name: string, email: string, password: string): (r: Result<Step>)
    ensures r.Err? <==> HasUserWithEmail(s, email)
    ensures r.Err? ==> r.error == BadRequest(EmailInUse)
    ensures r.Ok? ==>
      var s', u := r.value.store, NewId(s);
      && r.value.reply == Created
      && s'.users == s.users[u := User(Some(name), email, Some(hash(password)))]
      && (AutoJoinOrganization(s, email).None? ==> s'.members == s.members)
      && (AutoJoinOrganization(s, email).Some? ==>
            s'.members == s.members[u + 1 := Member(DefaultMemberRole, AutoJoinOrganization(s, email).value, u)])
      && s'.tokens == s.tokens && s'.organizations == s.organizations
      && s'.invites == s.invites && s'.projects == s.projects
  {
    if HasUserWithEmail(s, email) then
      Err(BadRequest(EmailInUse))
    else
      var s1 := AddUser(s, User(Some(name), email, Some(hash(password))));
      match AutoJoinOrganization(s, email)
      case None => Ok(Step(s1, Created))
      case Some(o) => Ok(Step(AddMember(s1, Member(DefaultMemberRole, o, NewId(s))), Created))
  }

  /** Sign-up passes every constraint of the schema. */
  lemma CreateAccountKeepsValid(s: Store, hash: string -> Hash, name: string, email: string, password: string)
    requires Valid(s)
    ensures CreateAccount(s, hash, name, email, password).Ok? ==>
      Valid(CreateAccount(s, hash, name, email, password).value.store)
  {
    if !HasUserWithEmail(s, email) {
      var u := NewId(s);
      var user := User(Some(name), email, Some(hash(password)));
      var s1 := AddUser(s, user);
      AddUserKeepsValid(s, user);
      var aj := AutoJoinOrganization(s, email);
      if aj.Some? {
        assert !IsMemberOf(s1, u, aj.value) by {
          assert forall k :: k in s1.members ==> s1.members[k].userId in s.users;
        }
        AddMemberKeepsValid(s1, Member(DefaultMemberRole, aj.value, u));
      }
    }
  }

  /** A new account is a member of exactly the organizations that attach
      users of its e-mail's domain: at most one, since domains are unique. */
  lemma SignUpJoinsIffDomainAttaches(s: Store, hash: string -> Hash, name: string, email: string, password: string)
    requires Valid(s)
    ensures CreateAccount(s, hash, name, email, password).Ok? ==>
      forall o: Id :: IsMemberOf(CreateAccount(s, hash, name, email, password).value.store, NewId(s), o)
                      <==> AutoJoins(s, email, o)
  {
    var r := CreateAccount(s, hash, name, email, password);
    if r.Ok? {
      FreshUserHasNoMembership(s);
      NewUserMemberships(s, r.value.store, NewId(s), AutoJoinOrganization(s, email));
    }
  }

  lemma FreshUserHasNoMembership(s: Store)
    requires Valid(s)
    ensures forall m :: m in s.members ==> s.members[m].userId != NewId(s)
  {
    assert MembersReferenceRows(s.members, s.organizations, s.users);
  }

  /** The new user `u` has no membership before the insert, and the
      insert adds at most the one into `joined`. */
  lemma NewUserMemberships(s: Store, s': Store, u: Id, joined: Option<Id>)
    requires forall m :: m in s.members ==> s.members[m].userId != u
    requires joined.None? ==> s'.members == s.members
    requires joined.Some? ==> s'.members == s.members[u + 1 := Member(DefaultMemberRole, joined.value, u)]
    ensures forall o: Id :: IsMemberOf(s', u, o) <==> joined == Some(o)
  {
    if joined.Some? {
      assert s'.members[u + 1].organizationId == joined.value;
    }
  }

  // ---------------------------------------------------------------------
  // POST /sessions/password
  // ---------------------------------------------------------------------

  /** The credential check. The database is only read. */
  ghost function AuthenticateWithPassword(s: Store, compare: (string, Hash) -> bool, email: string, password: string): (r: Result<SessionToken>)
    requires Valid(s)
    ensures !HasUserWithEmail(s, email) ==> r == Err(BadRequest(InvalidCredentials))
    ensures HasUserWithEmail(s, email) && s.users[UserWithEmail(s, email)].passwordHash.None? ==>
      r == Err(BadRequest(NoPassword))
    ensures (&& HasUserWithEmail(s, email)
             && s.users[UserWithEmail(s, email)].passwordHash.Some?
             && !compare(password, s.users[UserWithEmail(s, email)].passwordHash.value)) ==>
      r == Err(BadRequest(InvalidCredentials))
    ensures r.Ok? <==> exists k :: (&& k in s.users && s.users[k].email == email
      && s.users[k].passwordHash.Some? && compare(password, s.users[k].passwordHash.value))
    ensures r.Ok? ==>
      && r.value.sub in s.users
      && s.users[r.value.sub].email == email
      && r.value.expiresInDays == SessionLifetimeDays
  {
    if !HasUserWithEmail(s, email) then
      Err(BadRequest(InvalidCredentials))
    else
      var id := UserWithEmail(s, email);
      var user := s.users[id];
      if user.passwordHash.None? then
        Err(BadRequest(NoPassword))
      else if !compare(password, user.passwordHash.value) then
        Err(BadRequest(InvalidCredentials))
      else
        Ok(SessionToken(id, SessionLifetimeDays))
  }

  // ---------------------------------------------------------------------
  // POST /password/recover
  // ---------------------------------------------------------------------

  /** Issues a recovery token when the e-mail belongs to a user. The reply is
      the same empty 201 whether or not it does. */
  ghost function RequestPasswordRecover(s: Store, email: string): (r: Step)
    ensures r.reply == Created
    ensures !HasUserWithEmail(s, email) ==> r.store == s
    ensures HasUserWithEmail(s, email) ==>
      && r.store.tokens == s.tokens[NewId(s) := Token(PASSWORD_RECOVER, UserWithEmail(s, email))]
      && r.store.users == s.users && r.store.organizations == s.organizations
      && r.store.invites == s.invites && r.store.members == s.members && r.store.projects == s.projects
  {
    if !HasUserWithEmail(s, email) then
      Step(s, Created)
    else
      Step(AddToken(s, Token(PASSWORD_RECOVER, UserWithEmail(s, email))), Created)
  }

  /** Issuing a recovery token passes every constraint of the schema. */
  lemma RequestPasswordRecoverKeepsValid(s: Store, email: string)
    requires Valid(s)
    ensures Valid(RequestPasswordRecover(s, email).store)
  {
    if HasUserWithEmail(s, email) {
      AddTokenKeepsValid(s, Token(PASSWORD_RECOVER, UserWithEmail(s, email)));
    }
  }

  // ---------------------------------------------------------------------
  // POST /password/reset
  // ---------------------------------------------------------------------

  /** Redeems token `code`: any existing token is accepted, whatever its type
      or age; the owner's password hash is replaced and the token deleted, in
      one transaction. */
  ghost function ResetPassword(s: Store, hash: string -> Hash, code: Id, password: string): (r: Result<Step>)
    requires Valid(s)
    ensures r.Err? <==> code !in s.tokens
    ensures r.Err? ==> r.error == Unauthorized(NoMessage)
    ensures r.Ok? ==>
      var s', owner := r.value.store, s.tokens[code].userId;
      && r.value.reply == NoContent
      && s'.users.Keys == s.users.Keys
      && s'.users[owner] == s.users[owner].(passwordHash := Some(hash(password)))
      && (forall k :: k in s.users && k != owner ==> s'.users[k] == s.users[k])
      && s'.tokens == s.tokens - {code}
      && s'.organizations == s.organizations && s'.invites == s.invites
      && s'.members == s.members && s'.projects == s.projects
  {
    if code !in s.tokens then
      Err(Unauthorized(NoMessage))
    else
      var owner := s.tokens[code].userId;
      var passwordHash := hash(password);
      var users := if owner in s.users then s.users[owner := s.users[owner].(passwordHash := Some(passwordHash))] else s.users;
      Ok(Step(s.(users := users, tokens := s.tokens - {code}), NoContent))
  }

  /** Redeeming a token passes every constraint of the schema. */
  lemma ResetPasswordKeepsValid(s: Store, hash: string -> Hash, code: Id, password: string)
    requires Valid(s)
    ensures ResetPassword(s, hash, code, password).Ok? ==> Valid(ResetPassword(s, hash, code, password).value.store)
  {
    if code in s.tokens {
      var owner := s.tokens[code].userId;
      var users := s.users[owner := s.users[owner].(passwordHash := Some(hash(password)))];
      var tokens := s.tokens - {code};
      assert KeysBelow(users, s.nextId) && KeysBelow(tokens, s.nextId);
      assert EmailsUnique(users);
      MoreUsersKeepForeignKeys(s, users);
      assert TokensReferenceUsers(tokens, users);
    }
  }

  /** A recovery code works once: after a reset, the same code is refused. */
  lemma RecoveryCodeIsSingleUse(s: Store, hash: string -> Hash, code: Id, password: string, again: string)
    requires Valid(s)
    requires ResetPassword(s, hash, code, password).Ok?
    ensures Valid(ResetPassword(s, hash, code, password).value.store)
    ensures ResetPassword(ResetPassword(s, hash, code, password).value.store, hash, code, again)
         == Err(Unauthorized(NoMessage))
  {
    ResetPasswordKeepsValid(s, hash, code, password);
  }

  /** A recovery request followed by a reset with the issued code sets the
      requesting user's password and leaves no token behind for it. */
  lemma RecoverThenReset(s: Store, hash: string -> Hash, email: string, password: string)
    requires Valid(s)
    requires HasUserWithEmail(s, email)
    ensures Valid(RequestPasswordRecover(s, email).store)
    ensures var s1 := RequestPasswordRecover(s, email).store;
      var r := ResetPassword(s1, hash, NewId(s), password);
      && r.Ok?
      && r.value.store.users[UserWithEmail(s, email)].passwordHash == Some(hash(password))
      && r.value.store.tokens == s.tokens
  {
    RequestPasswordRecoverKeepsValid(s, email);
  }
}
