/**
  The invite routes: an organization creates and revokes invites; the
  invited user may reject one.
 */
module InviteRoutes {
  import opened Schema
  import opened Http
  import opened Email
  import opened Permissions
  import opened AuthMiddleware
  import opened AccountRoutes

  const InviteDenied := "You are not allowed to create new invites."
  const InviteExists := "Another invite with same e-mail already exists."
  const RevokeDenied := "You are not allowed to revoke an invite."
  const InviteNotFound := "Invite not found"
  const InviteNotFoundOrExpired := "Invite not found or expired"
  const UserNotFound := "User not found."
  const InviteOfAnother := "This invite belongs to another user."

  /** The message for an e-mail whose domain the organization already attaches. */
  function WillAutoJoin(domain: string): string {
    "Users with \"" + domain + "\" domain will join your automatically on login."
  }

  /** `organization.shouldAttachUsersByDomain && organization.domain === domain`:
      a null column never equals a missing domain. */
  predicate AttachesDomainOf(org: Organization, email: string): (b: bool)
    ensures b ==> '@' in email && org.domain.Some? && '@' !in org.domain.value
    ensures b ==> org.shouldAttachUsersByDomain
  {
    org.shouldAttachUsersByDomain && org.domain.Some? && org.domain == DomainOf(email)
  }

  // ---------------------------------------------------------------------
  // POST /organizations/:slug/invites
  // ---------------------------------------------------------------------

  ghost function CreateInvite(s: Store, allowed: Allowed, session: Session, slug: string,
                              email: string, role: Role): (r: Result<Step>)
    ensures Guard(s, allowed, session, slug, Create, InviteKind, InviteDenied).Err? ==>
      r == Err(Guard(s, allowed, session, slug, Create, InviteKind, InviteDenied).error)
    ensures Guard(s, allowed, session, slug, Create, InviteKind, InviteDenied).Ok? ==>
      var ctx := Guard(s, allowed, session, slug, Create, InviteKind, InviteDenied).value;
      && (AttachesDomainOf(ctx.organization, email) ==>
            r == Err(BadRequest(WillAutoJoin(DomainOf(email).value))))
      && (!AttachesDomainOf(ctx.organization, email) && HasInvite(s, email, ctx.orgId) ==>
            r == Err(BadRequest(InviteExists)))
      && (!AttachesDomainOf(ctx.organization, email) && !HasInvite(s, email, ctx.orgId) ==>
            && r.Ok?
            && r.value.reply == CreatedInvite(NewId(s))
            && r.value.store == s.(invites := s.invites[NewId(s) := Invite(email, role, ctx.orgId)],
                                   nextId := NewId(s) + 1))
  {
    var ctx :- Guard(s, allowed, session, slug, Create, InviteKind, InviteDenied);
    if AttachesDomainOf(ctx.organization, email) then
      Err(BadRequest(WillAutoJoin(DomainOf(email).value)))
    else if HasInvite(s, email, ctx.orgId) then
      Err(BadRequest(InviteExists))
    else
      Ok(Step(AddInvite(s, Invite(email, role, ctx.orgId)), CreatedInvite(NewId(s))))
  }

  lemma CreateInviteKeepsValid(s: Store, allowed: Allowed, session: Session, slug: string, email: string, role: Role)
    requires Valid(s)
    ensures CreateInvite(s, allowed, session, slug, email, role).Ok? ==>
      Valid(CreateInvite(s, allowed, session, slug, email, role).value.store)
  {
    var g := Guard(s, allowed, session, slug, Create, InviteKind, InviteDenied);
    if CreateInvite(s, allowed, session, slug, email, role).Ok? {
      AddInviteKeepsValid(s, Invite(email, role, g.value.orgId));
    }
  }

  /** The invite is refused as pointless exactly when sign-up would already
      put a user with this e-mail into the organization. */
  lemma InviteRefusedIffSignUpJoins(s: Store, allowed: Allowed, session: Session, slug: string, email: string, role: Role)
    requires Guard(s, allowed, session, slug, Create, InviteKind, InviteDenied).Ok?
    ensures var o := Guard(s, allowed, session, slug, Create, InviteKind, InviteDenied).value.orgId;
      AutoJoins(s, email, o) <==>
        && DomainOf(email).Some?
        && CreateInvite(s, allowed, session, slug, email, role) == Err(BadRequest(WillAutoJoin(DomainOf(email).value)))
  {
    if DomainOf(email).Some? {
      MessagesDiffer(DomainOf(email).value);
    }
  }

  lemma MessagesDiffer(domain: string)
    ensures WillAutoJoin(domain) != InviteExists
  {
    assert WillAutoJoin(domain)[0] == 'U';
  }

  /** An organization holds at most one invite per e-mail: repeating a
      successful request is refused. */
  lemma SecondInviteRefused(s: Store, allowed: Allowed, session: Session, slug: string,
                            email: string, role: Role, role2: Role)
    requires Valid(s)
    requires CreateInvite(s, allowed, session, slug, email, role).Ok?
    ensures CreateInvite(CreateInvite(s, allowed, session, slug, email, role).value.store,
                         allowed, session, slug, email, role2) == Err(BadRequest(InviteExists))
  {
    var s' := CreateInvite(s, allowed, session, slug, email, role).value.store;
    var ctx := Guard(s, allowed, session, slug, Create, InviteKind, InviteDenied).value;
    CreateInviteKeepsValid(s, allowed, session, slug, email, role);
    assert IsMembershipOf(s', session.value, slug, ctx.orgId, ctx.memberId);
    MembershipResolves(s', session.value, slug, ctx.orgId, ctx.memberId);
    assert HasInvite(s', email, ctx.orgId) by {
      assert s'.invites[NewId(s)] == Invite(email, role, ctx.orgId);
    }
  }

  // ---------------------------------------------------------------------
  // DELETE /organizations/:slug/invites/:inviteId
  // ---------------------------------------------------------------------

  /** Invite `i` exists and belongs to organization `o`. */
  ghost predicate InviteOf(s: Store, i: Id, o: Id) {
    i in s.invites && s.invites[i].organizationId == o
  }

  ghost function RevokeInvite(s: Store, allowed: Allowed, session: Session, slug: string, inviteId: Id): (r: Result<Step>)
    ensures Guard(s, allowed, session, slug, Delete, InviteKind, RevokeDenied).Err? ==>
      r == Err(Guard(s, allowed, session, slug, Delete, InviteKind, RevokeDenied).error)
    ensures Guard(s, allowed, session, slug, Delete, InviteKind, RevokeDenied).Ok? ==>
      var o := Guard(s, allowed, session, slug, Delete, InviteKind, RevokeDenied).value.orgId;
      && (!InviteOf(s, inviteId, o) ==> r == Err(NotFound(InviteNotFound)))
      && (InviteOf(s, inviteId, o) ==> r == Ok(Step(s.(invites := s.invites - {inviteId}), NoContent)))
  {
    var ctx :- Guard(s, allowed, session, slug, Delete, InviteKind, RevokeDenied);
    if !InviteOf(s, inviteId, ctx.orgId) then
      Err(NotFound(InviteNotFound))
    else
      Ok(Step(s.(invites := s.invites - {inviteId}), NoContent))
  }

  /** Revoking never reaches another organization's invites. */
  lemma RevokeInviteIsScoped(s: Store, allowed: Allowed, session: Session, slug: string, inviteId: Id)
    ensures var r := RevokeInvite(s, allowed, session, slug, inviteId);
      r.Ok? ==> ScopedTo(s, r.value.store, Guard(s, allowed, session, slug, Delete, InviteKind, RevokeDenied).value.orgId)
  {
    if RevokeInvite(s, allowed, session, slug, inviteId).Ok? {
      var o := Guard(s, allowed, session, slug, Delete, InviteKind, RevokeDenied).value.orgId;
      RemovingOwnInviteIsScoped(s, inviteId, o);
    }
  }

  lemma RemovingOwnInviteIsScoped(s: Store, i: Id, o: Id)
    requires InviteOf(s, i, o)
    ensures ScopedTo(s, s.(invites := s.invites - {i}), o)
  {
  }

  lemma RevokeInviteKeepsValid(s: Store, allowed: Allowed, session: Session, slug: string, inviteId: Id)
    requires Valid(s)
    ensures RevokeInvite(s, allowed, session, slug, inviteId).Ok? ==>
      Valid(RevokeInvite(s, allowed, session, slug, inviteId).value.store)
  {
    RemoveInviteKeepsValid(s, inviteId);
  }

  // ---------------------------------------------------------------------
  // DELETE /invites/:inviteId/reject
  // ---------------------------------------------------------------------

  ghost function RejectInvite(s: Store, session: Session, inviteId: Id): (r: Result<Step>)
    ensures session.None? ==> r == Err(Unauthorized(InvalidAuthToken))
    ensures session.Some? && inviteId !in s.invites ==> r == Err(NotFound(InviteNotFoundOrExpired))
    ensures session.Some? && inviteId in s.invites && session.value !in s.users ==> r == Err(NotFound(UserNotFound))
    ensures r.Ok? <==>
      && session.Some? && inviteId in s.invites && session.value in s.users
      && s.invites[inviteId].email == s.users[session.value].email
    ensures (&& session.Some? && inviteId in s.invites && session.value in s.users
             && s.invites[inviteId].email != s.users[session.value].email) ==>
      r == Err(BadRequest(InviteOfAnother))
    ensures r.Ok? ==> r.value == Step(s.(invites := s.invites - {inviteId}), NoContent)
  {
    var userId :- GetCurrentUserId(session);
    if inviteId !in s.invites then
      Err(NotFound(InviteNotFoundOrExpired))
    else if userId !in s.users then
      Err(NotFound(UserNotFound))
    else if s.invites[inviteId].email != s.users[userId].email then
      Err(BadRequest(InviteOfAnother))
    else
      Ok(Step(s.(invites := s.invites - {inviteId}), NoContent))
  }

  /** Only the invited user can reject an invite: any other signed-in user
      gets an error and the invite stays. */
  lemma OnlyInviteeRejects(s: Store, session: Session, inviteId: Id)
    requires Valid(s)
    requires session.Some? && inviteId in s.invites
    ensures RejectInvite(s, session, inviteId).Ok? <==>
      HasUserWithEmail(s, s.invites[inviteId].email) && session.value == UserWithEmail(s, s.invites[inviteId].email)
  {
  }

  lemma RejectInviteKeepsValid(s: Store, session: Session, inviteId: Id)
    requires Valid(s)
    ensures RejectInvite(s, session, inviteId).Ok? ==> Valid(RejectInvite(s, session, inviteId).value.store)
  {
    RemoveInviteKeepsValid(s, inviteId);
  }
}
