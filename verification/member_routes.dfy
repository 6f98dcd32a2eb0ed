/**
  The member routes: change a member's role, remove a member. Both address
  the row by id and by the caller's organization, so an id from another
  organization matches nothing and the reply is still 204.
 */
module MemberRoutes {
  import opened Schema
  import opened Http
  import opened Permissions
  import opened AuthMiddleware

  const UpdateMemberDenied := "You are not allowed to update this member."
  const RemoveMemberDenied := "You are not allowed to remove this member from the organization."

  /** Membership row `m` exists and belongs to organization `o`. */
  ghost predicate MemberOf(s: Store, m: Id, o: Id) {
    m in s.members && s.members[m].organizationId == o
  }

  // ---------------------------------------------------------------------
  // PUT /organizations/:slug/members/:memberId
  // ---------------------------------------------------------------------

  ghost function UpdateMember(s: Store, allowed: Allowed, session: Session, slug: string, memberId: Id, role: Role): (r: Result<Step>)
    ensures Guard(s, allowed, session, slug, Update, UserKind, UpdateMemberDenied).Err? ==>
      r == Err(Guard(s, allowed, session, slug, Update, UserKind, UpdateMemberDenied).error)
    ensures Guard(s, allowed, session, slug, Update, UserKind, UpdateMemberDenied).Ok? ==>
      var o := Guard(s, allowed, session, slug, Update, UserKind, UpdateMemberDenied).value.orgId;
      && r.Ok? && r.value.reply == NoContent
      && (MemberOf(s, memberId, o) ==>
            r.value.store == s.(members := s.members[memberId := s.members[memberId].(role := role)]))
      && (!MemberOf(s, memberId, o) ==> r.value.store == s)
  {
    var ctx :- Guard(s, allowed, session, slug, Update, UserKind, UpdateMemberDenied);
    if MemberOf(s, memberId, ctx.orgId) then
      Ok(Step(s.(members := s.members[memberId := s.members[memberId].(role := role)]), NoContent))
    else
      Ok(Step(s, NoContent))
  }

  lemma UpdateMemberKeepsValid(s: Store, allowed: Allowed, session: Session, slug: string, memberId: Id, role: Role)
    requires Valid(s)
    ensures UpdateMember(s, allowed, session, slug, memberId, role).Ok? ==>
      Valid(UpdateMember(s, allowed, session, slug, memberId, role).value.store)
  {
    if memberId in s.members {
      SetRoleKeepsValid(s, memberId, role);
    }
  }

  lemma SetRoleKeepsValid(s: Store, m: Id, role: Role)
    requires Valid(s) && m in s.members
    ensures Valid(s.(members := s.members[m := s.members[m].(role := role)]))
  {
    SetRolesKeepsValid(s, s.members[m := s.members[m].(role := role)]);
  }

  /** Only the caller's organization is touched, and afterwards the member,
      when it belongs to that organization, resolves with the new role. */
  lemma UpdatedRoleResolves(s: Store, allowed: Allowed, session: Session, slug: string, memberId: Id, role: Role)
    requires Valid(s)
    requires UpdateMember(s, allowed, session, slug, memberId, role).Ok?
    ensures var s', o := UpdateMember(s, allowed, session, slug, memberId, role).value.store,
                         Guard(s, allowed, session, slug, Update, UserKind, UpdateMemberDenied).value.orgId;
      && ScopedTo(s, s', o)
      && (MemberOf(s, memberId, o) ==>
            GetUserMembership(s', Some(s.members[memberId].userId), slug).Ok? &&
            GetUserMembership(s', Some(s.members[memberId].userId), slug).value.membership.role == role)
  {
    var o := Guard(s, allowed, session, slug, Update, UserKind, UpdateMemberDenied).value.orgId;
    if MemberOf(s, memberId, o) {
      SetRoleResolves(s, memberId, role, slug);
      OwnMemberUpdateIsScoped(s, memberId, role);
    }
  }

  lemma OwnMemberUpdateIsScoped(s: Store, m: Id, role: Role)
    requires m in s.members
    ensures ScopedTo(s, s.(members := s.members[m := s.members[m].(role := role)]), s.members[m].organizationId)
  {
  }

  lemma SetRoleResolves(s: Store, m: Id, role: Role, slug: string)
    requires Valid(s) && m in s.members
    requires s.organizations[s.members[m].organizationId].slug == slug
    ensures var s' := s.(members := s.members[m := s.members[m].(role := role)]);
      && GetUserMembership(s', Some(s.members[m].userId), slug).Ok?
      && GetUserMembership(s', Some(s.members[m].userId), slug).value.membership.role == role
  {
    var s' := s.(members := s.members[m := s.members[m].(role := role)]);
    SetRoleKeepsValid(s, m, role);
    assert IsMembershipOf(s', s.members[m].userId, slug, s.members[m].organizationId, m);
    MembershipResolves(s', s.members[m].userId, slug, s.members[m].organizationId, m);
  }

  // ---------------------------------------------------------------------
  // DELETE /organizations/:slug/members/:memberId
  // ---------------------------------------------------------------------

  ghost function RemoveMember(s: Store, allowed: Allowed, session: Session, slug: string, memberId: Id): (r: Result<Step>)
    ensures Guard(s, allowed, session, slug, Delete, UserKind, RemoveMemberDenied).Err? ==>
      r == Err(Guard(s, allowed, session, slug, Delete, UserKind, RemoveMemberDenied).error)
    ensures Guard(s, allowed, session, slug, Delete, UserKind, RemoveMemberDenied).Ok? ==>
      var o := Guard(s, allowed, session, slug, Delete, UserKind, RemoveMemberDenied).value.orgId;
      && r.Ok? && r.value.reply == NoContent
      && (MemberOf(s, memberId, o) ==> r.value.store == s.(members := s.members - {memberId}))
      && (!MemberOf(s, memberId, o) ==> r.value.store == s)
  {
    var ctx :- Guard(s, allowed, session, slug, Delete, UserKind, RemoveMemberDenied);
    if MemberOf(s, memberId, ctx.orgId) then
      Ok(Step(s.(members := s.members - {memberId}), NoContent))
    else
      Ok(Step(s, NoContent))
  }

  lemma RemoveMemberKeepsValidRoute(s: Store, allowed: Allowed, session: Session, slug: string, memberId: Id)
    requires Valid(s)
    ensures RemoveMember(s, allowed, session, slug, memberId).Ok? ==>
      Valid(RemoveMember(s, allowed, session, slug, memberId).value.store)
  {
    RemoveMemberKeepsValid(s, memberId);
  }

  /** A removed member loses access: the organization no longer resolves for
      that user, and nothing outside the organization changes. */
  lemma RemovedMemberLosesAccess(s: Store, allowed: Allowed, session: Session, slug: string, memberId: Id)
    requires Valid(s)
    requires RemoveMember(s, allowed, session, slug, memberId).Ok?
    ensures var s', o := RemoveMember(s, allowed, session, slug, memberId).value.store,
                         Guard(s, allowed, session, slug, Delete, UserKind, RemoveMemberDenied).value.orgId;
      && ScopedTo(s, s', o)
      && (MemberOf(s, memberId, o) ==>
            GetUserMembership(s', Some(s.members[memberId].userId), slug) == Err(Unauthorized(NotAMember)))
  {
    var o := Guard(s, allowed, session, slug, Delete, UserKind, RemoveMemberDenied).value.orgId;
    if MemberOf(s, memberId, o) {
      RemovedMembershipIsGone(s, memberId, slug);
      OwnMemberRemovalIsScoped(s, memberId);
    }
  }

  lemma OwnMemberRemovalIsScoped(s: Store, m: Id)
    requires m in s.members
    ensures ScopedTo(s, s.(members := s.members - {m}), s.members[m].organizationId)
  {
  }

  lemma RemovedMembershipIsGone(s: Store, m: Id, slug: string)
    requires OrgSlugsUnique(s.organizations) && MembershipsUnique(s.members)
    requires m in s.members && s.members[m].organizationId in s.organizations
    requires s.organizations[s.members[m].organizationId].slug == slug
    ensures GetUserMembership(s.(members := s.members - {m}), Some(s.members[m].userId), slug)
         == Err(Unauthorized(NotAMember))
  {
    var s' := s.(members := s.members - {m});
    var u, o := s.members[m].userId, s.members[m].organizationId;
    assert forall o2, m2 :: IsMembershipOf(s, u, slug, o2, m2) ==> o2 == o && m2 == m;
    assert forall o2, m2 :: !IsMembershipOf(s', u, slug, o2, m2);
  }
}
