/**
  The organization routes: create, update, transfer ownership, shut down.
  Every route but create runs the `Guard` preamble on the organization named
  by the `slug` path parameter.
 */
module OrganizationRoutes {
  import opened Schema
  import opened Http
  import opened Slug
  import opened Permissions
  import opened AuthMiddleware

  const DomainRequired := "Domain is required."
  const DomainTaken := "Another organization with same domain already exists."
  const UpdateDenied := "You're not allowed to update this organization."
  const TransferDenied := "You're not allowed to transfer this organization ownership."
  const TargetNotMember := "Target user is not a member of this organization."
  const ShutdownDenied := "You're not allowed to shutdown this organization."

  /** JavaScript truthiness of a nullish string: present and not empty. */
  predicate Present(d: Option<string>) {
    d.Some? && d.value != ""
  }

  /** An omitted `shouldAttachUsersByDomain` takes the column default. */
  function AttachOrDefault(attach: Option<bool>): bool {
    if attach.Some? then attach.value else DefaultAttachUsersByDomain
  }

  // ---------------------------------------------------------------------
  // POST /organizations
  // ---------------------------------------------------------------------

  /** The row `create-organization` inserts for the caller. */
  function NewOrganization(userId: Id, fold: Folding, name: string, domain: Option<string>, attach: Option<bool>): (r: Organization)
    ensures IsSlug(r.slug) && (name != [] ==> Undash(r.slug) == Alnums(fold(name)))
    ensures r.ownerId == userId && r.domain == domain
    ensures r.name == name
    ensures attach.Some? ==> r.shouldAttachUsersByDomain == attach.value
    ensures attach.None? ==> !r.shouldAttachUsersByDomain
  {
    Organization(name, CreateSlug(name, fold), domain, AttachOrDefault(attach), userId)
  }

  ghost function CreateOrganization(s: Store, fold: Folding, session: Session, name: string,
                                    domain: Option<string>, attach: Option<bool>): (r: Result<Step>)
    ensures r.Ok? <==>
      && session.Some? && Present(domain) && !DomainHeld(s, domain.value)
      && !OrgSlugHeld(s, CreateSlug(name, fold)) && session.value in s.users
    ensures r.Ok? ==>
      var s', o := r.value.store, NewId(s);
      && r.value.reply == CreatedOrganization(o)
      && s'.organizations == s.organizations[o := NewOrganization(session.value, fold, name, domain, attach)]
      && s'.members == s.members[o + 1 := Member(ADMIN, o, session.value)]
      && s'.users == s.users && s'.tokens == s.tokens
      && s'.invites == s.invites && s'.projects == s.projects
  {
    var userId :- GetCurrentUserId(session);
    if !Present(domain) then
      Err(BadRequest(DomainRequired))
    else if DomainHeld(s, domain.value) then
      Err(BadRequest(DomainTaken))
    else
      var org := NewOrganization(userId, fold, name, domain, attach);
      // the unique `slug` column and the `owner_id` foreign key are the database's checks
      if OrgSlugHeld(s, org.slug) || userId !in s.users then
        Err(ConstraintViolation)
      else
        var o := NewId(s);
        var s1 := AddOrganization(s, org);
        Ok(Step(AddMember(s1, Member(ADMIN, o, userId)), CreatedOrganization(o)))
  }

  /** The refusals, in the order the route checks them. */
  lemma CreateOrganizationRefusals(s: Store, fold: Folding, session: Session, name: string,
                                   domain: Option<string>, attach: Option<bool>)
    ensures var r := CreateOrganization(s, fold, session, name, domain, attach);
      && (session.None? ==> r == Err(Unauthorized(InvalidAuthToken)))
      && (session.Some? && !Present(domain) ==> r == Err(BadRequest(DomainRequired)))
      && (session.Some? && Present(domain) && DomainHeld(s, domain.value) ==> r == Err(BadRequest(DomainTaken)))
      && ((&& session.Some? && Present(domain) && !DomainHeld(s, domain.value)
           && (OrgSlugHeld(s, CreateSlug(name, fold)) || session.value !in s.users)) ==>
            r == Err(ConstraintViolation))
  {
  }

  lemma CreateOrganizationKeepsValid(s: Store, fold: Folding, session: Session, name: string,
                                     domain: Option<string>, attach: Option<bool>)
    requires Valid(s)
    ensures CreateOrganization(s, fold, session, name, domain, attach).Ok? ==>
      Valid(CreateOrganization(s, fold, session, name, domain, attach).value.store)
  {
    if CreateOrganization(s, fold, session, name, domain, attach).Ok? {
      var userId := session.value;
      var org := NewOrganization(userId, fold, name, domain, attach);
      var o := NewId(s);
      AddOrganizationKeepsValid(s, org);
      var s1 := AddOrganization(s, org);
      assert !IsMemberOf(s1, userId, o) by {
        assert forall k :: k in s1.members ==> s1.members[k].organizationId in s.organizations;
      }
      AddMemberKeepsValid(s1, Member(ADMIN, o, userId));
    }
  }

  /** The creator can at once resolve the new organization by its slug, and
      is its owner and an ADMIN member of it. */
  lemma CreatorResolvesAsAdmin(s: Store, fold: Folding, session: Session, name: string,
                               domain: Option<string>, attach: Option<bool>)
    requires Valid(s)
    requires CreateOrganization(s, fold, session, name, domain, attach).Ok?
    ensures var s', o := CreateOrganization(s, fold, session, name, domain, attach).value.store, NewId(s);
      var ctx := GetUserMembership(s', session, CreateSlug(name, fold));
      && ctx.Ok?
      && ctx.value.orgId == o
      && ctx.value.membership.role == ADMIN
      && ctx.value.organization.ownerId == session.value
  {
    var s' := CreateOrganization(s, fold, session, name, domain, attach).value.store;
    var org := NewOrganization(session.value, fold, name, domain, attach);
    assert org.slug == CreateSlug(name, fold);
    InsertedMembershipResolves(s, s', session.value, org);
  }

  /** Inserting organization `org` and an ADMIN membership of `userId` in it
      makes the pair resolve by `org.slug`. */
  lemma InsertedMembershipResolves(s: Store, s': Store, userId: Id, org: Organization)
    requires Valid(s)
    requires !OrgSlugHeld(s, org.slug)
    requires org.domain.None? || !DomainHeld(s, org.domain.value)
    requires s'.organizations == s.organizations[NewId(s) := org]
    requires s'.members == s.members[NewId(s) + 1 := Member(ADMIN, NewId(s), userId)]
    ensures GetUserMembership(s', Some(userId), org.slug)
         == Ok(Context(NewId(s), org, NewId(s) + 1, Member(ADMIN, NewId(s), userId)))
  {
    var o := NewId(s);
    OrgKeysUniqueInsert(s.organizations, o, org);
    assert KeysBelow(s.members, s.nextId);
    assert MembersReferenceRows(s.members, s.organizations, s.users);
    MembershipsUniqueInsert(s.members, o + 1, Member(ADMIN, o, userId));
    assert IsMembershipOf(s', userId, org.slug, o, o + 1);
    MembershipResolves(s', userId, org.slug, o, o + 1);
  }

  // ---------------------------------------------------------------------
  // POST /organizations/:slug
  // ---------------------------------------------------------------------

  /** What the `shouldAttachUsersByDomain` column holds after an update whose
      body omits the field, as a function of its value before. The ORM's
      treatment of an `undefined` value in `set` is not part of this model,
      so the routes take it as a parameter. */
  type OmittedAttach = bool -> bool

  /** The row after `update organizations set name, domain, shouldAttachUsersByDomain`.
      The slug is not recomputed. */
  function UpdatedOrganization(org: Organization, name: string, domain: string, attach: Option<bool>,
                               omitted: OmittedAttach): (r: Organization)
    ensures r.slug == org.slug && r.ownerId == org.ownerId
    ensures r.name == name && r.domain == Some(domain)
    ensures attach.Some? ==> r.shouldAttachUsersByDomain == attach.value
  {
    org.(name := name, domain := Some(domain),
         shouldAttachUsersByDomain := if attach.Some? then attach.value else omitted(org.shouldAttachUsersByDomain))
  }

  ghost function UpdateOrganization(s: Store, allowed: Allowed, session: Session, slug: string,
                                    name: string, domain: Option<string>, attach: Option<bool>, omitted: OmittedAttach): (r: Result<Step>)
    ensures Guard(s, allowed, session, slug, Update, OwnOrganization, UpdateDenied).Err? ==>
      r == Err(Guard(s, allowed, session, slug, Update, OwnOrganization, UpdateDenied).error)
    ensures Guard(s, allowed, session, slug, Update, OwnOrganization, UpdateDenied).Ok? ==>
      var o := Guard(s, allowed, session, slug, Update, OwnOrganization, UpdateDenied).value.orgId;
      && (!Present(domain) ==> r == Ok(Step(s, NoReply)))
      && (Present(domain) && DomainHeldByOther(s, domain.value, o) ==> r == Err(BadRequest(DomainTaken)))
      && (Present(domain) && !DomainHeldByOther(s, domain.value, o) ==>
            && r.Ok? && r.value.reply == NoContent
            && r.value.store == s.(organizations := s.organizations[o := UpdatedOrganization(s.organizations[o], name, domain.value, attach, omitted)]))
  {
    var ctx :- Guard(s, allowed, session, slug, Update, OwnOrganization, UpdateDenied);
    if !Present(domain) then
      Ok(Step(s, NoReply))
    else if DomainHeldByOther(s, domain.value, ctx.orgId) then
      Err(BadRequest(DomainTaken))
    else
      var org := s.organizations[ctx.orgId];
      Ok(Step(s.(organizations := s.organizations[ctx.orgId := UpdatedOrganization(org, name, domain.value, attach, omitted)]), NoContent))
  }

  lemma UpdateOrganizationKeepsValid(s: Store, allowed: Allowed, session: Session, slug: string,
                                     name: string, domain: Option<string>, attach: Option<bool>, omitted: OmittedAttach)
    requires Valid(s)
    ensures UpdateOrganization(s, allowed, session, slug, name, domain, attach, omitted).Ok? ==>
      Valid(UpdateOrganization(s, allowed, session, slug, name, domain, attach, omitted).value.store)
  {
    var r := UpdateOrganization(s, allowed, session, slug, name, domain, attach, omitted);
    if r.Ok? && Present(domain) {
      var o := Guard(s, allowed, session, slug, Update, OwnOrganization, UpdateDenied).value.orgId;
      var org := UpdatedOrganization(s.organizations[o], name, domain.value, attach, omitted);
      SetOrganizationKeepsValid(s, o, org);
    }
  }

  /** Only the caller's organization changes, and its slug stays the same: the
      organization stays reachable under `slug`. */
  lemma UpdateOrganizationIsScoped(s: Store, allowed: Allowed, session: Session, slug: string,
                                   name: string, domain: Option<string>, attach: Option<bool>, omitted: OmittedAttach)
    ensures var r := UpdateOrganization(s, allowed, session, slug, name, domain, attach, omitted);
      r.Ok? ==>
        var o := Guard(s, allowed, session, slug, Update, OwnOrganization, UpdateDenied).value.orgId;
        && ScopedTo(s, r.value.store, o)
        && o in r.value.store.organizations
        && r.value.store.organizations[o].slug == slug
  {
    var g := Guard(s, allowed, session, slug, Update, OwnOrganization, UpdateDenied);
    if g.Ok? && Present(domain) {
      var o := g.value.orgId;
      SetOrganizationIsScoped(s, o, UpdatedOrganization(s.organizations[o], name, domain.value, attach, omitted));
    }
  }

  /** Re-submitting the organization's own domain is not a conflict: the
      lookup excludes the organization itself. */
  lemma ResubmittingOwnDomainIsAccepted(s: Store, allowed: Allowed, session: Session, slug: string,
                                         name: string, attach: Option<bool>, omitted: OmittedAttach)
    requires Valid(s)
    requires Guard(s, allowed, session, slug, Update, OwnOrganization, UpdateDenied).Ok?
    requires Present(Guard(s, allowed, session, slug, Update, OwnOrganization, UpdateDenied).value.organization.domain)
    ensures var ctx := Guard(s, allowed, session, slug, Update, OwnOrganization, UpdateDenied).value;
      UpdateOrganization(s, allowed, session, slug, name, ctx.organization.domain, attach, omitted).Ok?
  {
  }

  // ---------------------------------------------------------------------
  // PATCH /organizations/:slug/owner
  // ---------------------------------------------------------------------

  /** `update members set role = 'ADMIN' where organization_id = o and user_id = target`. */
  function PromoteToAdmin(members: map<Id, Member>, o: Id, target: Id): (r: map<Id, Member>)
    ensures r.Keys == members.Keys
    ensures forall k :: k in members ==> r[k].organizationId == members[k].organizationId && r[k].userId == members[k].userId
    ensures forall k :: k in members && members[k].organizationId == o && members[k].userId == target ==> r[k].role == ADMIN
    ensures forall k :: k in members && (members[k].organizationId != o || members[k].userId != target) ==> r[k] == members[k]
  {
    map k | k in members :: if members[k].organizationId == o && members[k].userId == target
                            then members[k].(role := ADMIN) else members[k]
  }

  ghost function TransferOrganization(s: Store, allowed: Allowed, session: Session, slug: string, target: Id): (r: Result<Step>)
    ensures Guard(s, allowed, session, slug, TransferOwnership, OwnOrganization, TransferDenied).Err? ==>
      r == Err(Guard(s, allowed, session, slug, TransferOwnership, OwnOrganization, TransferDenied).error)
    ensures Guard(s, allowed, session, slug, TransferOwnership, OwnOrganization, TransferDenied).Ok? ==>
      var o := Guard(s, allowed, session, slug, TransferOwnership, OwnOrganization, TransferDenied).value.orgId;
      && (!IsMemberOf(s, target, o) ==> r == Err(BadRequest(TargetNotMember)))
      && (IsMemberOf(s, target, o) ==> r.Ok?)
    ensures r.Ok? ==>
      var s', o := r.value.store, Guard(s, allowed, session, slug, TransferOwnership, OwnOrganization, TransferDenied).value.orgId;
      && r.value.reply == NoContent
      && s'.organizations == s.organizations[o := s.organizations[o].(ownerId := target)]
      && s'.members.Keys == s.members.Keys
      && (forall k :: k in s.members ==>
            if s.members[k].organizationId == o && s.members[k].userId == target
            then s'.members[k] == s.members[k].(role := ADMIN)
            else s'.members[k] == s.members[k])
      && s'.users == s.users && s'.tokens == s.tokens
      && s'.invites == s.invites && s'.projects == s.projects
  {
    var ctx :- Guard(s, allowed, session, slug, TransferOwnership, OwnOrganization, TransferDenied);
    if !IsMemberOf(s, target, ctx.orgId) then
      Err(BadRequest(TargetNotMember))
    else
      var org := s.organizations[ctx.orgId];
      Ok(Step(s.(members := PromoteToAdmin(s.members, ctx.orgId, target),
                 organizations := s.organizations[ctx.orgId := org.(ownerId := target)]), NoContent))
  }

  lemma TransferOrganizationKeepsValid(s: Store, allowed: Allowed, session: Session, slug: string, target: Id)
    requires Valid(s)
    ensures TransferOrganization(s, allowed, session, slug, target).Ok? ==>
      Valid(TransferOrganization(s, allowed, session, slug, target).value.store)
  {
    var r := TransferOrganization(s, allowed, session, slug, target);
    if r.Ok? {
      var o := Guard(s, allowed, session, slug, TransferOwnership, OwnOrganization, TransferDenied).value.orgId;
      TransferKeepsValid(s, o, target);
    }
  }

  lemma TransferKeepsValid(s: Store, o: Id, target: Id)
    requires Valid(s)
    requires o in s.organizations && IsMemberOf(s, target, o)
    ensures Valid(s.(members := PromoteToAdmin(s.members, o, target),
                     organizations := s.organizations[o := s.organizations[o].(ownerId := target)]))
  {
    var k :| k in s.members && s.members[k].organizationId == o && s.members[k].userId == target;
    assert target in s.users;
    var s1 := s.(members := PromoteToAdmin(s.members, o, target));
    SetRolesKeepsValid(s, s1.members);
    SetOrganizationKeepsValid(s1, o, s.organizations[o].(ownerId := target));
  }

  /** After a transfer the new owner is an ADMIN member of the organization,
      nobody loses a membership or a role, and only the caller's organization
      is touched. */
  lemma TransferMakesOwnerAdmin(s: Store, allowed: Allowed, session: Session, slug: string, target: Id)
    ensures var r := TransferOrganization(s, allowed, session, slug, target);
      r.Ok? ==>
        var s', o := r.value.store, Guard(s, allowed, session, slug, TransferOwnership, OwnOrganization, TransferDenied).value.orgId;
        && s'.organizations[o].ownerId == target
        && (exists k :: k in s'.members && s'.members[k] == Member(ADMIN, o, target))
        && (forall k :: k in s.members && s.members[k].userId != target ==> s'.members[k] == s.members[k])
        && ScopedTo(s, s', o)
  {
    var r := TransferOrganization(s, allowed, session, slug, target);
    if r.Ok? {
      var o := Guard(s, allowed, session, slug, TransferOwnership, OwnOrganization, TransferDenied).value.orgId;
      var k :| k in s.members && s.members[k].organizationId == o && s.members[k].userId == target;
      assert r.value.store.members[k] == Member(ADMIN, o, target);
    }
  }

  // ---------------------------------------------------------------------
  // DELETE /organizations/:slug
  // ---------------------------------------------------------------------

  ghost function ShutdownOrganization(s: Store, allowed: Allowed, session: Session, slug: string): (r: Result<Step>)
    ensures Guard(s, allowed, session, slug, Delete, OwnOrganization, ShutdownDenied).Err? ==>
      r == Err(Guard(s, allowed, session, slug, Delete, OwnOrganization, ShutdownDenied).error)
    ensures Guard(s, allowed, session, slug, Delete, OwnOrganization, ShutdownDenied).Ok? ==>
      var o := Guard(s, allowed, session, slug, Delete, OwnOrganization, ShutdownDenied).value.orgId;
      && r.Ok? && r.value.reply == NoContent
      && o !in r.value.store.organizations
      && (forall k :: k in r.value.store.invites ==> r.value.store.invites[k].organizationId != o)
      && (forall k :: k in r.value.store.members ==> r.value.store.members[k].organizationId != o)
      && (forall k :: k in r.value.store.projects ==> r.value.store.projects[k].organizationId != o)
      && ScopedTo(s, r.value.store, o)
  {
    var ctx :- Guard(s, allowed, session, slug, Delete, OwnOrganization, ShutdownDenied);
    DeleteOrganizationIsScoped(s, ctx.orgId);
    Ok(Step(DeleteOrganization(s, ctx.orgId), NoContent))
  }

  lemma ShutdownOrganizationKeepsValid(s: Store, allowed: Allowed, session: Session, slug: string)
    requires Valid(s)
    ensures ShutdownOrganization(s, allowed, session, slug).Ok? ==>
      Valid(ShutdownOrganization(s, allowed, session, slug).value.store)
  {
    var g := Guard(s, allowed, session, slug, Delete, OwnOrganization, ShutdownDenied);
    if g.Ok? {
      DeleteOrganizationKeepsValid(s, g.value.orgId);
    }
  }

  /** After a shutdown the slug names no organization, so every later
      organization-scoped request on it fails with "not a member". */
  lemma ShutdownFreesSlug(s: Store, allowed: Allowed, session: Session, slug: string, anyone: Session)
    requires Valid(s)
    requires ShutdownOrganization(s, allowed, session, slug).Ok?
    requires anyone.Some?
    ensures !OrgSlugHeld(ShutdownOrganization(s, allowed, session, slug).value.store, slug)
    ensures GetUserMembership(ShutdownOrganization(s, allowed, session, slug).value.store, anyone, slug)
         == Err(Unauthorized(NotAMember))
  {
    var s' := ShutdownOrganization(s, allowed, session, slug).value.store;
    var o := Guard(s, allowed, session, slug, Delete, OwnOrganization, ShutdownDenied).value.orgId;
    forall k | k in s'.organizations
      ensures s'.organizations[k].slug != slug
    {
      assert s.organizations[k] == s'.organizations[k];
    }
  }
}
