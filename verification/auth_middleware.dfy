/**
  The `auth` middleware: `getCurrentUserId` turns the request's JWT into the
  caller's id, and `getUserMembership(slug)` resolves the caller and an
  organization slug to that organization and the caller's membership in it.
  Verifying the JWT is external; its outcome is a `Session`.

  `Guard` is the preamble every organization-scoped route runs before
  touching the database: resolve the membership, then ask the permission layer.
 */
module AuthMiddleware {
  import opened Schema
  import opened Http
  import opened Permissions

  /** What `request.jwtVerify()` yields: the token's `sub`, or None when it throws. */
  type Session = Option<Id>

  const InvalidAuthToken := "Invalid auth token"
  const NotAMember := "You aren't a member of this organization."

  /** `getCurrentUserId`. */
  function GetCurrentUserId(session: Session): (r: Result<Id>)
    ensures r.Err? <==> session.None?
    ensures r.Err? ==> r.error == Unauthorized(InvalidAuthToken)
    ensures r.Ok? ==> session == Some(r.value)
  {
    match session
    case None => Err(Unauthorized(InvalidAuthToken))
    case Some(sub) => Ok(sub)
  }

  /** The resolved organization and the caller's membership in it. */
  datatype Context = Context(orgId: Id, organization: Organization, memberId: Id, membership: Member)

  /** Row `m` of `members` joins row `o` of `organizations` for user `userId` and `slug`. */
  ghost predicate IsMembershipOf(s: Store, userId: Id, slug: string, o: Id, m: Id) {
    && o in s.organizations && s.organizations[o].slug == slug
    && m in s.members && s.members[m].userId == userId && s.members[m].organizationId == o
  }

  /** `getUserMembership(slug)`. */
  ghost function GetUserMembership(s: Store, session: Session, slug: string): (r: Result<Context>)
    ensures session.None? ==> r == Err(Unauthorized(InvalidAuthToken))
    ensures session.Some? ==> (r.Ok? <==> exists o, m :: IsMembershipOf(s, session.value, slug, o, m))
    ensures session.Some? && r.Err? ==> r.error == Unauthorized(NotAMember)
    ensures r.Ok? ==>
      && session.Some?
      && IsMembershipOf(s, session.value, slug, r.value.orgId, r.value.memberId)
      && r.value.organization == s.organizations[r.value.orgId]
      && r.value.membership == s.members[r.value.memberId]
    ensures r.Ok? && OrgSlugsUnique(s.organizations) && MembershipsUnique(s.members) ==>
      forall o, m :: IsMembershipOf(s, session.value, slug, o, m) ==> o == r.value.orgId && m == r.value.memberId
  {
    var userId :- GetCurrentUserId(session);
    if exists o, m :: IsMembershipOf(s, userId, slug, o, m) then
      var o, m :| IsMembershipOf(s, userId, slug, o, m);
      Ok(Context(o, s.organizations[o], m, s.members[m]))
    else
      Err(Unauthorized(NotAMember))
  }

  /** With unique slugs and one membership per (organization, user), the
      lookup finds every membership, and finds it exactly. */
  lemma MembershipResolves(s: Store, userId: Id, slug: string, o: Id, m: Id)
    requires OrgSlugsUnique(s.organizations) && MembershipsUnique(s.members)
    requires IsMembershipOf(s, userId, slug, o, m)
    ensures GetUserMembership(s, Some(userId), slug).Ok?
    ensures GetUserMembership(s, Some(userId), slug).value == Context(o, s.organizations[o], m, s.members[m])
  {
  }

  /** The subject a route passes to `cannot`. */
  datatype Target = OwnOrganization | ProjectKind | InviteKind | UserKind

  function SubjectFor(target: Target, ctx: Context): Subject {
    match target
    case OwnOrganization => OrganizationSubject(ctx.orgId, ctx.organization)
    case ProjectKind => ProjectType
    case InviteKind => InviteType
    case UserKind => UserType
  }

  /** `getCurrentUserId()`, then `getUserMembership(slug)`, then
      `if (cannot(action, subject)) throw new UnauthorizedError(denied)`. */
  ghost function Guard(s: Store, allowed: Allowed, session: Session, slug: string,
                       action: Action, target: Target, denied: string): (r: Result<Context>)
    ensures GetUserMembership(s, session, slug).Err? ==> r == Err(GetUserMembership(s, session, slug).error)
    ensures GetUserMembership(s, session, slug).Ok? ==>
      var ctx := GetUserMembership(s, session, slug).value;
      if allowed(ctx.membership.userId, ctx.membership.role, action, SubjectFor(target, ctx))
      then r == Ok(ctx)
      else r == Err(Unauthorized(denied))
  {
    var userId :- GetCurrentUserId(session);
    var ctx :- GetUserMembership(s, session, slug);
    if !allowed(userId, ctx.membership.role, action, SubjectFor(target, ctx)) then
      Err(Unauthorized(denied))
    else
      Ok(ctx)
  }
}
