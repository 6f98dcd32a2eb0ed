/**
  The database: one map per table, keyed by row id, and the constraints the
  schema declares (unique columns and indexes, foreign keys). `Valid` is the
  conjunction of those constraints; the database keeps it on every state.

  Row ids are drawn from one counter, `nextId`, standing in for the random
  uuids of `defaultRandom()`. Timestamps, avatar URLs, the `accounts` table
  and `invites.userId` are not modelled: no modelled route reads or writes them.
 */
module Schema {

  datatype Option<T> = None | Some(value: T)

  type Id = nat

  /** A bcrypt hash, produced and checked by external functions. */
  type Hash = string

  datatype Role = ADMIN | MEMBER | BILLING

  datatype TokenType = PASSWORD_RECOVER

  datatype User = User(name: Option<string>, email: string, passwordHash: Option<Hash>)

  datatype Token = Token(kind: TokenType, userId: Id)

  datatype Organization = Organization(
    name: string,
    slug: string,
    domain: Option<string>,
    shouldAttachUsersByDomain: bool,
    ownerId: Id)

  datatype Invite = Invite(email: string, role: Role, organizationId: Id)

  datatype Member = Member(role: Role, organizationId: Id, userId: Id)

  datatype Project = Project(
    name: string,
    description: string,
    slug: string,
    organizationId: Id,
    ownerId: Id)

  datatype Store = Store(
    users: map<Id, User>,
    tokens: map<Id, Token>,
    organizations: map<Id, Organization>,
    invites: map<Id, Invite>,
    members: map<Id, Member>,
    projects: map<Id, Project>,
    nextId: Id)

  /** The role a membership row gets when the insert does not name one. */
  const DefaultMemberRole: Role := MEMBER

  /** The value of `should_attach_users_by_domain` when the insert does not give one. */
  const DefaultAttachUsersByDomain: bool := false

  // ---------------------------------------------------------------------
  // Constraints
  // ---------------------------------------------------------------------

  /** Every key of `m` is below `n`. */
  ghost predicate KeysBelow<V>(m: map<Id, V>, n: Id) {
    forall k :: k in m ==> k < n
  }

  ghost predicate IdsBelowCounter(s: Store) {
    && KeysBelow(s.users, s.nextId)
    && KeysBelow(s.tokens, s.nextId)
    && KeysBelow(s.organizations, s.nextId)
    && KeysBelow(s.invites, s.nextId)
    && KeysBelow(s.members, s.nextId)
    && KeysBelow(s.projects, s.nextId)
  }

  /** `users.email` is unique. */
  ghost predicate EmailsUnique(users: map<Id, User>) {
    forall a, b :: a in users && b in users && users[a].email == users[b].email ==> a == b
  }

  /** `organizations.slug` is unique. */
  ghost predicate OrgSlugsUnique(orgs: map<Id, Organization>) {
    forall a, b :: a in orgs && b in orgs && orgs[a].slug == orgs[b].slug ==> a == b
  }

  /** `organizations.domain` is unique among the rows where it is not null. */
  ghost predicate OrgDomainsUnique(orgs: map<Id, Organization>) {
    forall a, b :: a in orgs && b in orgs && orgs[a].domain.Some? && orgs[a].domain == orgs[b].domain ==> a == b
  }

  /** `invites_email_organization_unique`: one invite per (email, organization). */
  ghost predicate InvitesUnique(invites: map<Id, Invite>) {
    forall a, b ::
      (a in invites && b in invites
       && invites[a].email == invites[b].email
       && invites[a].organizationId == invites[b].organizationId) ==> a == b
  }

  /** `members_organization_user_unique`: one membership per (organization, user). */
  ghost predicate MembershipsUnique(members: map<Id, Member>) {
    forall a, b ::
      (a in members && b in members
       && members[a].organizationId == members[b].organizationId
       && members[a].userId == members[b].userId) ==> a == b
  }

  /** `projects.slug` is unique. */
  ghost predicate ProjectSlugsUnique(projects: map<Id, Project>) {
    forall a, b :: a in projects && b in projects && projects[a].slug == projects[b].slug ==> a == b
  }

  /** `tokens.user_id` references `users`. */
  ghost predicate TokensReferenceUsers(tokens: map<Id, Token>, users: map<Id, User>) {
    forall k :: k in tokens ==> tokens[k].userId in users
  }

  /** `organizations.owner_id` references `users`. */
  ghost predicate OrganizationsReferenceUsers(orgs: map<Id, Organization>, users: map<Id, User>) {
    forall k :: k in orgs ==> orgs[k].ownerId in users
  }

  /** `invites.organization_id` references `organizations`. */
  ghost predicate InvitesReferenceOrganizations(invites: map<Id, Invite>, orgs: map<Id, Organization>) {
    forall k :: k in invites ==> invites[k].organizationId in orgs
  }

  /** `members.organization_id` and `members.user_id` reference their tables. */
  ghost predicate MembersReferenceRows(members: map<Id, Member>, orgs: map<Id, Organization>, users: map<Id, User>) {
    forall k :: k in members ==> members[k].organizationId in orgs && members[k].userId in users
  }

  /** `projects.organization_id` and `projects.owner_id` reference their tables. */
  ghost predicate ProjectsReferenceRows(projects: map<Id, Project>, orgs: map<Id, Organization>, users: map<Id, User>) {
    forall k :: k in projects ==> projects[k].organizationId in orgs && projects[k].ownerId in users
  }

  /** Every foreign key points at an existing row. */
  ghost predicate ForeignKeys(s: Store) {
    && TokensReferenceUsers(s.tokens, s.users)
    && OrganizationsReferenceUsers(s.organizations, s.users)
    && InvitesReferenceOrganizations(s.invites, s.organizations)
    && MembersReferenceRows(s.members, s.organizations, s.users)
    && ProjectsReferenceRows(s.projects, s.organizations, s.users)
  }

  ghost predicate Valid(s: Store) {
    && IdsBelowCounter(s)
    && EmailsUnique(s.users)
    && OrgSlugsUnique(s.organizations)
    && OrgDomainsUnique(s.organizations)
    && InvitesUnique(s.invites)
    && MembershipsUnique(s.members)
    && ProjectSlugsUnique(s.projects)
    && ForeignKeys(s)
  }

  /** The database before any insert. */
  const EmptyStore := Store(map[], map[], map[], map[], map[], map[], 0)

  /** The invariant can be met: the empty database satisfies it. */
  lemma EmptyStoreIsValid()
    ensures Valid(EmptyStore)
  {
  }

  // ---------------------------------------------------------------------
  // Row ids
  // ---------------------------------------------------------------------

  /** The id the next inserted row receives. */
  function NewId(s: Store): (id: Id)
    ensures IdsBelowCounter(s) ==>
      && id !in s.users && id !in s.tokens && id !in s.organizations
      && id !in s.invites && id !in s.members && id !in s.projects
  {
    s.nextId
  }

  // ---------------------------------------------------------------------
  // Lookups by unique key
  // ---------------------------------------------------------------------

  ghost predicate HasUserWithEmail(s: Store, email: string) {
    exists k :: k in s.users && s.users[k].email == email
  }

  /** `select from users where email = ?`, when some row matches. */
  ghost function UserWithEmail(s: Store, email: string): (k: Id)
    requires HasUserWithEmail(s, email)
    ensures k in s.users && s.users[k].email == email
    ensures EmailsUnique(s.users) ==> forall j :: j in s.users && s.users[j].email == email ==> j == k
  {
    var k :| k in s.users && s.users[k].email == email; k
  }

  /** Some organization holds `domain`. */
  ghost predicate DomainHeld(s: Store, domain: string) {
    exists k :: k in s.organizations && s.organizations[k].domain == Some(domain)
  }

  /** An organization other than `except` holds `domain`. */
  ghost predicate DomainHeldByOther(s: Store, domain: string, except: Id) {
    exists k :: k in s.organizations && k != except && s.organizations[k].domain == Some(domain)
  }

  ghost predicate OrgSlugHeld(s: Store, slug: string) {
    exists k :: k in s.organizations && s.organizations[k].slug == slug
  }

  ghost predicate ProjectSlugHeld(s: Store, slug: string) {
    exists k :: k in s.projects && s.projects[k].slug == slug
  }

  ghost predicate IsMemberOf(s: Store, userId: Id, orgId: Id) {
    exists k :: k in s.members && s.members[k].organizationId == orgId && s.members[k].userId == userId
  }

  ghost predicate HasInvite(s: Store, email: string, orgId: Id) {
    exists k :: k in s.invites && s.invites[k].email == email && s.invites[k].organizationId == orgId
  }

  // ---------------------------------------------------------------------
  // Inserts and in-place updates
  // ---------------------------------------------------------------------

  /** `insert into users`; the row takes the next id. On a store whose ids are below the counter, the
      new row overwrites nothing and every other table is untouched. */
  function AddUser(s: Store, u: User): (r: Store)
    ensures r.users.Keys == s.users.Keys + {NewId(s)} && r.users[NewId(s)] == u
    ensures IdsBelowCounter(s) ==> forall k :: k in s.users ==> r.users[k] == s.users[k]
    ensures r.tokens == s.tokens && r.organizations == s.organizations && r.invites == s.invites && r.members == s.members && r.projects == s.projects
  {
    s.(users := s.users[NewId(s) := u], nextId := NewId(s) + 1)
  }

  /** `insert into tokens`. On a store whose ids are below the counter, the
      new row overwrites nothing and every other table is untouched. */
  function AddToken(s: Store, t: Token): (r: Store)
    ensures r.tokens.Keys == s.tokens.Keys + {NewId(s)} && r.tokens[NewId(s)] == t
    ensures IdsBelowCounter(s) ==> forall k :: k in s.tokens ==> r.tokens[k] == s.tokens[k]
    ensures r.users == s.users && r.organizations == s.organizations && r.invites == s.invites && r.members == s.members && r.projects == s.projects
  {
    s.(tokens := s.tokens[NewId(s) := t], nextId := NewId(s) + 1)
  }

  /** `insert into organizations`. On a store whose ids are below the counter, the
      new row overwrites nothing and every other table is untouched. */
  function AddOrganization(s: Store, o: Organization): (r: Store)
    ensures r.organizations.Keys == s.organizations.Keys + {NewId(s)} && r.organizations[NewId(s)] == o
    ensures IdsBelowCounter(s) ==> forall k :: k in s.organizations ==> r.organizations[k] == s.organizations[k]
    ensures r.users == s.users && r.tokens == s.tokens && r.invites == s.invites && r.members == s.members && r.projects == s.projects
  {
    s.(organizations := s.organizations[NewId(s) := o], nextId := NewId(s) + 1)
  }

  /** `insert into invites`. On a store whose ids are below the counter, the
      new row overwrites nothing and every other table is untouched. */
  function AddInvite(s: Store, i: Invite): (r: Store)
    ensures r.invites.Keys == s.invites.Keys + {NewId(s)} && r.invites[NewId(s)] == i
    ensures IdsBelowCounter(s) ==> forall k :: k in s.invites ==> r.invites[k] == s.invites[k]
    ensures r.users == s.users && r.tokens == s.tokens && r.organizations == s.organizations && r.members == s.members && r.projects == s.projects
  {
    s.(invites := s.invites[NewId(s) := i], nextId := NewId(s) + 1)
  }

  /** `insert into members`. On a store whose ids are below the counter, the
      new row overwrites nothing and every other table is untouched. */
  function AddMember(s: Store, m: Member): (r: Store)
    ensures r.members.Keys == s.members.Keys + {NewId(s)} && r.members[NewId(s)] == m
    ensures IdsBelowCounter(s) ==> forall k :: k in s.members ==> r.members[k] == s.members[k]
    ensures r.users == s.users && r.tokens == s.tokens && r.organizations == s.organizations && r.invites == s.invites && r.projects == s.projects
  {
    s.(members := s.members[NewId(s) := m], nextId := NewId(s) + 1)
  }

  /** `insert into projects`. On a store whose ids are below the counter, the
      new row overwrites nothing and every other table is untouched. */
  function AddProject(s: Store, p: Project): (r: Store)
    ensures r.projects.Keys == s.projects.Keys + {NewId(s)} && r.projects[NewId(s)] == p
    ensures IdsBelowCounter(s) ==> forall k :: k in s.projects ==> r.projects[k] == s.projects[k]
    ensures r.users == s.users && r.tokens == s.tokens && r.organizations == s.organizations && r.invites == s.invites && r.members == s.members
  {
    s.(projects := s.projects[NewId(s) := p], nextId := NewId(s) + 1)
  }

  /** Taking the next id keeps every key below the counter. */
  lemma KeysBelowInsert<V>(m: map<Id, V>, n: Id, v: V)
    requires KeysBelow(m, n)
    ensures KeysBelow(m[n := v], n + 1)
  {
  }

  /** Moving the counter up keeps every key of every table below it. */
  lemma CounterBump(s: Store)
    requires IdsBelowCounter(s)
    ensures IdsBelowCounter(s.(nextId := s.nextId + 1))
  {
    var n := s.nextId + 1;
    assert KeysBelow(s.users, n) && KeysBelow(s.tokens, n) && KeysBelow(s.organizations, n);
    assert KeysBelow(s.invites, n) && KeysBelow(s.members, n) && KeysBelow(s.projects, n);
  }

  lemma EmailsUniqueInsert(users: map<Id, User>, k: Id, u: User)
    requires EmailsUnique(users) && k !in users
    requires forall j :: j in users ==> users[j].email != u.email
    ensures EmailsUnique(users[k := u])
  {
  }

  lemma OrgKeysUniqueInsert(orgs: map<Id, Organization>, k: Id, o: Organization)
    requires OrgSlugsUnique(orgs) && OrgDomainsUnique(orgs) && k !in orgs
    requires forall j :: j in orgs ==> orgs[j].slug != o.slug
    requires forall j :: j in orgs && o.domain.Some? ==> orgs[j].domain != o.domain
    ensures OrgSlugsUnique(orgs[k := o]) && OrgDomainsUnique(orgs[k := o])
  {
  }

  lemma InvitesUniqueInsert(invites: map<Id, Invite>, k: Id, i: Invite)
    requires InvitesUnique(invites) && k !in invites
    requires forall j :: j in invites ==> !(invites[j].email == i.email && invites[j].organizationId == i.organizationId)
    ensures InvitesUnique(invites[k := i])
  {
  }

  lemma MembershipsUniqueInsert(members: map<Id, Member>, k: Id, m: Member)
    requires MembershipsUnique(members) && k !in members
    requires forall j :: j in members ==> !(members[j].organizationId == m.organizationId && members[j].userId == m.userId)
    ensures MembershipsUnique(members[k := m])
  {
  }

  lemma ProjectSlugsUniqueInsert(projects: map<Id, Project>, k: Id, p: Project)
    requires ProjectSlugsUnique(projects) && k !in projects
    requires forall j :: j in projects ==> projects[j].slug != p.slug
    ensures ProjectSlugsUnique(projects[k := p])
  {
  }

  /** Adding users breaks no foreign key. */
  lemma MoreUsersKeepForeignKeys(s: Store, users: map<Id, User>)
    requires ForeignKeys(s)
    requires s.users.Keys <= users.Keys
    ensures ForeignKeys(s.(users := users))
  {
    assert TokensReferenceUsers(s.tokens, users);
    assert OrganizationsReferenceUsers(s.organizations, users);
    assert MembersReferenceRows(s.members, s.organizations, users);
    assert ProjectsReferenceRows(s.projects, s.organizations, users);
  }

  /** Adding or updating organizations, with every owner an existing user,
      breaks no foreign key. */
  lemma MoreOrganizationsKeepForeignKeys(s: Store, orgs: map<Id, Organization>)
    requires ForeignKeys(s)
    requires s.organizations.Keys <= orgs.Keys
    requires OrganizationsReferenceUsers(orgs, s.users)
    ensures ForeignKeys(s.(organizations := orgs))
  {
    assert InvitesReferenceOrganizations(s.invites, orgs);
    assert MembersReferenceRows(s.members, orgs, s.users);
    assert ProjectsReferenceRows(s.projects, orgs, s.users);
  }

  /** The insert passes the unique index on `email`. */
  lemma AddUserKeepsValid(s: Store, u: User)
    requires Valid(s)
    requires !HasUserWithEmail(s, u.email)
    ensures Valid(AddUser(s, u))
  {
    var n := NewId(s);
    CounterBump(s);
    KeysBelowInsert(s.users, n, u);
    EmailsUniqueInsert(s.users, n, u);
    MoreUsersKeepForeignKeys(s, s.users[n := u]);
  }

  /** The insert passes the foreign key on `user_id`. */
  lemma AddTokenKeepsValid(s: Store, t: Token)
    requires Valid(s)
    requires t.userId in s.users
    ensures Valid(AddToken(s, t))
  {
    var n := NewId(s);
    CounterBump(s);
    KeysBelowInsert(s.tokens, n, t);
    assert TokensReferenceUsers(s.tokens[n := t], s.users);
  }

  /** The insert passes the unique `slug` and `domain` columns and the foreign key on `owner_id`. */
  lemma AddOrganizationKeepsValid(s: Store, o: Organization)
    requires Valid(s)
    requires !OrgSlugHeld(s, o.slug)
    requires o.domain.None? || !DomainHeld(s, o.domain.value)
    requires o.ownerId in s.users
    ensures Valid(AddOrganization(s, o))
  {
    var n := NewId(s);
    var orgs := s.organizations[n := o];
    CounterBump(s);
    KeysBelowInsert(s.organizations, n, o);
    OrgKeysUniqueInsert(s.organizations, n, o);
    assert OrganizationsReferenceUsers(orgs, s.users);
    MoreOrganizationsKeepForeignKeys(s, orgs);
  }

  /** The insert passes the unique (email, organization) index and the foreign key on `organization_id`. */
  lemma AddInviteKeepsValid(s: Store, i: Invite)
    requires Valid(s)
    requires !HasInvite(s, i.email, i.organizationId)
    requires i.organizationId in s.organizations
    ensures Valid(AddInvite(s, i))
  {
    var n := NewId(s);
    CounterBump(s);
    KeysBelowInsert(s.invites, n, i);
    InvitesUniqueInsert(s.invites, n, i);
    assert InvitesReferenceOrganizations(s.invites[n := i], s.organizations);
  }

  /** The insert passes the unique (organization, user) index and both foreign keys. */
  lemma AddMemberKeepsValid(s: Store, m: Member)
    requires Valid(s)
    requires !IsMemberOf(s, m.userId, m.organizationId)
    requires m.organizationId in s.organizations && m.userId in s.users
    ensures Valid(AddMember(s, m))
  {
    var n := NewId(s);
    CounterBump(s);
    KeysBelowInsert(s.members, n, m);
    MembershipsUniqueInsert(s.members, n, m);
    assert MembersReferenceRows(s.members[n := m], s.organizations, s.users);
  }

  /** The insert passes the unique `slug` column and both foreign keys. */
  lemma AddProjectKeepsValid(s: Store, p: Project)
    requires Valid(s)
    requires !ProjectSlugHeld(s, p.slug)
    requires p.organizationId in s.organizations && p.ownerId in s.users
    ensures Valid(AddProject(s, p))
  {
    var n := NewId(s);
    CounterBump(s);
    KeysBelowInsert(s.projects, n, p);
    ProjectSlugsUniqueInsert(s.projects, n, p);
    assert ProjectsReferenceRows(s.projects[n := p], s.organizations, s.users);
  }

  /** `update organizations set ... where id = o`, keeping the unique
      columns free of clashes and the owner an existing user. */
  lemma SetOrganizationKeepsValid(s: Store, o: Id, org: Organization)
    requires Valid(s)
    requires o in s.organizations
    requires forall k :: k in s.organizations && k != o ==> s.organizations[k].slug != org.slug
    requires org.domain.None? || !DomainHeldByOther(s, org.domain.value, o)
    requires org.ownerId in s.users
    ensures Valid(s.(organizations := s.organizations[o := org]))
  {
    var orgs := s.organizations[o := org];
    SetOrganizationKeepsSlugs(s.organizations, o, org);
    SetOrganizationKeepsDomains(s, o, org);
    assert KeysBelow(orgs, s.nextId);
    assert OrganizationsReferenceUsers(orgs, s.users);
    MoreOrganizationsKeepForeignKeys(s, orgs);
  }

  lemma SetOrganizationKeepsSlugs(orgs: map<Id, Organization>, o: Id, org: Organization)
    requires OrgSlugsUnique(orgs)
    requires forall k :: k in orgs && k != o ==> orgs[k].slug != org.slug
    ensures OrgSlugsUnique(orgs[o := org])
  {
  }

  lemma SetOrganizationKeepsDomains(s: Store, o: Id, org: Organization)
    requires OrgDomainsUnique(s.organizations)
    requires org.domain.None? || !DomainHeldByOther(s, org.domain.value, o)
    ensures OrgDomainsUnique(s.organizations[o := org])
  {
    assert forall k :: k in s.organizations && k != o && org.domain.Some? ==> s.organizations[k].domain != org.domain;
  }

  /** An update of `members` that changes roles only. */
  lemma SetRolesKeepsValid(s: Store, members: map<Id, Member>)
    requires Valid(s)
    requires members.Keys == s.members.Keys
    requires forall k :: k in members ==>
      members[k].organizationId == s.members[k].organizationId && members[k].userId == s.members[k].userId
    ensures Valid(s.(members := members))
  {
    var s' := s.(members := members);
    assert KeysBelow(s'.members, s'.nextId);
    assert MembershipsUnique(s'.members);
    assert MembersReferenceRows(s'.members, s'.organizations, s'.users);
  }

  /** `delete from invites where id = i`: no row references an invite. */
  lemma RemoveInviteKeepsValid(s: Store, i: Id)
    requires Valid(s)
    ensures Valid(s.(invites := s.invites - {i}))
  {
    var s' := s.(invites := s.invites - {i});
    assert KeysBelow(s'.invites, s'.nextId);
    assert InvitesUnique(s'.invites);
    assert InvitesReferenceOrganizations(s'.invites, s'.organizations);
  }

  /** `delete from members where id = m`: no row references a membership. */
  lemma RemoveMemberKeepsValid(s: Store, m: Id)
    requires Valid(s)
    ensures Valid(s.(members := s.members - {m}))
  {
    var s' := s.(members := s.members - {m});
    assert KeysBelow(s'.members, s'.nextId);
    assert MembershipsUnique(s'.members);
    assert MembersReferenceRows(s'.members, s'.organizations, s'.users);
  }

  // ---------------------------------------------------------------------
  // Cascading delete
  // ---------------------------------------------------------------------

  // One filter per table rather than one generic filter over a projection
  // function: each cascade proof then reasons about its own row type only,
  // and no function-valued argument enters the triggers.

  /** The invites of organizations other than `o`. */
  function InvitesOutside(invites: map<Id, Invite>, o: Id): (r: map<Id, Invite>)
    ensures forall k :: k in r <==> k in invites && invites[k].organizationId != o
    ensures forall k :: k in r ==> r[k] == invites[k]
  {
    map k | k in invites && invites[k].organizationId != o :: invites[k]
  }

  /** The memberships of organizations other than `o`. */
  function MembersOutside(members: map<Id, Member>, o: Id): (r: map<Id, Member>)
    ensures forall k :: k in r <==> k in members && members[k].organizationId != o
    ensures forall k :: k in r ==> r[k] == members[k]
  {
    map k | k in members && members[k].organizationId != o :: members[k]
  }

  /** The projects of organizations other than `o`. */
  function ProjectsOutside(projects: map<Id, Project>, o: Id): (r: map<Id, Project>)
    ensures forall k :: k in r <==> k in projects && projects[k].organizationId != o
    ensures forall k :: k in r ==> r[k] == projects[k]
  {
    map k | k in projects && projects[k].organizationId != o :: projects[k]
  }

  /** `delete from organizations where id = o`: the `on delete cascade` keys of
      `invites`, `members` and `projects` take that organization's rows with it. */
  function DeleteOrganization(s: Store, o: Id): (s': Store)
    ensures s'.users == s.users && s'.tokens == s.tokens && s'.nextId == s.nextId
    ensures s'.organizations == s.organizations - {o}
    ensures forall k :: k in s'.invites <==> k in s.invites && s.invites[k].organizationId != o
    ensures forall k :: k in s'.members <==> k in s.members && s.members[k].organizationId != o
    ensures forall k :: k in s'.projects <==> k in s.projects && s.projects[k].organizationId != o
    ensures forall k :: k in s'.invites ==> s'.invites[k] == s.invites[k]
    ensures forall k :: k in s'.members ==> s'.members[k] == s.members[k]
    ensures forall k :: k in s'.projects ==> s'.projects[k] == s.projects[k]
  {
    s.(organizations := s.organizations - {o},
       invites := InvitesOutside(s.invites, o),
       members := MembersOutside(s.members, o),
       projects := ProjectsOutside(s.projects, o))
  }

  /** The cascade leaves no row pointing at the deleted organization and keeps every constraint. */
  lemma DeleteOrganizationKeepsValid(s: Store, o: Id)
    requires Valid(s)
    ensures Valid(DeleteOrganization(s, o))
  {
    var orgs := s.organizations - {o};
    assert KeysBelow(orgs, s.nextId);
    assert OrgSlugsUnique(orgs) && OrgDomainsUnique(orgs);
    assert OrganizationsReferenceUsers(orgs, s.users);
    InvitesCascade(s.invites, s.organizations, s.nextId, o);
    MembersCascade(s.members, s.organizations, s.users, s.nextId, o);
    ProjectsCascade(s.projects, s.organizations, s.users, s.nextId, o);
  }

  lemma InvitesCascade(invites: map<Id, Invite>, orgs: map<Id, Organization>, n: Id, o: Id)
    requires KeysBelow(invites, n) && InvitesUnique(invites) && InvitesReferenceOrganizations(invites, orgs)
    ensures var r := InvitesOutside(invites, o);
      KeysBelow(r, n) && InvitesUnique(r) && InvitesReferenceOrganizations(r, orgs - {o})
  {
  }

  lemma MembersCascade(members: map<Id, Member>, orgs: map<Id, Organization>, users: map<Id, User>, n: Id, o: Id)
    requires KeysBelow(members, n) && MembershipsUnique(members) && MembersReferenceRows(members, orgs, users)
    ensures var r := MembersOutside(members, o);
      KeysBelow(r, n) && MembershipsUnique(r) && MembersReferenceRows(r, orgs - {o}, users)
  {
  }

  lemma ProjectsCascade(projects: map<Id, Project>, orgs: map<Id, Organization>, users: map<Id, User>, n: Id, o: Id)
    requires KeysBelow(projects, n) && ProjectSlugsUnique(projects) && ProjectsReferenceRows(projects, orgs, users)
    ensures var r := ProjectsOutside(projects, o);
      KeysBelow(r, n) && ProjectSlugsUnique(r) && ProjectsReferenceRows(r, orgs - {o}, users)
  {
  }

  // ---------------------------------------------------------------------
  // Scoping
  // ---------------------------------------------------------------------

  /** Every organization of `a` other than `o` is in `b`, unchanged. */
  ghost predicate OrganizationsKept(a: map<Id, Organization>, b: map<Id, Organization>, o: Id) {
    forall k :: k in a && k != o ==> k in b && b[k] == a[k]
  }

  /** Every invite of `a` outside organization `o` is in `b`, unchanged. */
  ghost predicate InvitesKept(a: map<Id, Invite>, b: map<Id, Invite>, o: Id) {
    forall k :: k in a && a[k].organizationId != o ==> k in b && b[k] == a[k]
  }

  /** Every membership of `a` outside organization `o` is in `b`, unchanged. */
  ghost predicate MembersKept(a: map<Id, Member>, b: map<Id, Member>, o: Id) {
    forall k :: k in a && a[k].organizationId != o ==> k in b && b[k] == a[k]
  }

  /** Every project of `a` outside organization `o` is in `b`, unchanged. */
  ghost predicate ProjectsKept(a: map<Id, Project>, b: map<Id, Project>, o: Id) {
    forall k :: k in a && a[k].organizationId != o ==> k in b && b[k] == a[k]
  }

  /** Going from `s` to `s'` touched only rows of organization `o`: users and
      tokens are untouched, and every row of another organization is kept,
      unchanged, with no row of another organization added. */
  ghost predicate ScopedTo(s: Store, s': Store, o: Id) {
    && s'.users == s.users
    && s'.tokens == s.tokens
    && OrganizationsKept(s.organizations, s'.organizations, o) && OrganizationsKept(s'.organizations, s.organizations, o)
    && InvitesKept(s.invites, s'.invites, o) && InvitesKept(s'.invites, s.invites, o)
    && MembersKept(s.members, s'.members, o) && MembersKept(s'.members, s.members, o)
    && ProjectsKept(s.projects, s'.projects, o) && ProjectsKept(s'.projects, s.projects, o)
  }

  /** The cascade touches only rows of the deleted organization. */
  lemma DeleteOrganizationIsScoped(s: Store, o: Id)
    ensures ScopedTo(s, DeleteOrganization(s, o), o)
  {
    var s' := DeleteOrganization(s, o);
    assert OrganizationsKept(s.organizations, s'.organizations, o);
    assert InvitesKept(s.invites, s'.invites, o) && InvitesKept(s'.invites, s.invites, o);
    assert MembersKept(s.members, s'.members, o) && MembersKept(s'.members, s.members, o);
    assert ProjectsKept(s.projects, s'.projects, o) && ProjectsKept(s'.projects, s.projects, o);
  }

  /** A project insert touches only rows of the project's organization. */
  lemma AddProjectIsScoped(s: Store, p: Project)
    requires KeysBelow(s.projects, s.nextId)
    ensures ScopedTo(s, AddProject(s, p), p.organizationId)
  {
    var s' := AddProject(s, p);
    assert ProjectsKept(s.projects, s'.projects, p.organizationId);
    assert ProjectsKept(s'.projects, s.projects, p.organizationId);
  }

  /** An update of one organization row touches only that organization. */
  lemma SetOrganizationIsScoped(s: Store, o: Id, org: Organization)
    ensures ScopedTo(s, s.(organizations := s.organizations[o := org]), o)
  {
    var orgs := s.organizations[o := org];
    assert OrganizationsKept(s.organizations, orgs, o) && OrganizationsKept(orgs, s.organizations, o);
  }
}
