/** `POST /organizations/:slug/projects`. */
module ProjectRoutes {
  import opened Schema
  import opened Http
  import opened Slug
  import opened Permissions
  import opened AuthMiddleware

  const ProjectDenied := "You are not allowed to create news projects."

  /** The row the route inserts: slug from the name, owned by the caller. */
  function NewProject(ctx: Context, fold: Folding, name: string, description: string): (r: Project)
    ensures IsSlug(r.slug) && (name != [] ==> Undash(r.slug) == Alnums(fold(name)))
    ensures r.name == name && r.description == description
    ensures r.organizationId == ctx.orgId && r.ownerId == ctx.membership.userId
  {
    Project(name, description, CreateSlug(name, fold), ctx.orgId, ctx.membership.userId)
  }

  ghost function CreateProject(s: Store, allowed: Allowed, fold: Folding, session: Session, slug: string,
                               name: string, description: string): (r: Result<Step>)
    ensures Guard(s, allowed, session, slug, Create, ProjectKind, ProjectDenied).Err? ==>
      r == Err(Guard(s, allowed, session, slug, Create, ProjectKind, ProjectDenied).error)
    ensures Guard(s, allowed, session, slug, Create, ProjectKind, ProjectDenied).Ok? ==>
      && (r.Ok? <==> !ProjectSlugHeld(s, CreateSlug(name, fold)) && session.value in s.users)
      && (r.Err? ==> r.error == ConstraintViolation)
    ensures r.Ok? ==>
      var s', o, p := r.value.store, Guard(s, allowed, session, slug, Create, ProjectKind, ProjectDenied).value.orgId, NewId(s);
      && r.value.reply == CreatedProject(p)
      && s'.projects == s.projects[p := Project(name, description, CreateSlug(name, fold), o, session.value)]
      && s'.users == s.users && s'.tokens == s.tokens && s'.organizations == s.organizations
      && s'.invites == s.invites && s'.members == s.members
  {
    var ctx :- Guard(s, allowed, session, slug, Create, ProjectKind, ProjectDenied);
    var project := NewProject(ctx, fold, name, description);
    // the unique `slug` column and the `owner_id` foreign key are the database's checks
    if ProjectSlugHeld(s, project.slug) || project.ownerId !in s.users then
      Err(ConstraintViolation)
    else
      Ok(Step(AddProject(s, project), CreatedProject(NewId(s))))
  }

  lemma CreateProjectKeepsValid(s: Store, allowed: Allowed, fold: Folding, session: Session, slug: string,
                                name: string, description: string)
    requires Valid(s)
    ensures CreateProject(s, allowed, fold, session, slug, name, description).Ok? ==>
      Valid(CreateProject(s, allowed, fold, session, slug, name, description).value.store)
  {
    var g := Guard(s, allowed, session, slug, Create, ProjectKind, ProjectDenied);
    if CreateProject(s, allowed, fold, session, slug, name, description).Ok? {
      AddProjectKeepsValid(s, NewProject(g.value, fold, name, description));
    }
  }

  /** On a valid state, once the guard passes the only way the insert fails is
      a project slug already taken, in any organization: `projects.slug` is
      unique across the whole table. */
  lemma CreateProjectFailsOnlyOnSlug(s: Store, allowed: Allowed, fold: Folding, session: Session, slug: string,
                                     name: string, description: string)
    requires Valid(s)
    requires Guard(s, allowed, session, slug, Create, ProjectKind, ProjectDenied).Ok?
    ensures CreateProject(s, allowed, fold, session, slug, name, description).Err? <==> ProjectSlugHeld(s, CreateSlug(name, fold))
  {
    var ctx := Guard(s, allowed, session, slug, Create, ProjectKind, ProjectDenied).value;
    assert s.members[ctx.memberId].userId in s.users;
  }

  /** The new project belongs to the caller's organization, is owned by the
      caller, carries a well-formed slug, and nothing outside that
      organization changes. */
  lemma CreateProjectIsScoped(s: Store, allowed: Allowed, fold: Folding, session: Session, slug: string,
                              name: string, description: string)
    requires Valid(s)
    ensures var r := CreateProject(s, allowed, fold, session, slug, name, description);
      r.Ok? ==>
        var ctx := Guard(s, allowed, session, slug, Create, ProjectKind, ProjectDenied).value;
        var p := r.value.store.projects[NewId(s)];
        && ScopedTo(s, r.value.store, ctx.orgId)
        && p.organizationId == ctx.orgId
        && p.ownerId == ctx.membership.userId
        && IsSlug(p.slug)
  {
    var g := Guard(s, allowed, session, slug, Create, ProjectKind, ProjectDenied);
    if g.Ok? {
      AddProjectIsScoped(s, NewProject(g.value, fold, name, description));
    }
  }
}
