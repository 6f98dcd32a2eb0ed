# next-saas-rbac API core, modelled in Dafny

This project models the multi-tenant core of the `next-saas-rbac` API. The model covers:

- `createSlug`, the slug normaliser;
- the database schema that holds users, tokens, organizations, invites, members and projects;
- the `auth` middleware (`getCurrentUserId` and `getUserMembership`);
- the route handlers: sign-up, password recovery, and the organization, project, invite and member routes, which change the database, and password sign-in, which only reads it.

The model is functional. The database is a `Store` value: one map per table from row id to row, plus a counter that supplies fresh ids. Each route handler is a function from a store and the request to a `Result<Step>`. A `Step` is the new store plus the reply. An error carries no store, so a refused request changes nothing. This is how the handlers' transactions behave.

`Schema.Valid` is the database's own invariant. It holds the unique columns and indexes, the foreign keys, and every id below the counter. Each route that writes has a `...KeepsValid` lemma: run on a valid store, the route leaves a valid store. Password sign-in only reads. Sometimes the database, not the handler, would reject a write. This happens for a duplicate organization or project slug, and for a missing owner row. In those cases the model returns `ConstraintViolation`, which stands for the rejected statement that the handler does not catch.

Collaborators that the model cannot see are parameters:

- The permission layer `getUsersPermissions(...).cannot` is `allowed: Permissions.Allowed`.
- bcrypt's `hash` and `compare` are function parameters.
- JWT verification is a `Session`: the token's `sub`, or `None` when verification throws.
- The Unicode part of `createSlug` is a `Folding` parameter. This part is NFD, removal of `\p{Diacritic}` and `toLowerCase`. `Slug.AsciiFold` gives its exact behaviour on ASCII text.

## Model

| member | source | states |
|---|---|---|
| Slug.CreateSlug | apps/api/src/utils/create-slug.ts:1-15 | Empty text gives "". Any output is a slug: only `[a-z0-9-]`, no "--", and no leading or trailing '-'. Its letters and digits are exactly those of the folded text, in order. Text with no letter or digit after folding gives "". |
| Slug.SlugifyFolded | apps/api/src/utils/create-slug.ts:10-12 | The three regex replacements yield a slug whose letters and digits are those of the input, in order. |
| Slug.Hyphenate | apps/api/src/utils/create-slug.ts:10 | The output is in the slug alphabet, has no "--", keeps every letter and digit in order, starts with '-' iff the input starts outside `[a-z0-9]`, and keeps a final letter or digit. |
| Slug.HyphenateGap | apps/api/src/utils/create-slug.ts:10 | A whole run outside `[a-z0-9]` becomes exactly one '-'. If text `a` ends in a letter or digit (or is empty) and `b` starts with one (or is empty), then `a + run + b` hyphenates to the result for `a`, one '-', and the result for `b`. |
| Slug.CollapseDashes | apps/api/src/utils/create-slug.ts:12 | `/-+/g` to "-": no "--" remains, the letters and digits are unchanged, the slug alphabet is kept, and a leading '-' stays exactly when there was one. |
| Slug.CollapseRunOfTwo | apps/api/src/utils/create-slug.ts:12 | A run of dashes becomes one '-': a second '-' next to a '-' changes nothing, wherever the run stands. Together with `CollapseKeepsSingleDashes` this fixes the result on every input. |
| Slug.TrimDash | apps/api/src/utils/create-slug.ts:12 | `/^-\|-$/g` to "": the input is the result with at most one '-' put back at the start and at most one at the end. On text without "--", the result has no edge dash and no "--". The alphabet and the letters and digits are unchanged. |
| Slug.AsciiFold | apps/api/src/utils/create-slug.ts:6-8 | On ASCII text, the output has no upper-case letter and no '^' or '`'. Text without '^' or '`' keeps its length, each 'A'-'Z' becomes the matching 'a'-'z', and every other character stays in place. Text already in the slug alphabet comes back unchanged. |
| Slug.HyphenateKeepsSlugChars | apps/api/src/utils/create-slug.ts:10 | Text made only of `[a-z0-9-]` without "--" is unchanged by the run replacement. |
| Slug.CollapseKeepsSingleDashes | apps/api/src/utils/create-slug.ts:12 | Text without "--" is unchanged by the dash collapse. |
| Slug.SlugIsFixedPoint | apps/api/src/utils/create-slug.ts:1-15 | A slug is left unchanged by `createSlug`, for any folding that acts as the ASCII one on ASCII text. |
| Slug.FixedPointsAreSlugs | apps/api/src/utils/create-slug.ts:1-15 | `createSlug(s) == s` exactly when `s` is a slug. |
| Slug.CreateSlugIdempotent | apps/api/src/utils/create-slug.ts:1-15 | `createSlug(createSlug(t)) == createSlug(t)`. |
| Slug.GapBecomesOneDash | apps/api/src/utils/create-slug.ts:10-12 | Two words separated by any run outside `[a-z0-9]` slugify to the two slugs joined by exactly one '-'. |
| Slug.LeadingRunVanishes | apps/api/src/utils/create-slug.ts:10-12 | A run outside `[a-z0-9]` before the first word leaves no trace. |
| Slug.TrailingRunVanishes | apps/api/src/utils/create-slug.ts:10-12 | A run outside `[a-z0-9]` after the last word leaves no trace. |
| Email.DomainOf | apps/api/src/http/routes/auth/create-account.ts:36 | The second field of `email.split("@")`: absent iff the e-mail has no '@'. Otherwise it is the text after the first '@' and up to the next '@', and it contains no '@'. |
| Email.DomainOfJoin | apps/api/src/http/routes/auth/create-account.ts:36 | Splitting `local@domain`, possibly followed by more '@' fields, gives back `domain`. |
| Schema.NewId | apps/api/src/db/schema.ts:23 | On a store whose ids are all below the counter, the next id is used by no row of any table. |
| Schema.UserWithEmail | apps/api/src/db/schema.ts:25 | The lookup by e-mail finds a user with that e-mail. With unique e-mails it is the only one. |
| Schema.Valid | apps/api/src/db/schema.ts:22-186 | The database invariant: e-mails, organization slugs and domains, (e-mail, organization) invites, (organization, user) memberships and project slugs are unique. Every token, organization, invite, membership and project references existing rows, and every id is below the counter. |
| Schema.EmptyStoreIsValid | apps/api/src/db/schema.ts:22-186 | The invariant can be met: the empty database satisfies it. |
| Schema.AddUser | apps/api/src/db/schema.ts:22-34 | An insert into `users` adds exactly one row, at the next id. On a store whose ids are below the counter it overwrites no row, and no other table changes. |
| Schema.AddToken | apps/api/src/db/schema.ts:40-50 | An insert into `tokens` adds exactly one row, at the next id. It overwrites no row on a store whose ids are below the counter, and no other table changes. |
| Schema.AddOrganization | apps/api/src/db/schema.ts:79-98 | An insert into `organizations` adds exactly one row, at the next id. It overwrites no row on a store whose ids are below the counter, and no other table changes. |
| Schema.AddInvite | apps/api/src/db/schema.ts:104-128 | An insert into `invites` adds exactly one row, at the next id. It overwrites no row on a store whose ids are below the counter, and no other table changes. |
| Schema.AddMember | apps/api/src/db/schema.ts:134-158 | An insert into `members` adds exactly one row, at the next id. It overwrites no row on a store whose ids are below the counter, and no other table changes. |
| Schema.AddProject | apps/api/src/db/schema.ts:164-186 | An insert into `projects` adds exactly one row, at the next id. It overwrites no row on a store whose ids are below the counter, and no other table changes. |
| Schema.AddUserKeepsValid | apps/api/src/db/schema.ts:22-34 | Inserting a user whose e-mail is unused keeps every constraint. |
| Schema.AddTokenKeepsValid | apps/api/src/db/schema.ts:40-50 | Inserting a token for an existing user keeps every constraint. |
| Schema.AddOrganizationKeepsValid | apps/api/src/db/schema.ts:79-98 | Inserting an organization keeps every constraint when its slug is free, its domain is null or free, and its owner exists. |
| Schema.AddInviteKeepsValid | apps/api/src/db/schema.ts:104-128 | Inserting an invite keeps every constraint when the (e-mail, organization) pair is free and the organization exists. |
| Schema.AddMemberKeepsValid | apps/api/src/db/schema.ts:134-158 | Inserting a membership keeps every constraint when the (organization, user) pair is free and both rows exist. |
| Schema.AddProjectKeepsValid | apps/api/src/db/schema.ts:164-186 | Inserting a project keeps every constraint when its slug is free and its organization and owner exist. |
| Schema.SetOrganizationKeepsValid | apps/api/src/db/schema.ts:79-98 | Rewriting one organization row keeps every constraint when the new slug and domain clash with no other row and the owner exists. |
| Schema.SetRolesKeepsValid | apps/api/src/db/schema.ts:134-158 | Changing only the roles of memberships keeps every constraint. |
| Schema.RemoveInviteKeepsValid | apps/api/src/db/schema.ts:104-128 | Deleting an invite keeps every constraint. |
| Schema.RemoveMemberKeepsValid | apps/api/src/db/schema.ts:134-158 | Deleting a membership keeps every constraint. |
| Schema.DeleteOrganization | apps/api/src/db/schema.ts:104-186 | Deleting an organization also deletes exactly its invites, memberships and projects, through the `on delete cascade` keys. Every other row is unchanged. |
| Schema.DeleteOrganizationKeepsValid | apps/api/src/db/schema.ts:104-186 | The cascade leaves no dangling reference and keeps every constraint. |
| Schema.DeleteOrganizationIsScoped | apps/api/src/db/schema.ts:104-186 | The cascade touches only rows of the deleted organization. |
| AuthMiddleware.GetCurrentUserId | apps/api/src/http/middlewares/auth.ts:10-18 | Fails with "Invalid auth token" iff the JWT does not verify. Otherwise it yields the token's `sub`. |
| AuthMiddleware.GetUserMembership | apps/api/src/http/middlewares/auth.ts:20-59 | Succeeds iff the caller has a membership in an organization with that slug. It returns that organization and membership. Otherwise the error is "You aren't a member of this organization.". With unique slugs and memberships the answer is the only match. |
| AuthMiddleware.MembershipResolves | apps/api/src/http/middlewares/auth.ts:20-59 | With unique slugs and memberships, every membership is found by its organization's slug, and found exactly. |
| AuthMiddleware.Guard | apps/api/src/http/routes/projects/create-project.ts:40-51 | The route preamble passes on the membership lookup's error. Otherwise it refuses with the route's message when the permission layer denies the action, and yields the context when it allows it. |
| AccountRoutes.AutoJoins | apps/api/src/http/routes/auth/create-account.ts:36-46 | An organization takes in a sign-up only when the e-mail has an '@', the organization sets `shouldAttachUsersByDomain`, and it holds a domain, which then has no '@'. |
| AccountRoutes.AutoJoinOrganization | apps/api/src/http/routes/auth/create-account.ts:36-46 | Finds an organization whose domain is the e-mail's domain and that attaches users by domain, whenever one exists. With unique domains it is the only one. |
| AccountRoutes.CreateAccount | apps/api/src/http/routes/auth/create-account.ts:24-69 | Refused iff the e-mail is in use. Otherwise the user row is inserted with the password's hash. A MEMBER membership in the auto-join organization is inserted when there is one. No other table changes. |
| AccountRoutes.CreateAccountKeepsValid | apps/api/src/http/routes/auth/create-account.ts:50-66 | Sign-up keeps every constraint, including unique e-mails and unique memberships. |
| AccountRoutes.SignUpJoinsIffDomainAttaches | apps/api/src/http/routes/auth/create-account.ts:36-66 | The new user is a member of organization `o` iff `o` attaches users of the e-mail's domain. |
| AccountRoutes.AuthenticateWithPassword | apps/api/src/http/routes/auth/authenticate-with-password.ts:28-67 | "Invalid credentials." for an unknown e-mail or a wrong password. "User does not have a password. Use social login." for a user without a hash. Succeeds iff some user with that e-mail has a hash that `compare` accepts, with a 7-day token for that user. |
| AccountRoutes.RequestPasswordRecover | apps/api/src/http/routes/auth/request-password-recover.ts:24-50 | The reply is the same 201 whether or not the e-mail is known. For a known e-mail exactly one PASSWORD_RECOVER token for that user is added. Otherwise nothing changes. |
| AccountRoutes.RequestPasswordRecoverKeepsValid | apps/api/src/http/routes/auth/request-password-recover.ts:37-43 | Issuing a recovery token keeps every constraint. |
| AccountRoutes.ResetPassword | apps/api/src/http/routes/auth/reset-password.ts:27-53 | Refused with 401 (`UnauthorizedError` thrown with no argument) iff the code is no token. Otherwise only the owner's password hash changes and only that token is deleted. |
| AccountRoutes.ResetPasswordKeepsValid | apps/api/src/http/routes/auth/reset-password.ts:41-50 | A reset keeps every constraint. |
| AccountRoutes.RecoveryCodeIsSingleUse | apps/api/src/http/routes/auth/reset-password.ts:30-49 | After a successful reset, the same code is refused. |
| AccountRoutes.RecoverThenReset | apps/api/src/http/routes/auth/reset-password.ts:27-53 | A recovery request followed by a reset with the issued code sets the requester's password. Afterwards the token table is as it was before the request. |
| OrganizationRoutes.CreateOrganization | apps/api/src/http/routes/orgs/create-organization.ts:35-82 | Succeeds iff the caller is signed in, the domain is present and free, and the slug is free for an existing user. Then it inserts the organization and the caller's ADMIN membership together, and nothing else changes. |
| OrganizationRoutes.NewOrganization | apps/api/src/http/routes/orgs/create-organization.ts:58-67 | The inserted row stores the given name, has a well-formed slug built from the name's letters and digits, is owned by the caller and carries the given domain. It attaches users by domain exactly as the request says, and not at all when the request omits the flag. |
| OrganizationRoutes.CreateOrganizationRefusals | apps/api/src/http/routes/orgs/create-organization.ts:36-54 | The refusals come in source order: invalid token, then "Domain is required.", then the domain clash, then the database's slug and owner checks. |
| OrganizationRoutes.CreateOrganizationKeepsValid | apps/api/src/http/routes/orgs/create-organization.ts:56-77 | Creating an organization keeps every constraint, including unique domains. |
| OrganizationRoutes.CreatorResolvesAsAdmin | apps/api/src/http/routes/orgs/create-organization.ts:56-77 | Afterwards the creator resolves the new organization by its slug, as its owner and with the ADMIN role. |
| OrganizationRoutes.UpdateOrganization | apps/api/src/http/routes/orgs/update-organization.ts:38-85 | After the guard, an empty or missing domain gives no write and no reply. A domain held by another organization is refused. Otherwise the row gets the new name, domain and flag, and keeps its slug. |
| OrganizationRoutes.UpdatedOrganization | apps/api/src/http/routes/orgs/update-organization.ts:74-81 | The `set` writes the new name and domain, and the flag when the body gives one. It keeps the slug and the owner. |
| OrganizationRoutes.UpdateOrganizationKeepsValid | apps/api/src/http/routes/orgs/update-organization.ts:55-81 | Updating an organization keeps every constraint, including unique domains. |
| OrganizationRoutes.UpdateOrganizationIsScoped | apps/api/src/http/routes/orgs/update-organization.ts:74-81 | Only the caller's organization changes, and it stays reachable under the same slug. |
| OrganizationRoutes.ResubmittingOwnDomainIsAccepted | apps/api/src/http/routes/orgs/update-organization.ts:55-72 | Re-sending the organization's own domain is not a clash. |
| OrganizationRoutes.TransferOrganization | apps/api/src/http/routes/orgs/transfer-organization.ts:36-92 | After the guard, the transfer is refused iff the target is not a member. Otherwise the target's membership becomes ADMIN and the target becomes the owner. |
| OrganizationRoutes.PromoteToAdmin | apps/api/src/http/routes/orgs/transfer-organization.ts:71-81 | The update keeps every membership row and its (organization, user) pair. The target's membership in the organization becomes ADMIN, and every other row is unchanged. |
| OrganizationRoutes.TransferOrganizationKeepsValid | apps/api/src/http/routes/orgs/transfer-organization.ts:70-89 | A transfer keeps every constraint. |
| OrganizationRoutes.TransferMakesOwnerAdmin | apps/api/src/http/routes/orgs/transfer-organization.ts:70-89 | Afterwards the new owner holds an ADMIN membership, no other user's membership changes, and only the caller's organization is touched. |
| OrganizationRoutes.ShutdownOrganization | apps/api/src/http/routes/orgs/shutdown-organization.ts:32-53 | After the guard, the organization and all its invites, memberships and projects are gone, and nothing of any other organization changes. |
| OrganizationRoutes.ShutdownOrganizationKeepsValid | apps/api/src/http/routes/orgs/shutdown-organization.ts:48-50 | A shutdown keeps every constraint. |
| OrganizationRoutes.ShutdownFreesSlug | apps/api/src/http/routes/orgs/shutdown-organization.ts:48-50 | Afterwards no organization has the slug, so every later lookup on it answers "You aren't a member of this organization.". |
| ProjectRoutes.CreateProject | apps/api/src/http/routes/projects/create-project.ts:37-69 | After the guard, succeeds iff the project slug is free and the caller exists. Then it inserts one project owned by the caller in the caller's organization, and nothing else changes. |
| ProjectRoutes.NewProject | apps/api/src/http/routes/projects/create-project.ts:55-64 | The inserted project stores the given name and description, has a well-formed slug built from the name's letters and digits, belongs to the caller's organization and is owned by the caller. |
| ProjectRoutes.CreateProjectKeepsValid | apps/api/src/http/routes/projects/create-project.ts:55-64 | Creating a project keeps every constraint. |
| ProjectRoutes.CreateProjectFailsOnlyOnSlug | apps/api/src/http/routes/projects/create-project.ts:55-64 | On a valid store, once the guard passes, the insert fails iff the slug is taken by a project of any organization. |
| ProjectRoutes.CreateProjectIsScoped | apps/api/src/http/routes/projects/create-project.ts:55-64 | The new project belongs to the caller's organization, is owned by the caller and has a well-formed slug. Nothing outside that organization changes. |
| InviteRoutes.CreateInvite | apps/api/src/http/routes/invites/create-invite.ts:39-110 | After the guard, the order is: refused when the organization attaches the e-mail's domain; then refused when an invite for that e-mail exists in the organization; otherwise exactly one invite is inserted. |
| InviteRoutes.AttachesDomainOf | apps/api/src/http/routes/invites/create-invite.ts:57-66 | The auto-join test holds only for an e-mail with an '@', against an organization that sets `shouldAttachUsersByDomain` and holds a domain. A null domain never matches. |
| InviteRoutes.CreateInviteKeepsValid | apps/api/src/http/routes/invites/create-invite.ts:97-105 | Creating an invite keeps every constraint, including one invite per (e-mail, organization). |
| InviteRoutes.InviteRefusedIffSignUpJoins | apps/api/src/http/routes/invites/create-invite.ts:57-66 | An invite is refused as automatic exactly when sign-up with that e-mail would already join the organization. |
| InviteRoutes.SecondInviteRefused | apps/api/src/http/routes/invites/create-invite.ts:68-82 | Repeating a successful invite, with any role, is refused with "Another invite with same e-mail already exists.". |
| InviteRoutes.RevokeInvite | apps/api/src/http/routes/invites/revoke-invite.ts:33-66 | After the guard, an invite that is not in the caller's organization gives "Invite not found". Otherwise exactly that invite is deleted. |
| InviteRoutes.RevokeInviteIsScoped | apps/api/src/http/routes/invites/revoke-invite.ts:49-63 | Revoking never reaches another organization's rows. |
| InviteRoutes.RevokeInviteKeepsValid | apps/api/src/http/routes/invites/revoke-invite.ts:63 | Revoking keeps every constraint. |
| InviteRoutes.RejectInvite | apps/api/src/http/routes/invites/reject-invite.ts:30-59 | The refusals come in source order: invalid token, unknown invite, unknown user, another user's e-mail. Succeeds iff the caller's e-mail is the invite's, and then deletes exactly that invite. |
| InviteRoutes.OnlyInviteeRejects | apps/api/src/http/routes/invites/reject-invite.ts:43-54 | On a valid store, rejecting succeeds iff the caller is the one user with the invited e-mail. |
| InviteRoutes.RejectInviteKeepsValid | apps/api/src/http/routes/invites/reject-invite.ts:56 | Rejecting keeps every constraint. |
| MemberRoutes.UpdateMember | apps/api/src/http/routes/members/update-member.ts:36-67 | After the guard, the reply is always 204. Only a membership of the caller's organization gets the new role, and an id from elsewhere changes nothing. |
| MemberRoutes.UpdateMemberKeepsValid | apps/api/src/http/routes/members/update-member.ts:54-64 | A role change keeps every constraint. |
| MemberRoutes.UpdatedRoleResolves | apps/api/src/http/routes/members/update-member.ts:54-64 | Only the caller's organization changes, and the updated member then resolves with the new role. |
| MemberRoutes.RemoveMember | apps/api/src/http/routes/members/remove-member.ts:32-58 | After the guard, the reply is always 204. Only a membership of the caller's organization is deleted. |
| MemberRoutes.RemoveMemberKeepsValidRoute | apps/api/src/http/routes/members/remove-member.ts:48-55 | Removing a member keeps every constraint. |
| MemberRoutes.RemovedMemberLosesAccess | apps/api/src/http/routes/members/remove-member.ts:48-55 | Only the caller's organization changes, and the removed user no longer resolves the organization by its slug. |

## Left out

- The permission table (`getUsersPermissions` and its CASL rules) is not part of this model. Routes take the decision as the `allowed` parameter.
- The Unicode steps of `createSlug` (NFD normalisation, `\p{Diacritic}` removal, `toLowerCase`) are a `Folding` parameter. Only their ASCII behaviour is defined (`Slug.AsciiFold`). Idempotence and fixed points assume a folding that agrees with it on ASCII text.
- bcrypt hashing and comparison, JWT signing and JWT verification are external. They appear as parameters or as the `Session` and `SessionToken` values.
- Row ids come from a counter in place of `defaultRandom()` uuids. This keeps freshness provable.
- Timestamps, `avatarUrl`, the `accounts` table and `invites.user_id` play no part in the modelled routes and are left out.
- GitHub sign-in, the read-only routes (get-*), update-project and delete-project are outside the modelled core.
- Request validation (the zod schemas) and HTTP status plumbing are left out. Each error is the class and message the handler throws.
- Concurrency is left out. Each handler runs alone on one store, so the race between a lookup and the following insert is not modelled.
- OrganizationRoutes.UpdatedOrganization: the value written to `shouldAttachUsersByDomain` when the body omits it is the `omitted` parameter. The ORM's treatment of an `undefined` value in `set` is not visible.
- InviteRoutes.CreateInvite: the `authorId` the handler passes to the insert has no column in the schema, so the inserted row does not record it.
- AccountRoutes.AutoJoinOrganization: for an e-mail without '@' the domain is undefined, and the model lets no organization match. What the ORM does with `eq(column, undefined)` is not visible.
- AccountRoutes.AuthenticateWithPassword, AccountRoutes.ResetPassword: both require a valid store, since they read a user through the unique e-mail or through the token's foreign key.
- OrganizationRoutes.UpdateOrganization: with an empty or missing domain the handler writes nothing and sends no reply. The model returns the store unchanged with reply `NoReply`. What the server then sends is not modelled.
- A database rejection that no handler catches (a duplicate slug, a missing owner) is the single error `ConstraintViolation`. The database's error text is not modelled.
- AccountRoutes.ResetPassword: a recovery code is modelled only as a token id. The body declares `code` as any string, so a code that is not a uuid reaches the `tokens.id` lookup. There the database rejects it as an uncaught error, not as the 401. The model cannot express that input.
- AccountRoutes.NoMessage: `UnauthorizedError` is thrown without an argument, and its class is not part of this model. Its default message is modelled as the empty string.
- AccountRoutes.RequestPasswordRecover: the handler logs the new token's id to the console, which is the only place the code is emitted. Logging is an effect outside the database and is not modelled. The model's reply is the bare 201.
