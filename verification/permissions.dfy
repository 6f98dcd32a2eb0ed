/**
  The permission layer, as the routes call it: `getUsersPermissions(userId,
  role).cannot(action, subject)`. Its rule table is not part of this model;
  every route takes the decision as a parameter `allowed`, and every property
  is proved for all such decisions.
 */
module Permissions {
  import opened Schema

  datatype Action = Create | Update | Delete | TransferOwnership

  /** What a route asks about: its own organization (as `organizationSchema`
      parses it), or a resource type named by a string. */
  datatype Subject =
    | OrganizationSubject(id: Id, organization: Organization)
    | ProjectType
    | InviteType
    | UserType

  /** `!cannot(action, subject)` for the user with the given id and role. */
  type Allowed = (Id, Role, Action, Subject) -> bool
}
