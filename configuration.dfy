/** The seeding step that runs after migrations: it makes sure the Admin and
    Moderator roles exist, and looks for the admin user without adding one. */
module Configuration {

  const AdminRole: string := "Admin"
  const ModeratorRole: string := "Moderator"
  const AdminUserName: string := "admin@myblogapp.com"

  /** No role name occurs twice. */
  predicate NoDuplicates(roles: seq<string>) {
    forall i, j :: 0 <= i < j < |roles| ==> roles[i] != roles[j]
  }

  /** The role table after a role named `name` is created unless one already exists. */
  function EnsureRole(roles: seq<string>, name: string): (r: seq<string>)
    ensures name in r
    ensures forall n :: n in r <==> n in roles || n == name
    ensures |roles| <= |r| <= |roles| + 1 && r[..|roles|] == roles
    ensures NoDuplicates(roles) ==> NoDuplicates(r)
  {
    if name in roles then roles else roles + [name]
  }

  /** The role table after Seed. */
  function SeededRoles(roles: seq<string>): seq<string> {
    EnsureRole(EnsureRole(roles, AdminRole), ModeratorRole)
  }

  /** Ensuring a role twice is the same as ensuring it once. */
  lemma EnsureRoleIdempotent(roles: seq<string>, name: string)
    ensures EnsureRole(EnsureRole(roles, name), name) == EnsureRole(roles, name)
  {
  }

  /** Seeding a seeded role table changes nothing. */
  lemma SeededRolesIdempotent(roles: seq<string>)
    ensures SeededRoles(SeededRoles(roles)) == SeededRoles(roles)
  {
  }

  /** The seeded table keeps every earlier role in its place and adds only Admin and Moderator. */
  lemma SeededRolesKeepsOthers(roles: seq<string>)
    ensures |SeededRoles(roles)| >= |roles| && SeededRoles(roles)[..|roles|] == roles
    ensures forall n :: n in SeededRoles(roles) <==> n in roles || n == AdminRole || n == ModeratorRole
  {
  }

  /** A user account of the identity store. */
  class ApplicationUser {
    var userName: string

    constructor ()
      ensures userName == ""
    {
      userName := "";
    }
  }

  /** The part of the database context Seed works on: role names and user names. */
  class SeedContext {
    var roles: seq<string>
    var users: seq<string>

    constructor (roles: seq<string>, users: seq<string>)
      ensures this.roles == roles && this.users == users
    {
      this.roles, this.users := roles, users;
    }

    /** Creates each of Admin and Moderator only when no role of that name exists; the
        admin user object it may build is never added, so the users are left as they are. */
    method Seed()
      modifies this`roles
      ensures roles == SeededRoles(old(roles))
      ensures AdminRole in roles && ModeratorRole in roles
      ensures forall n :: n in roles <==> n in old(roles) || n == AdminRole || n == ModeratorRole
      ensures |roles| >= |old(roles)| && roles[..|old(roles)|] == old(roles)
      ensures NoDuplicates(old(roles)) ==> NoDuplicates(roles)
      ensures users == old(users)
    {
      if AdminRole !in roles {
        roles := roles + [AdminRole];
      }
      if ModeratorRole !in roles {
        roles := roles + [ModeratorRole];
      }
      var adminUser: ApplicationUser? := null;
      if AdminUserName !in users {
        adminUser := new ApplicationUser();
      }
      SeededRolesKeepsOthers(old(roles));
    }
  }

  /** Running Seed twice leaves the same roles as running it once. */
  method SeedTwice(context: SeedContext)
    modifies context`roles
    ensures context.roles == SeededRoles(old(context.roles))
  {
    context.Seed();
    context.Seed();
    SeededRolesIdempotent(old(context.roles));
  }
}
